/** The log broadcaster (internal/system/logs.go): lines are published to any number of subscribers
    through bounded channels, and a new subscriber first gets a replay of the recent lines. Every
    operation runs under one mutex, so each is one atomic step. */
module LogBroadcaster {
  import opened Seqs
  import opened Text

  datatype LogLine = LogLine(raw: string, category: string, time: string, message: string)

  datatype LogFilter = LogFilter(category: string, search: string)

  const HISTORY_PER_CATEGORY := 150
  const CAPACITY := 150 * 5 + 64

  // ----- lines

  const FIREWALL := "firewall"
  const DHCP := "dhcp"
  const PPPOE := "pppoe"
  const SYSTEM := "system"

  function CategoryOf(raw: string): (c: string)
    ensures c in {FIREWALL, DHCP, PPPOE, SYSTEM}
  {
    var lower := ToLower(raw);
    if Contains(lower, "iptables") || Contains(lower, "fw-input") || Contains(lower, "mc-connect") then FIREWALL
    else if Contains(lower, "dnsmasq") then DHCP
    else if Contains(lower, "pppd") || Contains(lower, "pppoe") then PPPOE
    else SYSTEM
  }

  function ParseLogLine(raw: string): LogLine {
    var parts := SplitN(raw, ' ', 5);
    if |parts| >= 5 then LogLine(raw, CategoryOf(raw), JoinBy(parts[..3], ' '), parts[4])
    else LogLine(raw, CategoryOf(raw), "", raw)
  }

  function TrimEOL(s: string): string {
    if s != "" && (s[|s| - 1] == '\n' || s[|s| - 1] == '\r') then TrimEOL(s[..|s| - 1]) else s
  }

  /** What one read from the log file publishes: nothing for an empty line. */
  function Incoming(text: string): seq<LogLine> {
    var line := TrimEOL(text);
    if line == "" then [] else [ParseLogLine(line)]
  }

  predicate Matches(l: LogLine, f: LogFilter) {
    && (f.category != "" ==> l.category == f.category)
    && (f.search != "" ==> Contains(ToLower(l.raw), ToLower(f.search)))
  }

  function Matching(f: LogFilter): LogLine -> bool {
    l => Matches(l, f)
  }

  // ----- channels

  /** A channel by its history: the lines ever put into it, how many have been taken out, and whether
      it is closed. The lines in between are in its buffer. */
  datatype Channel = Channel(sent: seq<LogLine>, received: nat, closed: bool) {
    predicate Full() {
      |sent| - received >= CAPACITY
    }

    /** A send in a select with a default branch. */
    function Offer(l: LogLine): Channel {
      if Full() then this else this.(sent := sent + [l])
    }
  }

  function OfferAll(ch: Channel, lines: seq<LogLine>): Channel {
    if lines == [] then ch else OfferAll(ch, lines[..|lines| - 1]).Offer(lines[|lines| - 1])
  }

  // ----- the broadcaster's state and its atomic steps

  /** `channels` holds every channel ever made; `subscribers` the filters of those that are live. */
  datatype State = State(
    subscribers: map<nat, LogFilter>, channels: map<nat, Channel>, nextID: nat,
    history: map<string, seq<LogLine>>)

  const INITIAL := State(map[], map[], 0, map[])

  function Last<T>(n: nat, s: seq<T>): seq<T> {
    if |s| <= n then s else s[|s| - n..]
  }

  function Recent(history: map<string, seq<LogLine>>, c: string): seq<LogLine> {
    if c in history then history[c] else []
  }

  /** The recent lines of several categories, in the order in which the map is iterated. */
  function RecentOf(history: map<string, seq<LogLine>>, order: seq<string>): seq<LogLine> {
    if order == [] then []
    else RecentOf(history, order[..|order| - 1]) + Recent(history, order[|order| - 1])
  }

  function Replayed(history: map<string, seq<LogLine>>, f: LogFilter, order: seq<string>): seq<LogLine> {
    Filter(Matching(f), if f.category != "" then Recent(history, f.category) else RecentOf(history, order))
  }

  datatype Event =
    | Publish(text: string)
    | Subscribe(filter: LogFilter, order: seq<string>)
    | Unsubscribe(id: nat)
    | Receive(id: nat)

  ghost predicate Enumerates(order: seq<string>, keys: set<string>) {
    && (forall c :: c in order <==> c in keys)
    && (forall i, j | 0 <= i < j < |order| :: order[i] != order[j])
  }

  /** A subscription iterates over the categories in some order; each unsubscribe function is called
      at most once; a receive takes a line that is there. */
  ghost predicate Enabled(s: State, e: Event) {
    match e
    case Publish(_) => true
    case Subscribe(_, order) => Enumerates(order, s.history.Keys)
    case Unsubscribe(id) => id in s.channels && !s.channels[id].closed
    case Receive(id) => id in s.channels && s.channels[id].received < |s.channels[id].sent|
  }

  function Delivered(channels: map<nat, Channel>, subscribers: map<nat, LogFilter>, l: LogLine): map<nat, Channel> {
    map id | id in channels ::
      if id in subscribers && Matches(l, subscribers[id]) then channels[id].Offer(l) else channels[id]
  }

  function Published(s: State, l: LogLine): State {
    s.(history := s.history[l.category := Last(HISTORY_PER_CATEGORY, Recent(s.history, l.category) + [l])],
       channels := Delivered(s.channels, s.subscribers, l))
  }

  function Step(s: State, e: Event): State
  {
    match e
    case Publish(text) => if Incoming(text) == [] then s else Published(s, Incoming(text)[0])
    case Subscribe(f, order) =>
      s.(subscribers := s.subscribers[s.nextID := f],
         channels := s.channels[s.nextID := OfferAll(Channel([], 0, false), Replayed(s.history, f, order))],
         nextID := s.nextID + 1)
    case Unsubscribe(id) =>
      if id in s.channels
      then s.(subscribers := s.subscribers - {id}, channels := s.channels[id := s.channels[id].(closed := true)])
      else s
    case Receive(id) =>
      if id in s.channels
      then s.(channels := s.channels[id := s.channels[id].(received := s.channels[id].received + 1)])
      else s
  }

  // ----- the class

  class Broadcaster {
    var subscribers: map<nat, LogFilter>
    var channels: map<nat, Channel>
    var nextID: nat
    var history: map<string, seq<LogLine>>

    function Now(): State
      reads this
    {
      State(subscribers, channels, nextID, history)
    }

    constructor ()
      ensures Now() == INITIAL
    {
      subscribers, channels, nextID, history := map[], map[], 0, map[];
    }

    /** A send that would block the caller, who holds the mutex: there must be room. */
    method Send(ch: Channel, l: LogLine) returns (r: Channel)
      requires !ch.Full() && !ch.closed
      ensures r == ch.Offer(l) && r.sent == ch.sent + [l] && r.received == ch.received && !r.closed
    {
      r := ch.(sent := ch.sent + [l]);
    }

    /** A send with a default branch. Sending to a closed channel would panic. */
    method TrySend(ch: Channel, l: LogLine) returns (r: Channel)
      requires !ch.closed
      ensures r == ch.Offer(l) && !r.closed
    {
      r := if ch.Full() then ch else ch.(sent := ch.sent + [l]);
    }

    /** The replay of one category, with sends that may not block. */
    method ReplayCategory(f: LogFilter) returns (ch: Channel)
      requires |Recent(history, f.category)| <= HISTORY_PER_CATEGORY
      ensures ch == OfferAll(Channel([], 0, false), Filter(Matching(f), Recent(history, f.category)))
    {
      hide Filter, Matches, OfferAll;
      ch := Channel([], 0, false);
      ghost var empty := ch;
      var lines := if f.category in history then history[f.category] else [];
      assert lines[..0] == [];
      OfferNothing(empty, f);
      for i := 0 to |lines|
        invariant ch == OfferAll(empty, Filter(Matching(f), lines[..i]))
        invariant |ch.sent| <= i && ch.received == 0 && !ch.closed
      {
        assert lines[..i + 1] == lines[..i] + [lines[i]];
        FilterAppend(Matching(f), lines[..i], lines[i]);
        if Matches(lines[i], f) {
          OfferOneMore(empty, Filter(Matching(f), lines[..i]), lines[i]);
          ch := Send(ch, lines[i]);
        }
      }
      assert lines[..|lines|] == lines;
    }

    /** The replay of all categories, with sends that drop the line if there is no room. */
    method ReplayAll(f: LogFilter, order: seq<string>) returns (ch: Channel)
      requires forall c <- order :: c in history
      ensures ch == OfferAll(Channel([], 0, false), Filter(Matching(f), RecentOf(history, order)))
    {
      ch := Channel([], 0, false);
      ghost var empty := ch;
      ghost var done: seq<LogLine> := [];
      for k := 0 to |order|
        invariant done == RecentOf(history, order[..k])
        invariant ch == OfferAll(empty, Filter(Matching(f), done)) && !ch.closed
      {
        assert order[..k + 1][..k] == order[..k] && order[k] in order;
        ch := ReplayLines(ch, f, history[order[k]], done);
        done := done + history[order[k]];
      }
      assert order[..|order|] == order;
    }

    method ReplayLines(start: Channel, f: LogFilter, lines: seq<LogLine>, ghost done: seq<LogLine>)
      returns (ch: Channel)
      requires start == OfferAll(Channel([], 0, false), Filter(Matching(f), done)) && !start.closed
      ensures ch == OfferAll(Channel([], 0, false), Filter(Matching(f), done + lines)) && !ch.closed
    {
      hide Filter, Matches;
      ch := start;
      ghost var empty := Channel([], 0, false);
      assert done + lines[..0] == done;
      for i := 0 to |lines|
        invariant ch == OfferAll(empty, Filter(Matching(f), done + lines[..i])) && !ch.closed
      {
        assert done + lines[..i + 1] == (done + lines[..i]) + [lines[i]];
        FilterAppend(Matching(f), done + lines[..i], lines[i]);
        if Matches(lines[i], f) {
          OfferOneMore(empty, Filter(Matching(f), done + lines[..i]), lines[i]);
          ch := TrySend(ch, lines[i]);
        }
      }
      assert lines[..|lines|] == lines;
    }

    /** `Subscribe`. In every reachable state the histories are short enough that the replay of one
        category cannot block. */
    method Subscribe(f: LogFilter, order: seq<string>) returns (id: nat)
      requires Enumerates(order, history.Keys)
      requires forall c <- history :: |history[c]| <= HISTORY_PER_CATEGORY
      modifies this
      ensures id == old(nextID) && Now() == Step(old(Now()), Event.Subscribe(f, order))
    {
      id := nextID;
      nextID := nextID + 1;
      var ch: Channel;
      if f.category != "" {
        ch := ReplayCategory(f);
      } else {
        ch := ReplayAll(f, order);
      }
      channels := channels[id := ch];
      subscribers := subscribers[id := f];
    }

    /** The function that `Subscribe` returns. */
    method Unsubscribe(id: nat)
      requires Enabled(Now(), Event.Unsubscribe(id))
      modifies this
      ensures Now() == Step(old(Now()), Event.Unsubscribe(id))
    {
      subscribers := subscribers - {id};
      channels := channels[id := channels[id].(closed := true)];
    }

    /** The loop over the subscribers, which the map delivers in any order. */
    method FanOut(parsed: LogLine)
      requires forall id <- subscribers :: id in channels && !channels[id].closed
      modifies this`channels
      ensures channels == Delivered(old(channels), subscribers, parsed)
    {
      hide Matches;
      var left := subscribers.Keys;
      while left != {}
        invariant left <= subscribers.Keys && channels.Keys == old(channels).Keys
        invariant forall id <- channels ::
          channels[id] == if id in subscribers && id !in left && Matches(parsed, subscribers[id])
                          then old(channels)[id].Offer(parsed) else old(channels)[id]
        decreases left
      {
        var id :| id in left;
        left := left - {id};
        if Matches(parsed, subscribers[id]) {
          var ch := TrySend(channels[id], parsed);
          channels := channels[id := ch];
        }
      }
    }

    /** One round of `run` for a line read from the file. */
    method PublishLine(text: string)
      requires forall id <- subscribers :: id in channels && !channels[id].closed
      modifies this
      ensures Now() == Step(old(Now()), Publish(text))
    {
      hide Delivered, Matches, ParseLogLine, TrimEOL;
      var line := TrimEOL(text);
      if line == "" {
        return;
      }
      var parsed := ParseLogLine(line);
      var cat := parsed.category;
      history := history[cat := (if cat in history then history[cat] else []) + [parsed]];
      if |history[cat]| > HISTORY_PER_CATEGORY {
        history := history[cat := history[cat][|history[cat]| - HISTORY_PER_CATEGORY..]];
      }
      FanOut(parsed);
    }

    /** A subscriber takes the next line from its channel. */
    method ReceiveLine(id: nat) returns (l: LogLine)
      requires Enabled(Now(), Receive(id))
      modifies this
      ensures Now() == Step(old(Now()), Receive(id))
      ensures l == old(channels[id].sent[channels[id].received])
    {
      l := channels[id].sent[channels[id].received];
      channels := channels[id := channels[id].(received := channels[id].received + 1)];
    }
  }

  lemma OfferNothing(ch: Channel, f: LogFilter)
    ensures OfferAll(ch, Filter(Matching(f), [])) == ch
  {
  }

  lemma OfferOneMore(ch: Channel, lines: seq<LogLine>, l: LogLine)
    ensures OfferAll(ch, lines + [l]) == OfferAll(ch, lines).Offer(l)
  {
    assert (lines + [l])[..|lines|] == lines;
  }
}
