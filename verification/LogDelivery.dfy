/** What a subscriber of the log broadcaster receives, over every interleaving of publishers,
    subscribers, unsubscriptions and receivers. */
module LogDelivery {
  import opened Seqs
  import opened LogBroadcaster

  // ----- runs and what they published

  function Run(events: seq<Event>): State {
    if events == [] then INITIAL else Step(Run(events[..|events| - 1]), events[|events| - 1])
  }

  ghost predicate Possible(events: seq<Event>) {
    forall i | 0 <= i < |events| :: Enabled(Run(events[..i]), events[i])
  }

  /** A run that is not empty is a run and one more event. */
  lemma SplitLast(events: seq<Event>) returns (init: seq<Event>, last: Event)
    requires Possible(events) && events != []
    ensures events == init + [last] && Possible(init) && Enabled(Run(init), last) && |init| < |events|
  {
    hide Run, Enabled;
    init, last := events[..|events| - 1], events[|events| - 1];
    forall i | 0 <= i < |init| ensures Enabled(Run(init[..i]), init[i]) {
      assert init[..i] == events[..i];
    }
  }

  /** All lines published, in order. */
  function Lines(events: seq<Event>): seq<LogLine> {
    if events == [] then []
    else
      var last := events[|events| - 1];
      Lines(events[..|events| - 1]) + if last.Publish? then Incoming(last.text) else []
  }

  function InCategory(c: string): LogLine -> bool {
    (l: LogLine) => l.category == c
  }

  /** The last 150 published lines of a category. */
  function RecentLines(events: seq<Event>, c: string): seq<LogLine> {
    Last(HISTORY_PER_CATEGORY, Filter(InCategory(c), Lines(events)))
  }

  function RecentLinesOf(events: seq<Event>, order: seq<string>): seq<LogLine> {
    if order == [] then []
    else RecentLinesOf(events, order[..|order| - 1]) + RecentLines(events, order[|order| - 1])
  }

  // ----- what a subscriber is owed, told by the run alone

  function Subscriptions(events: seq<Event>): nat {
    if events == [] then 0
    else Subscriptions(events[..|events| - 1]) + if events[|events| - 1].Subscribe? then 1 else 0
  }

  /** The filter of the id-th subscription. */
  function FilterOf(events: seq<Event>, id: nat): LogFilter
    requires id < Subscriptions(events)
  {
    var init, last := events[..|events| - 1], events[|events| - 1];
    if id < Subscriptions(init) then FilterOf(init, id) else last.filter
  }

  predicate Live(events: seq<Event>, id: nat) {
    id < Subscriptions(events) && Unsubscribe(id) !in events
  }

  function Taken(events: seq<Event>, id: nat): nat {
    if events == [] then 0
    else Taken(events[..|events| - 1], id) + if events[|events| - 1] == Receive(id) then 1 else 0
  }

  function Replay(events: seq<Event>, f: LogFilter, order: seq<string>): seq<LogLine> {
    Filter(Matching(f), if f.category != "" then RecentLines(events, f.category) else RecentLinesOf(events, order))
  }

  /** The stream of subscriber `id`: the matching recent lines at the time of the subscription, and
      then every later matching line that does not find the buffer full, until it unsubscribes. */
  function Stream(events: seq<Event>, id: nat): seq<LogLine> {
    if events == [] then []
    else
      var init, last := events[..|events| - 1], events[|events| - 1];
      var before := Stream(init, id);
      match last
      case Subscribe(f, order) => if Subscriptions(init) == id then Replay(init, f, order) else before
      case Publish(text) =>
        if Live(init, id) && |before| - Taken(init, id) < CAPACITY
        then before + Filter(Matching(FilterOf(init, id)), Incoming(text))
        else before
      case _ => before
  }

  /** One more event. */
  lemma Grow(init: seq<Event>, e: Event, id: nat)
    ensures var events := init + [e];
            && Run(events) == Step(Run(init), e)
            && Lines(events) == Lines(init) + (if e.Publish? then Incoming(e.text) else [])
            && Subscriptions(events) == Subscriptions(init) + (if e.Subscribe? then 1 else 0)
            && Taken(events, id) == Taken(init, id) + (if e == Receive(id) then 1 else 0)
            && (Unsubscribe(id) in events <==> Unsubscribe(id) in init || e == Unsubscribe(id))
            && (id < Subscriptions(init) ==> FilterOf(events, id) == FilterOf(init, id))
            && (e.Subscribe? && id == Subscriptions(init) ==>
                  FilterOf(events, id) == e.filter && Stream(events, id) == Replay(init, e.filter, e.order))
            && (e.Subscribe? && id != Subscriptions(init) ==> Stream(events, id) == Stream(init, id))
            && (e.Publish? ==>
                  Stream(events, id)
                  == if Live(init, id) && |Stream(init, id)| - Taken(init, id) < CAPACITY
                     then Stream(init, id) + Filter(Matching(FilterOf(init, id)), Incoming(e.text))
                     else Stream(init, id))
            && (e.Unsubscribe? || e.Receive? ==> Stream(events, id) == Stream(init, id))
  {
    hide Incoming, Replay, Step, Filter;
    assert (init + [e])[..|init|] == init;
  }

  // ----- the histories

  lemma LastOfLast<T>(n: nat, s: seq<T>, x: T)
    ensures Last(n, Last(n, s) + [x]) == Last(n, s + [x])
  {
  }

  ghost predicate HistoryInv(events: seq<Event>) {
    var h := Run(events).history;
    && (forall c :: Recent(h, c) == RecentLines(events, c))
    && (forall c <- h :: c in {FIREWALL, DHCP, PPPOE, SYSTEM})
  }

  /** In every reachable state the history of a category is the last 150 published lines of it. */
  lemma {:induction false} HistoryIsRecent(events: seq<Event>)
    requires Possible(events)
    ensures HistoryInv(events)
    decreases |events|
  {
    hide HistoryInv, Possible, Enabled, Run;
    if events == [] {
      HistoryStart();
    } else {
      var init, last := SplitLast(events);
      HistoryIsRecent(init);
      HistoryStep(init, last);
    }
  }

  lemma HistoryStart()
    ensures HistoryInv([])
  {
  }

  lemma HistoryStep(init: seq<Event>, e: Event)
    requires HistoryInv(init)
    ensures HistoryInv(init + [e])
  {
    hide Run, Lines, Incoming;
    Grow(init, e, 0);
    if e.Publish? {
      IncomingIsOne(e.text);
      if Incoming(e.text) != [] {
        PublishedHistory(init, e, Incoming(e.text)[0]);
      } else {
        assert Lines(init) + [] == Lines(init);
      }
    } else {
      assert Lines(init) + [] == Lines(init);
    }
  }

  lemma IncomingIsOne(text: string)
    ensures Incoming(text) != [] ==>
              && Incoming(text) == [Incoming(text)[0]]
              && Incoming(text)[0].category in {FIREWALL, DHCP, PPPOE, SYSTEM}
  {
  }

  lemma PublishedHistory(init: seq<Event>, e: Event, l: LogLine)
    requires HistoryInv(init) && l.category in {FIREWALL, DHCP, PPPOE, SYSTEM}
    requires Run(init + [e]) == Published(Run(init), l) && Lines(init + [e]) == Lines(init) + [l]
    ensures HistoryInv(init + [e])
  {
    hide Run, Lines, Delivered, Filter, Last;
    var h, h' := Run(init).history, Run(init + [e]).history;
    forall c ensures Recent(h', c) == RecentLines(init + [e], c) {
      FilterAppend(InCategory(c), Lines(init), l);
      LastOfLast(HISTORY_PER_CATEGORY, Filter(InCategory(c), Lines(init)), l);
      assert Recent(h, c) == RecentLines(init, c);
    }
  }

  // ----- the replay is never cut short

  lemma {:induction false} DistinctAtMost(order: seq<string>, keys: set<string>)
    requires forall c <- order :: c in keys
    requires forall i, j | 0 <= i < j < |order| :: order[i] != order[j]
    ensures |order| <= |keys|
  {
    if order != [] {
      var last := order[|order| - 1];
      DistinctAtMost(order[..|order| - 1], keys - {last});
    }
  }

  lemma {:induction false} RecentLinesBound(events: seq<Event>, order: seq<string>)
    ensures |RecentLinesOf(events, order)| <= HISTORY_PER_CATEGORY * |order|
  {
    if order != [] {
      RecentLinesBound(events, order[..|order| - 1]);
    }
  }

  lemma {:induction false} RecentOfIsRecentLines(events: seq<Event>, order: seq<string>)
    requires HistoryInv(events)
    ensures RecentOf(Run(events).history, order) == RecentLinesOf(events, order)
  {
    if order != [] {
      RecentOfIsRecentLines(events, order[..|order| - 1]);
    }
  }

  lemma {:induction false} OfferedAll(lines: seq<LogLine>)
    requires |lines| <= CAPACITY
    ensures OfferAll(Channel([], 0, false), lines) == Channel(lines, 0, false)
  {
    hide OfferAll;
    if lines == [] {
      OfferedNone();
    } else {
      var init, last := lines[..|lines| - 1], lines[|lines| - 1];
      assert lines == init + [last];
      OfferedAll(init);
      OfferOneMore(Channel([], 0, false), init, last);
    }
  }

  lemma OfferedNone()
    ensures OfferAll(Channel([], 0, false), []) == Channel([], 0, false)
  {
  }

  lemma RecentLinesShort(events: seq<Event>, c: string)
    ensures |RecentLines(events, c)| <= HISTORY_PER_CATEGORY
  {
  }

  /** A new channel starts with the whole replay: the blocking sends of one category always find room
      (150 <= 814), and the dropping sends of all four never drop (4 * 150 <= 814). */
  lemma ReplayIsComplete(events: seq<Event>, f: LogFilter, order: seq<string>)
    requires Possible(events) && Enabled(Run(events), Subscribe(f, order))
    ensures OfferAll(Channel([], 0, false), Replayed(Run(events).history, f, order))
         == Channel(Replay(events, f, order), 0, false)
    ensures |Replay(events, f, order)| <= if f.category != "" then HISTORY_PER_CATEGORY else 4 * HISTORY_PER_CATEGORY
  {
    hide Run, Filter, Possible, RecentLines, RecentLinesOf, RecentOf;
    HistoryIsRecent(events);
    RecentOfIsRecentLines(events, order);
    RecentLinesShort(events, f.category);
    if f.category == "" {
      DistinctAtMost(order, {FIREWALL, DHCP, PPPOE, SYSTEM});
      RecentLinesBound(events, order);
    }
    OfferedAll(Replay(events, f, order));
  }

  // ----- every channel carries the stream of its subscriber

  ghost predicate ChannelInv(events: seq<Event>, id: nat) {
    var s := Run(events);
    && s.nextID == Subscriptions(events)
    && (id in s.channels <==> id < Subscriptions(events))
    && (id in s.channels ==>
          s.channels[id] == Channel(Stream(events, id), Taken(events, id), Unsubscribe(id) in events))
    && (id in s.subscribers <==> Live(events, id))
    && (id in s.subscribers ==> s.subscribers[id] == FilterOf(events, id))
    && (Unsubscribe(id) in events ==> id < Subscriptions(events))
    && Taken(events, id) <= |Stream(events, id)|
    && (id >= Subscriptions(events) ==> Taken(events, id) == 0)
  }

  lemma {:induction false} ChannelsCarryStreams(events: seq<Event>, id: nat)
    requires Possible(events)
    ensures ChannelInv(events, id)
    decreases |events|
  {
    hide ChannelInv, Possible, Enabled, Run;
    if events == [] {
      ChannelStart(id);
    } else {
      var init, last := SplitLast(events);
      ChannelsCarryStreams(init, id);
      match last
      case Subscribe(f, order) => SubscribeKeeps(init, f, order, id);
      case Publish(text) => PublishKeeps(init, text, id);
      case Unsubscribe(j) => UnsubscribeKeeps(init, j, id);
      case Receive(j) => ReceiveKeeps(init, j, id);
    }
  }

  lemma ChannelStart(id: nat)
    ensures ChannelInv([], id)
  {
  }

  lemma SubscribeKeeps(init: seq<Event>, f: LogFilter, order: seq<string>, id: nat)
    requires Possible(init) && ChannelInv(init, id) && Enabled(Run(init), Subscribe(f, order))
    ensures ChannelInv(init + [Subscribe(f, order)], id)
  {
    hide Run, Stream, Replay, Replayed, OfferAll, FilterOf, Taken;
    Grow(init, Subscribe(f, order), id);
    ReplayIsComplete(init, f, order);
  }

  lemma UnsubscribeKeeps(init: seq<Event>, j: nat, id: nat)
    requires ChannelInv(init, id) && Enabled(Run(init), Unsubscribe(j))
    ensures ChannelInv(init + [Unsubscribe(j)], id)
  {
    hide Run, Stream, FilterOf;
    Grow(init, Unsubscribe(j), id);
  }

  lemma ReceiveKeeps(init: seq<Event>, j: nat, id: nat)
    requires ChannelInv(init, id) && Enabled(Run(init), Receive(j))
    ensures ChannelInv(init + [Receive(j)], id)
  {
    hide Run, Stream, FilterOf;
    Grow(init, Receive(j), id);
  }

  lemma PublishKeeps(init: seq<Event>, text: string, id: nat)
    requires ChannelInv(init, id)
    ensures ChannelInv(init + [Publish(text)], id)
  {
    hide Run, Stream, FilterOf, Incoming, Filter, Matches, Taken;
    Grow(init, Publish(text), id);
    IncomingIsOne(text);
    if Live(init, id) {
      MatchingIncoming(FilterOf(init, id), text);
      assert Stream(init, id) + [] == Stream(init, id);
    }
  }

  lemma MatchingIncoming(f: LogFilter, text: string)
    ensures Filter(Matching(f), Incoming(text)) ==
            if Incoming(text) != [] && Matches(Incoming(text)[0], f) then [Incoming(text)[0]] else []
  {
    hide Incoming, Matches;
    IncomingIsOne(text);
    if Incoming(text) != [] {
      FilterAppend(Matching(f), [], Incoming(text)[0]);
      assert [] + [Incoming(text)[0]] == Incoming(text);
    }
  }

  /** The stream theorem: in every reachable state the lines sent to a subscriber are exactly its
      stream, it is open exactly while it is subscribed, and no line is ever sent to a closed channel. */
  lemma SentIsStream(events: seq<Event>, id: nat)
    requires Possible(events) && id < Subscriptions(events)
    ensures var s := Run(events);
            && id in s.channels
            && s.channels[id].sent == Stream(events, id)
            && s.channels[id].received == Taken(events, id) <= |Stream(events, id)|
            && (id in s.subscribers <==> !s.channels[id].closed)
  {
    ChannelsCarryStreams(events, id);
  }

  /** What the methods of the broadcaster require holds in every reachable state. */
  lemma MethodsMayRun(events: seq<Event>)
    requires Possible(events)
    ensures var s := Run(events);
            && (forall c <- s.history :: |s.history[c]| <= HISTORY_PER_CATEGORY)
            && (forall id <- s.subscribers :: id in s.channels && !s.channels[id].closed)
  {
    HistoryIsRecent(events);
    var s := Run(events);
    forall c <- s.history ensures |s.history[c]| <= HISTORY_PER_CATEGORY {
      assert Recent(s.history, c) == RecentLines(events, c);
    }
    forall id <- s.subscribers ensures id in s.channels && !s.channels[id].closed {
      ChannelsCarryStreams(events, id);
    }
  }

  // ----- a subscriber that keeps up

  /** The buffer of subscriber `id` is never full when a line is published in the last part of the run. */
  predicate KeepsUp(events: seq<Event>, from: nat, id: nat) {
    forall i | from <= i < |events| && events[i].Publish? ::
      |Stream(events[..i], id)| - Taken(events[..i], id) < CAPACITY
  }

  lemma {:induction false} StreamAfter(a: seq<Event>, f: LogFilter, order: seq<string>, b: seq<Event>)
    requires var events := a + [Subscribe(f, order)] + b;
             Live(events, Subscriptions(a)) && KeepsUp(events, |a| + 1, Subscriptions(a))
    ensures var events, id := a + [Subscribe(f, order)] + b, Subscriptions(a);
            && id < Subscriptions(events) && FilterOf(events, id) == f
            && Stream(events, id) == Replay(a, f, order) + Filter(Matching(f), Lines(b))
  {
    hide Stream, FilterOf, Filter, Lines, Replay, Subscriptions, KeepsUp, Live;
    var id := Subscriptions(a);
    if b == [] {
      StreamStart(a, f, order);
      assert a + [Subscribe(f, order)] + b == a + [Subscribe(f, order)];
    } else {
      var b', last := b[..|b| - 1], b[|b| - 1];
      var init := a + [Subscribe(f, order)] + b';
      assert a + [Subscribe(f, order)] + b == init + [last] && b == b' + [last];
      SubscribedBefore(a, f, order, b');
      KeptUpBefore(init, last, |a| + 1, id);
      LiveBefore(init, last, id);
      StreamAfter(a, f, order, b');
      StreamOneMore(init, b', last, id, f, Replay(a, f, order));
    }
  }

  lemma StreamStart(a: seq<Event>, f: LogFilter, order: seq<string>)
    ensures var events, id := a + [Subscribe(f, order)], Subscriptions(a);
            && id < Subscriptions(events) && FilterOf(events, id) == f
            && Stream(events, id) == Replay(a, f, order) + Filter(Matching(f), Lines([]))
  {
    Grow(a, Subscribe(f, order), Subscriptions(a));
    assert Replay(a, f, order) + [] == Replay(a, f, order);
  }

  lemma LiveBefore(init: seq<Event>, last: Event, id: nat)
    requires Live(init + [last], id) && id < Subscriptions(init)
    ensures Live(init, id)
  {
  }

  /** One more event for a subscriber that is live and keeps up. */
  lemma StreamOneMore(init: seq<Event>, b: seq<Event>, last: Event, id: nat, f: LogFilter, replay: seq<LogLine>)
    requires Live(init, id) && FilterOf(init, id) == f
    requires Stream(init, id) == replay + Filter(Matching(f), Lines(b))
    requires last.Publish? ==> |Stream(init, id)| - Taken(init, id) < CAPACITY
    ensures id < Subscriptions(init + [last]) && FilterOf(init + [last], id) == f
    ensures Stream(init + [last], id) == replay + Filter(Matching(f), Lines(b + [last]))
  {
    hide Stream, FilterOf, Filter, Incoming, Taken, Lines, Subscriptions, Run, Step, Replay;
    Grow(init, last, id);
    Grow(b, last, id);
    if last.Publish? {
      FilterConcat(Matching(f), Lines(b), Incoming(last.text));
    } else {
      assert Lines(b) + [] == Lines(b);
    }
  }

  lemma KeptUpBefore(init: seq<Event>, last: Event, from: nat, id: nat)
    requires KeepsUp(init + [last], from, id) && from <= |init|
    ensures KeepsUp(init, from, id)
    ensures last.Publish? ==> |Stream(init, id)| - Taken(init, id) < CAPACITY
  {
    var events := init + [last];
    forall i | from <= i < |init| && init[i].Publish?
      ensures |Stream(init[..i], id)| - Taken(init[..i], id) < CAPACITY
    {
      assert init[..i] == events[..i] && init[i] == events[i];
    }
    assert events[..|init|] == init && events[|init|] == last;
  }

  lemma {:induction false} SubscribedBefore(a: seq<Event>, f: LogFilter, order: seq<string>, b: seq<Event>)
    ensures Subscriptions(a) < Subscriptions(a + [Subscribe(f, order)] + b)
  {
    var events := a + [Subscribe(f, order)] + b;
    if b == [] {
      assert events == a + [Subscribe(f, order)] && events[..|a|] == a;
    } else {
      assert events[..|events| - 1] == a + [Subscribe(f, order)] + b[..|b| - 1];
      SubscribedBefore(a, f, order, b[..|b| - 1]);
    }
  }

  /** A subscriber to one category that keeps up, and subscribed before the category had more than
      150 lines, has been sent every line of the category exactly once and in order: nothing is lost
      or repeated between replay and live lines. */
  lemma NoGapAtTheBoundary(a: seq<Event>, c: string, order: seq<string>, b: seq<Event>)
    requires c != "" && |Filter(InCategory(c), Lines(a))| <= HISTORY_PER_CATEGORY
    requires var events := a + [Subscribe(LogFilter(c, ""), order)] + b;
             && Possible(events)
             && Live(events, Subscriptions(a)) && KeepsUp(events, |a| + 1, Subscriptions(a))
    ensures var events, id := a + [Subscribe(LogFilter(c, ""), order)] + b, Subscriptions(a);
            && id in Run(events).channels
            && Run(events).channels[id].sent == Filter(InCategory(c), Lines(events))
  {
    var f := LogFilter(c, "");
    var events, id := a + [Subscribe(f, order)] + b, Subscriptions(a);
    StreamAfter(a, f, order, b);
    ChannelsCarryStreams(events, id);
    LinesConcat(a, f, order, b);
    FilterConcat(InCategory(c), Lines(a), Lines(b));
    FilterSame(Matching(f), InCategory(c), Lines(b));
    FilterSame(Matching(f), InCategory(c), Filter(InCategory(c), Lines(a)));
    FilterAll(InCategory(c), Filter(InCategory(c), Lines(a)));
  }

  lemma {:induction false} LinesConcat(a: seq<Event>, f: LogFilter, order: seq<string>, b: seq<Event>)
    ensures Lines(a + [Subscribe(f, order)] + b) == Lines(a) + Lines(b)
  {
    var events := a + [Subscribe(f, order)] + b;
    if b == [] {
      assert events == a + [Subscribe(f, order)] && events[..|a|] == a;
    } else {
      assert events[..|events| - 1] == a + [Subscribe(f, order)] + b[..|b| - 1];
      LinesConcat(a, f, order, b[..|b| - 1]);
    }
  }

  /** Such a subscriber: one line before it and one after it, and it gets both. */
  lemma SubscriberGetsBoth(before: string, after: string)
    requires Incoming(before) != [] && Incoming(after) != []
    requires Incoming(before)[0].category == Incoming(after)[0].category
    ensures var c := Incoming(before)[0].category;
            var events := [Publish(before)] + [Subscribe(LogFilter(c, ""), [c])] + [Publish(after)];
            && Possible(events) && 0 in Run(events).channels
            && Run(events).channels[0].sent == Incoming(before) + Incoming(after)
  {
    hide Incoming, Filter, Stream, Replay, Lines, FilterOf;
    var c := Incoming(before)[0].category;
    var f := LogFilter(c, "");
    var a, b, s := [Publish(before)], [Publish(after)], Subscribe(LogFilter(c, ""), [c]);
    IncomingIsOne(before);
    IncomingIsOne(after);
    OnePublished(before, c);
    ReplayIsComplete(a, f, [c]);
    Grow(a, s, 0);
    Grow(a + [s], Publish(after), 0);
    PossibleThree(a, s, Publish(after));
    FilterAll(InCategory(c), Incoming(before) + Incoming(after));
    FilterAll(InCategory(c), Incoming(before));
    NoGapAtTheBoundary(a, c, [c], b);
    assert Incoming(before) + [] == Incoming(before);
    assert Lines(a + [s] + b) == Incoming(before) + Incoming(after);
  }

  lemma OnePublished(text: string, c: string)
    requires Incoming(text) != [] && Incoming(text)[0].category == c
    ensures Run([Publish(text)]).history.Keys == {c} && Lines([Publish(text)]) == Incoming(text)
    ensures Subscriptions([Publish(text)]) == 0 && Possible([Publish(text)])
  {
    hide Incoming;
    Grow([], Publish(text), 0);
    assert [] + [Publish(text)] == [Publish(text)];
  }

  lemma PossibleThree(a: seq<Event>, s: Event, e: Event)
    requires Possible(a) && Enabled(Run(a), s) && e.Publish?
    ensures Possible(a + [s] + [e])
  {
    hide Run, Enabled;
    var events := a + [s] + [e];
    forall i | 0 <= i < |events| ensures Enabled(Run(events[..i]), events[i]) {
      if i < |a| {
        assert events[..i] == a[..i] && events[i] == a[i];
      } else if i == |a| {
        assert events[..i] == a;
      } else {
        PublishEnabled(Run(events[..i]), e);
      }
    }
  }

  lemma PublishEnabled(s: State, e: Event)
    requires e.Publish?
    ensures Enabled(s, e)
  {
  }
}
