/** What the lines of the log are read as, and which of them a subscriber with a search text gets, told
    letter by letter. */
module LogSearch {
  import opened Seqs
  import opened Text
  import opened LogBroadcaster
  import opened LogDelivery

  // ----- what a line is read as

  /** The category goes by the words that occur in the line, in this order of precedence. */
  lemma CategoryExact(raw: string)
    ensures CategoryOf(raw) ==
            if Occurs(raw, "iptables") || Occurs(raw, "fw-input") || Occurs(raw, "mc-connect") then "firewall"
            else if Occurs(raw, "dnsmasq") then "dhcp"
            else if Occurs(raw, "pppd") || Occurs(raw, "pppoe") then "pppoe"
            else "system"
  {
    hide Index, Occurs, ToLower;
    WordFound(raw, "iptables");
    WordFound(raw, "fw-input");
    WordFound(raw, "mc-connect");
    WordFound(raw, "dnsmasq");
    WordFound(raw, "pppd");
    WordFound(raw, "pppoe");
  }

  lemma WordFound(raw: string, word: string)
    requires forall c <- word :: !('A' <= c <= 'Z')
    ensures Contains(ToLower(raw), word) <==> Occurs(raw, word)
  {
    hide Contains, Occurs;
    ContainsExact(raw, word);
    var low := ToLower(word);
    forall k | 0 <= k < |word| ensures low[k] == word[k] {
      assert word[k] in word;
    }
    assert low == word;
  }

  function SyslogLine(month: string, day: string, clock: string, host: string, message: string): string {
    month + " " + (day + " " + (clock + " " + (host + " " + message)))
  }

  lemma SplitNCons(a: string, rest: string, n: nat)
    requires ' ' !in a && n > 1
    ensures SplitN(a + " " + rest, ' ', n) == [a] + SplitN(rest, ' ', n - 1)
  {
    var s := a + " " + rest;
    CutAtFirst(a, ' ', rest);
    assert s[..|a|] == a && s[|a| + 1..] == rest;
  }

  /** A line as syslog writes it: its time and its message are found if and only if the day is not padded
      with a blank. With a padded day the clock is missing and the host begins the message. */
  lemma SyslogExact(month: string, day: string, padded: bool, clock: string, host: string, message: string)
    requires ' ' !in month && ' ' !in day && ' ' !in clock && ' ' !in host && clock != ""
    ensures var d := if padded then " " + day else day;
            var l := ParseLogLine(SyslogLine(month, d, clock, host, message));
            && l.raw == SyslogLine(month, d, clock, host, message)
            && l.time == (if padded then month + "  " + day else month + " " + day + " " + clock)
            && l.message == (if padded then host + " " + message else message)
            && (l.time == month + " " + d + " " + clock && l.message == message <==> !padded)
  {
    hide ParseLogLine;
    var d := if padded then " " + day else day;
    var raw, rest := SyslogLine(month, d, clock, host, message), host + " " + message;
    if padded {
      assert raw == month + " " + ("" + " " + (day + " " + (clock + " " + rest)));
      FiveParts(month, "", day, clock, rest);
      assert month + " " + "" + " " + day == month + "  " + day;
      assert |month + "  " + day| < |month + " " + d + " " + clock|;
    } else {
      FiveParts(month, day, clock, host, message);
    }
  }

  lemma FiveParts(a: string, b: string, c: string, d: string, e: string)
    requires ' ' !in a && ' ' !in b && ' ' !in c && ' ' !in d
    ensures var raw := a + " " + (b + " " + (c + " " + (d + " " + e)));
            ParseLogLine(raw) == LogLine(raw, CategoryOf(raw), a + " " + b + " " + c, e)
  {
    hide SplitN, CategoryOf;
    SplitNCons(a, b + " " + (c + " " + (d + " " + e)), 5);
    SplitNCons(b, c + " " + (d + " " + e), 4);
    SplitNCons(c, d + " " + e, 3);
    SplitNCons(d, e, 2);
    SplitNLast(e);
    assert [a] + ([b] + ([c] + ([d] + [e]))) == [a, b, c, d, e];
    JoinThree(a, b, c);
    assert [a, b, c, d, e][..3] == [a, b, c];
  }

  lemma SplitNLast(s: string)
    ensures SplitN(s, ' ', 1) == [s]
  {
  }

  lemma JoinThree(a: string, b: string, c: string)
    ensures JoinBy([a, b, c], ' ') == a + " " + b + " " + c
  {
    assert [a, b, c][1..] == [b, c] && [b, c][1..] == [c];
    assert JoinBy([b, c], ' ') == b + [' '] + JoinBy([c], ' ');
    assert a + [' '] + (b + [' '] + c) == a + " " + b + " " + c;
  }

  predicate EndsLine(c: char) {
    c == '\n' || c == '\r'
  }

  predicate EndOfLine(eol: string) {
    forall c <- eol :: EndsLine(c)
  }

  /** What one read from the log file publishes: the text without its line end, unless nothing is left. */
  lemma IncomingExact(line: string, eol: string)
    requires EndOfLine(eol) && (line != "" ==> !EndsLine(line[|line| - 1]))
    ensures Incoming(line + eol) == if line == "" then [] else [ParseLogLine(line)]
    ensures ParseLogLine(line).raw == line && ParseLogLine(line).category == CategoryOf(line)
  {
    hide SplitN, CategoryOf;
    TrimmedEOL(line, eol);
  }

  lemma {:induction false} TrimmedEOL(line: string, eol: string)
    requires EndOfLine(eol) && (line != "" ==> !EndsLine(line[|line| - 1]))
    ensures TrimEOL(line + eol) == line
    decreases |eol|
  {
    if eol == "" {
      assert line + eol == line;
    } else {
      var last := eol[|eol| - 1];
      assert (line + eol)[..|line + eol| - 1] == line + eol[..|eol| - 1];
      assert last in eol && (line + eol)[|line + eol| - 1] == last;
      TrimmedEOL(line, eol[..|eol| - 1]);
    }
  }

  // ----- which lines a subscriber gets

  /** The lines of the category, if one is chosen, in which the search text occurs. */
  function Wanted(f: LogFilter): LogLine -> bool {
    (l: LogLine) => (f.category == "" || l.category == f.category) && Occurs(l.raw, f.search)
  }

  lemma MatchesExact(l: LogLine, f: LogFilter)
    ensures Matching(f)(l) == Wanted(f)(l)
  {
    hide Index, ToLower;
    ContainsExact(l.raw, f.search);
    assert StandsAt(l.raw, "", 0);
  }

  lemma FilterWanted(f: LogFilter, lines: seq<LogLine>)
    ensures Filter(Matching(f), lines) == Filter(Wanted(f), lines)
  {
    hide Matches, Wanted, Filter;
    forall l: LogLine ensures Matching(f)(l) == Wanted(f)(l) {
      MatchesExact(l, f);
    }
    FilterSame(Matching(f), Wanted(f), lines);
  }

  /** A live subscriber with any filter that keeps up has been sent exactly the recent lines at its
      subscription and the later lines that its category and its search text ask for. */
  lemma SearchedExactly(a: seq<Event>, f: LogFilter, order: seq<string>, b: seq<Event>)
    requires var events := a + [Subscribe(f, order)] + b;
             Possible(events) && Live(events, Subscriptions(a)) && KeepsUp(events, |a| + 1, Subscriptions(a))
    ensures var events, id := a + [Subscribe(f, order)] + b, Subscriptions(a);
            var recent := if f.category != "" then Last(150, Filter(InCategory(f.category), Lines(a)))
                          else RecentLinesOf(a, order);
            && id in Run(events).channels
            && Run(events).channels[id].sent == Filter(Wanted(f), recent) + Filter(Wanted(f), Lines(b))
  {
    hide Run, Stream, Filter, Wanted, Lines, Possible, KeepsUp, RecentLinesOf, FilterOf;
    var events, id := a + [Subscribe(f, order)] + b, Subscriptions(a);
    StreamAfter(a, f, order, b);
    SentIsStream(events, id);
    FilterWanted(f, Lines(b));
    FilterWanted(f, if f.category != "" then RecentLines(a, f.category) else RecentLinesOf(a, order));
  }

  /** In every reachable state: a published line that a subscriber wants is sent to it if and only if fewer
      than 814 lines wait in its channel. */
  lemma DroppedWhenFull(events: seq<Event>, text: string, id: nat)
    requires Possible(events) && Live(events, id)
    ensures var s, t := Run(events), Run(events + [Publish(text)]);
            && id in s.channels && id in t.channels && id in s.subscribers
            && t.channels[id].sent ==
               s.channels[id].sent
               + (if |s.channels[id].sent| - s.channels[id].received < 814
                  then Filter(Wanted(s.subscribers[id]), Incoming(text)) else [])
  {
    hide Run, Stream, Filter, Wanted, Incoming, Possible, FilterOf;
    ChannelsCarryStreams(events, id);
    PublishKeeps(events, text, id);
    Grow(events, Publish(text), id);
    FilterWanted(FilterOf(events, id), Incoming(text));
    assert Stream(events, id) + [] == Stream(events, id);
  }

  /** For instance a subscriber to "eth0" in any category gets exactly the lines in which it occurs. */
  lemma SearcherGets(text: string)
    requires Incoming(text) != []
    ensures var events := [] + [Subscribe(LogFilter("", "eth0"), [])] + [Publish(text)];
            && Possible(events) && 0 in Run(events).channels
            && Run(events).channels[0].sent == if Occurs(Incoming(text)[0].raw, "eth0") then Incoming(text) else []
  {
    hide Incoming, Filter, Stream, Lines, FilterOf, Occurs, Run, Possible, Enabled, Live, KeepsUp, Taken, RecentLinesOf,
      Subscriptions;
    var f, s := LogFilter("", "eth0"), Subscribe(LogFilter("", "eth0"), []);
    SearcherLive(f, text);
    SearchedExactly([], f, [], [Publish(text)]);
    OneLine(text);
    NothingWanted(f);
    IncomingIsOne(text);
    FilterAppend(Wanted(f), [], Incoming(text)[0]);
    assert [] + [Incoming(text)[0]] == Incoming(text);
  }

  lemma SearcherLive(f: LogFilter, text: string)
    ensures var events := [] + [Subscribe(f, [])] + [Publish(text)];
            Possible(events) && Subscriptions([]) == 0 && Live(events, 0) && KeepsUp(events, 1, 0)
  {
    hide Incoming, Filter, Run, Stream;
    var s := Subscribe(f, []);
    FirstEnabled(f);
    PossibleThree([], s, Publish(text));
    Grow([], s, 0);
    Grow([] + [s], Publish(text), 0);
    FirstStream(f);
    assert ([] + [s] + [Publish(text)])[..1] == [] + [s];
  }

  lemma FirstEnabled(f: LogFilter)
    ensures Possible([]) && Enabled(Run([]), Subscribe(f, []))
  {
  }

  lemma FirstStream(f: LogFilter)
    ensures |Stream([] + [Subscribe(f, [])], 0)| == 0
  {
    Grow([], Subscribe(f, []), 0);
  }

  lemma OneLine(text: string)
    ensures Lines([Publish(text)]) == Incoming(text)
  {
    hide Incoming;
    Grow([], Publish(text), 0);
    assert [] + [Publish(text)] == [Publish(text)] && [] + Incoming(text) == Incoming(text);
  }

  lemma NothingWanted(f: LogFilter)
    ensures Filter(Wanted(f), []) == [] && RecentLinesOf([], []) == []
  {
  }
}
