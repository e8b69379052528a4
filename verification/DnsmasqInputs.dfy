/** Which inputs the configuration file can carry: the handlers check some of them only, and the file
    gives back what was saved exactly for these. And what happens when two requests overlap. */
module DnsmasqInputs {
  import opened Seqs
  import opened Text
  import opened DnsmasqConf
  import opened DnsmasqViews

  // ----- upstream servers

  lemma ServerIsValue(line: string)
    requires OneLine(line)
    ensures forall a <- ServerOf(line) :: Value(a)
  {
    hide Trim;
    TrimIsTrimmed(line);
    TrimWithin(line);
  }

  lemma ServersAreValues(content: string)
    ensures forall a <- Servers(content) :: Value(a)
  {
    hide ScanLines, ServerOf, Value;
    ScanOneLiners(content);
    FlatMapFrom(ServerOf, ScanLines(content));
    forall a <- Servers(content) ensures Value(a) {
      var l :| l in ScanLines(content) && a in ServerOf(l);
      ServerIsValue(l);
    }
  }

  /** The servers that were set are read back exactly when each of them is one line without trailing
      white space. */
  lemma SetServersExact(content: string, servers: seq<string>)
    ensures Servers(WithServers(content, servers)) == servers <==> forall a <- servers :: Value(a)
  {
    hide Servers, WithServers, Value, ViewOf, LocalEntries, DhcpConfig, StrictOrder;
    ServersAreValues(WithServers(content, servers));
    if forall a <- servers :: Value(a) {
      EditRefines(content, SetServers(servers));
      ServersOfView(content, servers);
    }
  }

  lemma ServersOfView(content: string, servers: seq<string>)
    ensures Do(content, SetServers(servers)) == WithServers(content, servers)
    ensures ViewOf(WithServers(content, servers)).servers == Servers(WithServers(content, servers))
    ensures Update(ViewOf(content), SetServers(servers)).servers == servers
  {
  }

  // ----- the DHCP range

  predicate Fields(cfg: DHCPConfig) {
    Field(cfg.rangeStart) && Field(cfg.rangeEnd) && Field(cfg.leaseTime)
  }

  predicate AllFields(parts: seq<string>) {
    forall p <- parts :: Field(p)
  }

  lemma RangeIsFields(line: string)
    requires OneLine(line)
    ensures forall parts <- RangeOf(line) :: AllFields(parts)
  {
    hide Trim, Split;
    var t := Trim(line);
    if RANGE <= t {
      TrimWithin(line);
      SplitParts(t[|RANGE|..], ',');
      SplitWithin(t[|RANGE|..], ',');
    }
  }

  lemma {:induction false} SplitWithin(s: string, sep: char)
    ensures forall p <- Split(s, sep) :: forall c <- p :: c in s
    decreases |s|
  {
    var i := CutAt(s, sep);
    if i < |s| {
      SplitWithin(s[i + 1..], sep);
    }
  }

  lemma {:induction false} FoldIsFields(ranges: seq<seq<string>>)
    requires forall parts <- ranges :: AllFields(parts)
    ensures Fields(FoldRanges(ranges))
  {
    hide Field;
    NothingIsField();
    if ranges != [] {
      assert forall parts <- ranges[..|ranges| - 1] :: parts in ranges;
      FoldIsFields(ranges[..|ranges| - 1]);
      assert ranges[|ranges| - 1] in ranges;
    }
  }

  lemma NothingIsField()
    ensures Field("")
  {
  }

  lemma ConfigIsFields(content: string)
    ensures Fields(DhcpConfig(content))
  {
    hide ScanLines, RangeOf, Fields, FoldRanges, AllFields;
    ScanOneLiners(content);
    FlatMapFrom(RangeOf, ScanLines(content));
    forall parts <- FlatMap(RangeOf, ScanLines(content)) ensures AllFields(parts) {
      var l :| l in ScanLines(content) && parts in RangeOf(l);
      RangeIsFields(l);
    }
    FoldIsFields(FlatMap(RangeOf, ScanLines(content)));
  }

  /** A written range line reads back, but for white space behind the lease time. */
  lemma RangeLineReads(cfg: DHCPConfig)
    requires Field(cfg.rangeStart) && Field(cfg.rangeEnd) && Field(LeaseOrDefault(cfg))
    ensures OneLine(RangeLine(cfg))
    ensures RangeOf(RangeLine(cfg)) == [[cfg.rangeStart, cfg.rangeEnd, TrimRight(LeaseOrDefault(cfg))]]
  {
    hide TrimRight, LeaseOrDefault, Split;
    var lease := LeaseOrDefault(cfg);
    var prefix := RANGE + cfg.rangeStart + "," + cfg.rangeEnd + ",";
    TrimRightKeeps(prefix, lease);
    TrimRightWithin(lease);
    var t := prefix + TrimRight(lease);
    assert t[0] == 'd';
    assert RangeLine(cfg) == prefix + lease && Trim(RangeLine(cfg)) == t;
    assert t[|RANGE|..] == cfg.rangeStart + "," + cfg.rangeEnd + "," + TrimRight(lease);
    SplitThree(cfg.rangeStart, cfg.rangeEnd, TrimRight(lease));
  }

  lemma RangeOfDropCR(line: string)
    ensures RangeOf(DropCR(line)) == RangeOf(line)
  {
    hide Split;
    TrimStripCR(line);
    TrimStripCR(DropCR(line));
  }

  lemma SavedRange(content: string, cfg: DHCPConfig)
    requires Field(cfg.rangeStart) && Field(cfg.rangeEnd) && Field(LeaseOrDefault(cfg))
    ensures DhcpConfig(WithRange(content, cfg))
         == DHCPConfig(cfg.rangeStart, cfg.rangeEnd, TrimRight(LeaseOrDefault(cfg)))
  {
    hide ScanLines, RangeOf, RangeLine, TrimRight, LeaseOrDefault, Field, Join;
    var kept := Filter(Unclaimed(RangeLines), ScanLines(content));
    ScanOneLiners(content);
    RangeLineReads(cfg);
    ScanRender(kept + [RangeLine(cfg)]);
    forall l: string ensures RangeOf(DropCR(l)) == RangeOf(l) {
      RangeOfDropCR(l);
    }
    FlatMapMap(RangeOf, DropCR, kept + [RangeLine(cfg)]);
    FlatMapAppend(RangeOf, kept, RangeLine(cfg));
    OwnClaims(ScanLines(content));
  }

  /** The DHCP page does not check its input. What it saves is read back, with an empty lease time as
      24h, exactly when no field holds a comma or a newline and no white space follows the lease time. */
  lemma SaveRangeExact(content: string, cfg: DHCPConfig)
    ensures DhcpConfig(WithRange(content, cfg)) == cfg.(leaseTime := LeaseOrDefault(cfg))
       <==> Fields(cfg) && NoTrailingSpace(cfg.leaseTime)
  {
    hide DhcpConfig, WithRange, Field, TrimRight, NoTrailingSpace;
    ConfigIsFields(WithRange(content, cfg));
    LeaseSays(cfg);
    if Field(cfg.rangeStart) && Field(cfg.rangeEnd) && Field(LeaseOrDefault(cfg)) {
      SavedRange(content, cfg);
    }
  }

  lemma LeaseSays(cfg: DHCPConfig)
    ensures Field(LeaseOrDefault(cfg)) <==> Field(cfg.leaseTime)
    ensures TrimRight(LeaseOrDefault(cfg)) == LeaseOrDefault(cfg) <==> NoTrailingSpace(cfg.leaseTime)
  {
    TrimRightNoTrailing(LeaseOrDefault(cfg));
    assert "24h"[2] == 'h';
  }

  // ----- local entries

  lemma EntryIsValid(line: string)
    requires OneLine(line)
    ensures forall e <- EntryOf(line) :: ValidEdit(AddEntry(e))
  {
    hide CutFirst, Trim;
    var t := Trim(line);
    if ADDRESS <= t {
      var body := t[|ADDRESS|..];
      TrimIsTrimmed(line);
      TrimWithin(line);
      CutFirstInverse(body, '/');
      if EntryOf(line) != [] {
        var e := EntryOf(line)[0];
        assert body == e.hostname + ['/'] + e.ip;
        assert forall c <- e.hostname :: c in body;
        assert forall c <- e.ip :: c in body;
        assert e.ip != "" ==> e.ip[|e.ip| - 1] == t[|t| - 1];
      }
    }
  }

  lemma EntriesAreValid(content: string)
    ensures forall e <- LocalEntries(content) :: ValidEdit(AddEntry(e))
  {
    hide ScanLines, EntryOf, ValidEdit;
    ScanOneLiners(content);
    FlatMapFrom(EntryOf, ScanLines(content));
    forall e <- LocalEntries(content) ensures ValidEdit(AddEntry(e)) {
      var l :| l in ScanLines(content) && e in EntryOf(l);
      EntryIsValid(l);
    }
  }

  /** `AddLocalEntry` appends blindly and the handler checks nothing but emptiness: the entry is added,
      and the entries before it are kept, exactly when the host holds no slash, neither text a newline, no
      white space follows the address, and nothing else follows the last newline of the file. */
  lemma AddEntryExact(content: string, e: LocalEntry)
    ensures LocalEntries(WithEntry(content, e)) == LocalEntries(content) + [e]
       <==> ValidEdit(AddEntry(e)) && Blank(LastFragment(content))
  {
    hide LocalEntries, WithEntry, ValidEdit, LastFragment, Blank;
    EntriesAreValid(WithEntry(content, e));
    assert LocalEntries(WithEntry(content, e)) == LocalEntries(content) + [e]
       ==> e in LocalEntries(WithEntry(content, e));
    if ValidEdit(AddEntry(e)) {
      AddEntryBehind(content, e);
    }
  }

  // ----- all editors

  /** An edit of a newline-terminated file is the update of one view exactly for the inputs that a line of
      the file can carry; only the appending edit needs the newline. */
  lemma EditExact(content: string, e: Edit)
    requires e.AddEntry? ==> Terminated(content)
    ensures ViewOf(Do(content, e)) == Update(ViewOf(content), e) <==> ValidEdit(e)
  {
    hide Servers, LocalEntries, DhcpConfig, StrictOrder, IsRest, Rows, Terminated, LeaseOrDefault,
      WithServers, WithEntry, WithoutEntry, WithRange, WithStrict, Value, Field;
    if ValidEdit(e) {
      EditRefines(content, e);
    } else {
      match e
      case SetServers(servers) => SetServersExact(content, servers);
      case AddEntry(entry) => AddEntryExact(content, entry);
      case SaveRange(cfg) => SaveRangeExact(content, cfg);
      case DeleteEntry(_) =>
      case SetStrict(_) =>
    }
  }

  // ----- the lines as dnsmasq reads them

  lemma LineFormats(addr: string, e: LocalEntry, cfg: DHCPConfig)
    ensures Value(addr) ==> ServerLine(addr) == "server=" + addr && ServerOf("server=" + addr) == [addr]
    ensures ValidEdit(AddEntry(e)) ==>
              && EntryLine(e) == "address=/" + e.hostname + "/" + e.ip
              && EntryOf("address=/" + e.hostname + "/" + e.ip) == [e]
    ensures ValidEdit(SaveRange(cfg)) ==>
              var lease := if cfg.leaseTime == "" then "24h" else cfg.leaseTime;
              && RangeLine(cfg) == "dhcp-range=" + cfg.rangeStart + "," + cfg.rangeEnd + "," + lease
              && RangeOf("dhcp-range=" + cfg.rangeStart + "," + cfg.rangeEnd + "," + lease)
                 == [[cfg.rangeStart, cfg.rangeEnd, lease]]
    ensures StrictOf("strict-order") == [()]
  {
    hide ServerOf, EntryOf, RangeOf, Trim, Value, Field;
    if Value(addr) {
      ServerLineSays(addr);
    }
    if ValidEdit(AddEntry(e)) {
      EntryLineSays(e);
    }
    if ValidEdit(SaveRange(cfg)) {
      RangeLineSays(cfg);
    }
    TrimmedStays("strict-order");
  }

  // ----- several range lines

  /** The last list of a sequence with at least `n` parts, or -1. */
  predicate LastWith(ranges: seq<seq<string>>, n: nat, i: int) {
    && -1 <= i < |ranges| && (i >= 0 ==> |ranges[i]| >= n)
    && forall j | i < j < |ranges| :: |ranges[j]| < n
  }

  lemma {:induction false} FoldedRanges(ranges: seq<seq<string>>, i: int, k: int)
    requires LastWith(ranges, 2, i) && LastWith(ranges, 3, k)
    ensures FoldRanges(ranges) ==
            DHCPConfig(if i < 0 then "" else ranges[i][0], if i < 0 then "" else ranges[i][1],
                       if k < 0 then "" else ranges[k][2])
  {
    if ranges != [] {
      var init, last := ranges[..|ranges| - 1], |ranges| - 1;
      FoldedRanges(init, if i == last then LastBefore(init, 2) else i, if k == last then LastBefore(init, 3) else k);
    }
  }

  function LastBefore(ranges: seq<seq<string>>, n: nat): (i: int)
    ensures LastWith(ranges, n, i)
  {
    if ranges == [] then -1
    else if |ranges[|ranges| - 1]| >= n then |ranges| - 1
    else LastBefore(ranges[..|ranges| - 1], n)
  }

  /** Whatever range lines the file has: start and end come from the last one with two fields or more, the
      lease time from the last one with three or more, and what no line gives is empty. */
  lemma RangesExact(content: string, i: int, k: int)
    requires var ranges := FlatMap(RangeOf, ScanLines(content)); LastWith(ranges, 2, i) && LastWith(ranges, 3, k)
    ensures var ranges, cfg := FlatMap(RangeOf, ScanLines(content)), DhcpConfig(content);
            && (if i >= 0 then cfg.rangeStart == ranges[i][0] && cfg.rangeEnd == ranges[i][1]
                else cfg.rangeStart == cfg.rangeEnd == "")
            && cfg.leaseTime == if k >= 0 then ranges[k][2] else ""
  {
    FoldedRanges(FlatMap(RangeOf, ScanLines(content)), i, k);
  }

  /** For instance a line of two fields behind one of three: it moves the range and keeps the lease time. */
  lemma ShortLineMovesRange(a: DHCPConfig, start: string, end: string)
    requires ValidEdit(SaveRange(a)) && Field(start) && Field(end) && NoTrailingSpace(end)
    ensures DhcpConfig(RangeLine(a) + "\n" + ("dhcp-range=" + start + "," + end + "\n"))
         == DHCPConfig(start, end, LeaseOrDefault(a))
  {
    hide ScanLines, RangeOf, RangeLine, ValidEdit, LeaseOrDefault, Row, Field, FlatMap, FoldRanges;
    var l := RANGE + start + "," + end;
    RangeLineSays(a);
    ShortLineSays(start, end);
    RowScans(RangeLine(a), l + "\n");
    RowScans(l, "");
    ScanNothing();
    NoRanges();
    assert l + "\n" + "" == l + "\n";
    FlatMapAppend(RangeOf, [], RangeLine(a));
    FlatMapAppend(RangeOf, [RangeLine(a)], l);
    assert [RangeLine(a)] + ([l] + []) == [RangeLine(a)] + [l] && [] + [RangeLine(a)] == [RangeLine(a)];
    var first, second := [a.rangeStart, a.rangeEnd, LeaseOrDefault(a)], [start, end];
    assert [] + [first] == [first] && [first] + [second] == [first, second];
    FoldedRanges([first, second], 1, 0);
  }

  lemma NoRanges()
    ensures FlatMap(RangeOf, []) == []
  {
  }

  lemma RowScans(line: string, rest: string)
    requires Row(line)
    ensures ScanLines(line + "\n" + rest) == [line] + ScanLines(rest)
  {
    hide ScanLines;
    ScanCons(line, rest);
  }

  lemma ShortLineSays(start: string, end: string)
    requires Field(start) && Field(end) && NoTrailingSpace(end)
    ensures var l := RANGE + start + "," + end; Row(l) && RangeOf(l) == [[start, end]]
  {
    hide Trim, Split;
    var prefix, l := RANGE + start + ",", RANGE + start + "," + end;
    assert OneLine(prefix) && prefix[0] == 'd' && prefix[|prefix| - 1] == ',';
    WrittenLine(prefix, end);
    assert l == prefix + end && l[|RANGE|..] == start + [','] + end;
    assert RANGE <= l;
    SplitCons(start, ',', end);
    SplitOne(end, ',');
    assert [start] + [end] == [start, end];
  }

  // ----- two requests at a time

  /** Which view an edit is for. */
  function ViewNumber(e: Edit): nat {
    match e
    case SetServers(_) => 0
    case AddEntry(_) => 1
    case DeleteEntry(_) => 1
    case SaveRange(_) => 2
    case SetStrict(_) => 3
  }

  /** When the second of two edits of one view leaves nothing for the first one to add: always when it
      replaces the view, and a deletion exactly when it takes all that the other one added or deleted. */
  predicate Overrides(v: View, slow: Edit, fast: Edit) {
    match slow
    case DeleteEntry(hostname) =>
      (match fast
       case AddEntry(e) => !NotUnder(hostname)(e)
       case DeleteEntry(other) => forall e <- v.entries :: !NotUnder(other)(e) ==> !NotUnder(hostname)(e)
       case _ => true)
    case _ => true
  }

  /** A rewriting request that has read the file before another request finished writes a stale file. What
      it leaves is what the two requests leave one after the other, exactly when the other one had nothing
      to change in another view, or this one overrides it in the same view. */
  lemma StaleWrite(content: string, slow: Edit, fast: Edit)
    requires ValidEdit(slow) && ValidEdit(fast) && !slow.AddEntry?
    requires fast.AddEntry? ==> Terminated(content)
    ensures ViewOf(Do(content, slow)) == Update(ViewOf(Do(content, fast)), slow)
       <==> if ViewNumber(slow) != ViewNumber(fast) then ViewOf(Do(content, fast)) == ViewOf(content)
            else Overrides(ViewOf(content), slow, fast)
  {
    hide ViewOf, Do, ValidEdit, Filter, NotUnder;
    EditRefines(content, slow);
    EditRefines(content, fast);
    var v := ViewOf(content);
    if slow.DeleteEntry? && fast.AddEntry? {
      FilterAppend(NotUnder(slow.hostname), v.entries, fast.entry);
    } else if slow.DeleteEntry? && fast.DeleteEntry? {
      TwoFilters(NotUnder(slow.hostname), NotUnder(fast.hostname), v.entries);
    }
  }

  /** A first filter makes no difference to a second one exactly when the second drops all it dropped. */
  lemma {:induction false} TwoFilters<T>(p: T -> bool, q: T -> bool, s: seq<T>)
    ensures Filter(p, Filter(q, s)) == Filter(p, s) <==> forall x <- s :: !q(x) ==> !p(x)
    ensures |Filter(p, Filter(q, s))| <= |Filter(p, s)|
    ensures (exists x <- s :: !q(x) && p(x)) ==> |Filter(p, Filter(q, s))| < |Filter(p, s)|
  {
    hide Filter;
    if s == [] {
      FilterNone(q, s);
      FilterNone(p, s);
    } else {
      var init, last := s[..|s| - 1], s[|s| - 1];
      assert s == init + [last];
      TwoFilters(p, q, init);
      FilterAppend(q, init, last);
      FilterAppend(p, init, last);
      FilterAppend(p, Filter(q, init), last);
    }
  }

  /** For instance an added entry is lost when the deletion of another host had read the file before. */
  lemma StaleDeletionLosesEntry(content: string, hostname: string, e: LocalEntry)
    requires Terminated(content) && ValidEdit(AddEntry(e)) && NotUnder(hostname)(e)
    ensures ViewOf(Do(content, DeleteEntry(hostname)))
         != Update(ViewOf(Do(content, AddEntry(e))), DeleteEntry(hostname))
  {
    hide ViewOf, Do, NotUnder;
    StaleWrite(content, DeleteEntry(hostname), AddEntry(e));
  }
}
