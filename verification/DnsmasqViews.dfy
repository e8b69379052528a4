/** What the editors of `dnsmasq.conf` guarantee: each one is a single field update on the record
    of views, for every file content, and no other row moves. */
module DnsmasqViews {
  import opened Seqs
  import opened Text
  import opened DnsmasqConf

  // ----- views depend on the rows only

  lemma StripInvariant(line: string)
    ensures ServerOf(StripCR(line)) == ServerOf(line)
    ensures EntryOf(StripCR(line)) == EntryOf(line)
    ensures RangeOf(StripCR(line)) == RangeOf(line)
    ensures StrictOf(StripCR(line)) == StrictOf(line)
    ensures forall c :: Claims(c, StripCR(line)) == Claims(c, line)
  {
    TrimStripCR(line);
  }

  lemma ViewsOfRows(content: string)
    ensures Servers(content) == FlatMap(ServerOf, Rows(content))
    ensures LocalEntries(content) == FlatMap(EntryOf, Rows(content))
    ensures DhcpConfig(content) == FoldRanges(FlatMap(RangeOf, Rows(content)))
    ensures StrictOrder(content) == (FlatMap(StrictOf, Rows(content)) != [])
  {
    forall line: string ensures
      && ServerOf(StripCR(line)) == ServerOf(line) && EntryOf(StripCR(line)) == EntryOf(line)
      && RangeOf(StripCR(line)) == RangeOf(line) && StrictOf(StripCR(line)) == StrictOf(line)
    {
      StripInvariant(line);
    }
    ViewOfRows(ServerOf, ScanLines(content));
    ViewOfRows(EntryOf, ScanLines(content));
    ViewOfRows(RangeOf, ScanLines(content));
    ViewOfRows(StrictOf, ScanLines(content));
  }

  /** Lines the editors may add: they come back from the file as they were written. */
  predicate Row(line: string) {
    OneLine(line) && NonBlank(line) && NoTrailingSpace(line)
  }

  predicate AllRows(lines: seq<string>) {
    forall l <- lines :: Row(l)
  }

  lemma {:induction false} RowsOfRows(lines: seq<string>)
    requires AllRows(lines)
    ensures RowsOf(lines) == lines
  {
    forall i | 0 <= i < |lines| ensures StripCR(lines[i]) == lines[i] {
      assert Row(lines[i]);
    }
    assert Map(StripCR, lines) == lines;
    FilterAll(NonBlank, lines);
  }

  lemma RowsUnclaimed(c: Claim, lines: seq<string>)
    ensures RowsOf(Filter(Unclaimed(c), lines)) == Filter(Unclaimed(c), RowsOf(lines))
  {
    forall l: string ensures Unclaimed(c)(StripCR(l)) == Unclaimed(c)(l) {
      StripInvariant(l);
    }
    RowsOfFilter(Unclaimed(c), lines);
  }

  /** A rewriting editor removes the rows it claims and appends its own; nothing else. */
  lemma RewrittenRows(content: string, c: Claim, added: seq<string>)
    requires AllRows(added)
    ensures Rows(Rewritten(content, c, added)) == Filter(Unclaimed(c), Rows(content)) + added
  {
    var kept := Filter(Unclaimed(c), ScanLines(content));
    ScanOneLiners(content);
    RowsRender(kept + added);
    RowsOfConcat(kept, added);
    RowsUnclaimed(c, ScanLines(content));
    RowsOfRows(added);
  }

  lemma EnsureNewlineRows(lines: seq<string>)
    requires OneLiners(lines)
    ensures Rows(EnsureNewline(Join(lines))) == RowsOf(lines)
  {
    RowsRender(lines);
    if Terminated(Join(lines)) {
      SwallowedNewline(Join(lines));
    }
  }

  lemma StrictRow()
    ensures Row(STRICT) && RowsOf([STRICT]) == [STRICT]
  {
    assert !IsSpace(STRICT[0]) && !IsSpace(STRICT[|STRICT| - 1]);
    TrimmedStays(STRICT);
    RowOfLine(STRICT);
  }

  /** Setting strict-order removes the old directives and puts the new one first. The blank line it
      may swallow at the end of the file is not a row. */
  lemma StrictRows(content: string, enable: bool)
    ensures Rows(WithStrict(content, enable))
         == (if enable then [STRICT] else []) + Filter(Unclaimed(StrictLines), Rows(content))
  {
    hide ScanLines, Join, RowsOf, EnsureNewline;
    var kept := Filter(Unclaimed(StrictLines), ScanLines(content));
    ScanOneLiners(content);
    RowsUnclaimed(StrictLines, ScanLines(content));
    if enable {
      StrictRow();
      EnsureNewlineRows([STRICT] + kept);
      RowsOfConcat([STRICT], kept);
    } else {
      EnsureNewlineRows(kept);
    }
  }

  lemma SwallowedNewline(out: string)
    requires Terminated(out)
    ensures Rows(out + "\n") == Rows(out)
  {
    ScanAppend(out, "\n");
    assert ScanLines("\n") == [""] by {
      ScanCons("", "");
      assert "\n" == "" + "\n" + "";
    }
    RowsOfConcat(ScanLines(out), [""]);
    assert RowsOf([""]) == [];
  }

  // ----- the record the file stands for

  /** The five views of the file. `rest` holds every other row, in order. */
  datatype View = View(
    servers: seq<string>, entries: seq<LocalEntry>, dhcp: DHCPConfig, strict: bool, rest: seq<string>)

  predicate IsRest(line: string) {
    ServerOf(line) == [] && EntryOf(line) == [] && RangeOf(line) == [] && StrictOf(line) == []
  }

  function ViewOf(content: string): View {
    View(Servers(content), LocalEntries(content), DhcpConfig(content), StrictOrder(content),
         Filter(IsRest, Rows(content)))
  }

  datatype Edit =
    | SetServers(servers: seq<string>)
    | AddEntry(entry: LocalEntry)
    | DeleteEntry(hostname: string)
    | SaveRange(cfg: DHCPConfig)
    | SetStrict(enable: bool)

  function Do(content: string, e: Edit): string {
    match e
    case SetServers(servers) => WithServers(content, servers)
    case AddEntry(entry) => WithEntry(content, entry)
    case DeleteEntry(hostname) => WithoutEntry(content, hostname)
    case SaveRange(cfg) => WithRange(content, cfg)
    case SetStrict(enable) => WithStrict(content, enable)
  }

  function NotHost(hostname: string): LocalEntry -> bool {
    (e: LocalEntry) => e.hostname != hostname
  }

  function Update(v: View, e: Edit): View {
    match e
    case SetServers(servers) => v.(servers := servers)
    case AddEntry(entry) => v.(entries := v.entries + [entry])
    case DeleteEntry(hostname) => v.(entries := Filter(NotUnder(hostname), v.entries))
    case SaveRange(cfg) => v.(dhcp := cfg.(leaseTime := LeaseOrDefault(cfg)))
    case SetStrict(enable) => v.(strict := enable)
  }

  predicate Value(s: string) {
    OneLine(s) && NoTrailingSpace(s)
  }

  predicate Field(s: string) {
    OneLine(s) && ',' !in s
  }

  /** Inputs whose text the file format can carry. */
  predicate ValidEdit(e: Edit) {
    match e
    case SetServers(servers) => forall a <- servers :: Value(a)
    case AddEntry(entry) => OneLine(entry.hostname) && '/' !in entry.hostname && Value(entry.ip)
    case DeleteEntry(hostname) => true
    case SaveRange(cfg) =>
      Field(cfg.rangeStart) && Field(cfg.rangeEnd) && Field(cfg.leaseTime) && NoTrailingSpace(cfg.leaseTime)
    case SetStrict(enable) => true
  }

  /** The exact rows after an edit. */
  function RowsAfter(rows: seq<string>, e: Edit): seq<string> {
    match e
    case SetServers(servers) => Filter(Unclaimed(ServerLines), rows) + Map(ServerLine, servers)
    case AddEntry(entry) => rows + [EntryLine(entry)]
    case DeleteEntry(hostname) => Filter(Unclaimed(EntryLines(hostname)), rows)
    case SaveRange(cfg) => Filter(Unclaimed(RangeLines), rows) + [RangeLine(cfg)]
    case SetStrict(enable) => (if enable then [STRICT] else []) + Filter(Unclaimed(StrictLines), rows)
  }

  // ----- what the written lines say

  lemma WrittenLine(prefix: string, value: string)
    requires prefix != "" && !IsSpace(prefix[0]) && OneLine(prefix) && Value(value)
    requires value == "" ==> NoTrailingSpace(prefix)
    ensures Trim(prefix + value) == prefix + value && Row(prefix + value)
    ensures (prefix + value)[|prefix|..] == value
  {
    TrimmedStays(prefix + value);
  }

  lemma ServerLineSays(addr: string)
    requires Value(addr)
    ensures Row(ServerLine(addr)) && ServerOf(ServerLine(addr)) == [addr]
    ensures EntryOf(ServerLine(addr)) == [] && RangeOf(ServerLine(addr)) == [] && StrictOf(ServerLine(addr)) == []
  {
    WrittenLine(SERVER, addr);
    assert ServerLine(addr)[0] == 's' && ServerLine(addr)[1] == 'e';
  }

  lemma EntryLineText(e: LocalEntry)
    requires OneLine(e.hostname) && Value(e.ip)
    ensures Row(EntryLine(e)) && Trim(EntryLine(e)) == EntryLine(e) != "" && Trimmed(EntryLine(e))
    ensures ADDRESS <= EntryLine(e) && EntryLine(e)[|ADDRESS|..] == e.hostname + ['/'] + e.ip
    ensures EntryLine(e)[0] == 'a'
  {
    hide Trim;
    var prefix := ADDRESS + e.hostname + "/";
    WrittenLine(prefix, e.ip);
    assert EntryLine(e) == prefix + e.ip;
  }

  lemma EntryLineSays(e: LocalEntry)
    requires OneLine(e.hostname) && Value(e.ip)
    ensures Row(EntryLine(e)) && Trim(EntryLine(e)) == EntryLine(e) != "" && Trimmed(EntryLine(e))
    ensures '/' !in e.hostname ==> EntryOf(EntryLine(e)) == [e]
    ensures |EntryOf(EntryLine(e))| == 1
    ensures ServerOf(EntryLine(e)) == [] && RangeOf(EntryLine(e)) == [] && StrictOf(EntryLine(e)) == []
  {
    hide CutFirst, Trim, EntryLine, Row, Trimmed, Value;
    EntryLineText(e);
    var body := e.hostname + ['/'] + e.ip;
    if '/' !in e.hostname {
      CutFirstOf(e.hostname, '/', e.ip);
    }
    CutFirstInverse(body, '/');
    assert body[|e.hostname|] == '/';
  }

  lemma SplitThree(a: string, b: string, c: string)
    requires ',' !in a && ',' !in b && ',' !in c
    ensures Split(a + "," + b + "," + c, ',') == [a, b, c]
  {
    hide Split;
    SplitOne(c, ',');
    SplitCons(b, ',', c);
    SplitCons(a, ',', b + [','] + c);
    assert a + "," + b + "," + c == a + [','] + (b + [','] + c);
  }

  lemma RangeLineText(cfg: DHCPConfig)
    requires ValidEdit(SaveRange(cfg))
    ensures Row(RangeLine(cfg)) && Trim(RangeLine(cfg)) == RangeLine(cfg)
    ensures RangeLine(cfg)[|RANGE|..] == cfg.rangeStart + "," + cfg.rangeEnd + "," + LeaseOrDefault(cfg)
    ensures RANGE <= RangeLine(cfg)
  {
    var prefix := RANGE + cfg.rangeStart + "," + cfg.rangeEnd + ",";
    WrittenLine(prefix, LeaseOrDefault(cfg));
  }

  lemma RangeLineSays(cfg: DHCPConfig)
    requires ValidEdit(SaveRange(cfg))
    ensures Row(RangeLine(cfg))
    ensures RangeOf(RangeLine(cfg)) == [[cfg.rangeStart, cfg.rangeEnd, LeaseOrDefault(cfg)]]
    ensures ServerOf(RangeLine(cfg)) == [] && EntryOf(RangeLine(cfg)) == [] && StrictOf(RangeLine(cfg)) == []
  {
    RangeLineText(cfg);
    SplitThree(cfg.rangeStart, cfg.rangeEnd, LeaseOrDefault(cfg));
    assert RangeLine(cfg)[0] == 'd';
  }

  // ----- the theorems

  lemma {:induction false} AllServerRows(servers: seq<string>)
    requires forall a <- servers :: Value(a)
    ensures AllRows(Map(ServerLine, servers))
  {
    forall i | 0 <= i < |servers| ensures Row(Map(ServerLine, servers)[i]) {
      ServerLineSays(servers[i]);
    }
  }

  /** Every edit changes exactly its own rows, for every content of the file; every other row stays
      where it is. Only the appending edit needs the file to end in a newline. */
  lemma EditRows(content: string, e: Edit)
    requires ValidEdit(e) && (e.AddEntry? ==> Terminated(content))
    ensures Rows(Do(content, e)) == RowsAfter(Rows(content), e)
    ensures Terminated(Do(content, e)) && Do(content, e) != ""
  {
    hide Rows, Filter, ScanLines, Join, EntryLine, RangeLine, Row, WithStrict, Map;
    match e
    case SetServers(servers) =>
      AllServerRows(servers);
      RewrittenRows(content, ServerLines, Map(ServerLine, servers));
    case AddEntry(entry) =>
      AddEntryRows(content, entry);
    case DeleteEntry(hostname) =>
      RewrittenRows(content, EntryLines(hostname), []);
    case SaveRange(cfg) =>
      RangeLineText(cfg);
      RewrittenRows(content, RangeLines, [RangeLine(cfg)]);
    case SetStrict(enable) =>
      StrictRows(content, enable);
      StrictEndsInNewline(content, enable);
  }

  lemma AddEntryRows(content: string, entry: LocalEntry)
    requires ValidEdit(AddEntry(entry)) && Terminated(content)
    ensures Rows(WithEntry(content, entry)) == Rows(content) + [EntryLine(entry)]
  {
    hide Rows, ScanLines, EntryLine;
    EntryLineText(entry);
    RowsAppendLine(content, EntryLine(entry));
  }

  lemma StrictEndsInNewline(content: string, enable: bool)
    ensures Terminated(WithStrict(content, enable)) && WithStrict(content, enable) != ""
  {
    hide Filter, ScanLines, Join;
  }

  /** A view that says nothing about the claimed lines is not affected by removing them. */
  lemma ForeignView<U>(view: string -> seq<U>, c: Claim, rows: seq<string>)
    requires forall l: string :: Claims(c, l) ==> view(l) == []
    ensures FlatMap(view, Filter(Unclaimed(c), rows)) == FlatMap(view, rows)
  {
    FlatMapFilter(view, Unclaimed(c), rows);
  }

  lemma {:induction false} ServersSay(servers: seq<string>)
    requires forall a <- servers :: Value(a)
    ensures FlatMap(ServerOf, Map(ServerLine, servers)) == servers
    ensures FlatMap(EntryOf, Map(ServerLine, servers)) == []
    ensures FlatMap(RangeOf, Map(ServerLine, servers)) == []
    ensures FlatMap(StrictOf, Map(ServerLine, servers)) == []
  {
    hide ServerOf, EntryOf, RangeOf, StrictOf, ServerLine, Value;
    if servers != [] {
      var init, last := servers[..|servers| - 1], servers[|servers| - 1];
      ServersSay(init);
      ServerLineSays(last);
      assert Map(ServerLine, servers)[..|servers| - 1] == Map(ServerLine, init);
    }
  }

  function RowView(rows: seq<string>): View {
    View(FlatMap(ServerOf, rows), FlatMap(EntryOf, rows), FoldRanges(FlatMap(RangeOf, rows)),
         FlatMap(StrictOf, rows) != [], Filter(IsRest, rows))
  }

  lemma ViewIsRowView(content: string)
    ensures ViewOf(content) == RowView(Rows(content))
  {
    ViewsOfRows(content);
  }

  /** A claimed line speaks to one view only, and is never one of the other rows. */
  lemma ClaimIsExclusive(c: Claim, l: string)
    requires Claims(c, l)
    ensures !c.ServerLines? ==> ServerOf(l) == []
    ensures !c.EntryLines? ==> EntryOf(l) == []
    ensures !c.RangeLines? ==> RangeOf(l) == []
    ensures !c.StrictLines? ==> StrictOf(l) == []
    ensures !IsRest(l)
  {
    var t := Trim(l);
    if c.EntryLines? {
      assert ADDRESS <= t && t[0] == 'a';
      var body := t[|ADDRESS|..];
      assert body[|c.hostname|] == '/';
      CutFirstInverse(body, '/');
    } else if c.RangeLines? {
      assert t[0] == RANGE[0] == 'd';
      assert ADDRESS[0] == 'a' && SERVER[0] == 's';
    } else {
      assert t[0] == 's' && ADDRESS[0] == 'a' && RANGE[0] == 'd';
      assert SERVER[1] == 'e' && STRICT[1] == 't';
      assert t[1] == if c.ServerLines? then 'e' else 't';
    }
  }

  /** Removing claimed rows leaves all the other views and the other rows alone. */
  lemma UnclaimedViews(c: Claim, rows: seq<string>)
    ensures !c.ServerLines? ==> FlatMap(ServerOf, Filter(Unclaimed(c), rows)) == FlatMap(ServerOf, rows)
    ensures !c.EntryLines? ==> FlatMap(EntryOf, Filter(Unclaimed(c), rows)) == FlatMap(EntryOf, rows)
    ensures !c.RangeLines? ==> FlatMap(RangeOf, Filter(Unclaimed(c), rows)) == FlatMap(RangeOf, rows)
    ensures !c.StrictLines? ==> FlatMap(StrictOf, Filter(Unclaimed(c), rows)) == FlatMap(StrictOf, rows)
    ensures Filter(IsRest, Filter(Unclaimed(c), rows)) == Filter(IsRest, rows)
  {
    hide FlatMap, Filter, Claims, ServerOf, EntryOf, RangeOf, StrictOf, IsRest;
    forall l: string | Claims(c, l)
      ensures !c.ServerLines? ==> ServerOf(l) == []
      ensures !c.EntryLines? ==> EntryOf(l) == []
      ensures !c.RangeLines? ==> RangeOf(l) == []
      ensures !c.StrictLines? ==> StrictOf(l) == []
      ensures !IsRest(l)
    {
      ClaimIsExclusive(c, l);
    }
    if !c.ServerLines? { ForeignView(ServerOf, c, rows); }
    if !c.EntryLines? { ForeignView(EntryOf, c, rows); }
    if !c.RangeLines? { ForeignView(RangeOf, c, rows); }
    if !c.StrictLines? { ForeignView(StrictOf, c, rows); }
    FilterAbsorbs(Unclaimed(c), IsRest, rows);
  }

  lemma OwnClaims(rows: seq<string>)
    ensures FlatMap(ServerOf, Filter(Unclaimed(ServerLines), rows)) == []
    ensures FlatMap(RangeOf, Filter(Unclaimed(RangeLines), rows)) == []
    ensures FlatMap(StrictOf, Filter(Unclaimed(StrictLines), rows)) == []
  {
  }

  /** Deleting by hostname, on the entries. A hostname with a slash would be matched against the
      hostname and address joined by a slash. */
  function NotUnder(hostname: string): LocalEntry -> bool {
    (e: LocalEntry) => !(hostname + "/" <= e.hostname + "/" + e.ip)
  }

  lemma DeleteEntryView(hostname: string, rows: seq<string>)
    ensures FlatMap(EntryOf, Filter(Unclaimed(EntryLines(hostname)), rows))
         == Filter(NotUnder(hostname), FlatMap(EntryOf, rows))
  {
    forall l: string
      ensures Filter(NotUnder(hostname), EntryOf(l)) == if Claims(EntryLines(hostname), l) then [] else EntryOf(l)
    {
      ClaimsEntry(hostname, l);
    }
    FlatMapFilterOut(EntryOf, Unclaimed(EntryLines(hostname)), NotUnder(hostname), rows);
  }

  lemma ClaimsEntry(hostname: string, l: string)
    ensures Filter(NotUnder(hostname), EntryOf(l)) == if Claims(EntryLines(hostname), l) then [] else EntryOf(l)
  {
    hide Filter, Trim;
    var t := Trim(l);
    NoneKept(NotUnder(hostname));
    assert ADDRESS + hostname + "/" == ADDRESS + (hostname + "/");
    if ADDRESS <= t {
      var body := t[|ADDRESS|..];
      assert t == ADDRESS + body;
      CommonPrefix(ADDRESS, hostname + "/", body);
      CutFirstInverse(body, '/');
      if EntryOf(l) == [] {
        PrefixHasSlash(hostname, body);
      } else {
        var e := EntryOf(l)[0];
        assert e.hostname + "/" + e.ip == body;
        FilterAppend(NotUnder(hostname), [], e);
        assert [] + [e] == EntryOf(l);
      }
    } else {
      LongerPrefix(ADDRESS, hostname + "/", t);
    }
  }

  lemma NoneKept(keep: LocalEntry -> bool)
    ensures Filter(keep, []) == []
  {
  }

  lemma LongerPrefix(a: string, b: string, t: string)
    ensures a + b <= t ==> a <= t
  {
    if a + b <= t {
      assert t[..|a|] == (a + b)[..|a|];
    }
  }

  lemma PrefixHasSlash(hostname: string, body: string)
    ensures hostname + "/" <= body ==> '/' in body
  {
    if hostname + "/" <= body {
      assert body[|hostname|] == '/';
    }
  }

  lemma DeleteHostView(hostname: string, rows: seq<string>)
    requires '/' !in hostname
    ensures FlatMap(EntryOf, Filter(Unclaimed(EntryLines(hostname)), rows))
         == Filter(NotHost(hostname), FlatMap(EntryOf, rows))
  {
    var entries := FlatMap(EntryOf, rows);
    DeleteEntryView(hostname, rows);
    FlatMapFrom(EntryOf, rows);
    forall e <- entries ensures NotUnder(hostname)(e) == NotHost(hostname)(e) {
      var l :| l in rows && e in EntryOf(l);
      CutFirstInverse(Trim(l)[|ADDRESS|..], '/');
      assert '/' !in e.hostname;
      UnderIsEqual(hostname, e);
    }
    FilterSame(NotUnder(hostname), NotHost(hostname), entries);
  }

  lemma UnderIsEqual(hostname: string, e: LocalEntry)
    requires '/' !in hostname && '/' !in e.hostname
    ensures hostname + "/" <= e.hostname + "/" + e.ip <==> e.hostname == hostname
  {
    var body := e.hostname + "/" + e.ip;
    if hostname + "/" <= body {
      assert body[|hostname|] == '/' && body[|e.hostname|] == '/';
      assert hostname == body[..|hostname|] && e.hostname == body[..|e.hostname|];
    }
  }

  /** On the rows, an edit is the update of one field of the record. */
  lemma RowsUpdate(rows: seq<string>, e: Edit)
    requires ValidEdit(e)
    ensures RowView(RowsAfter(rows, e)) == Update(RowView(rows), e)
  {
    match e
    case SetServers(servers) => SetServersView(rows, servers);
    case AddEntry(entry) => AddEntryView(rows, entry);
    case DeleteEntry(hostname) =>
      UnclaimedViews(EntryLines(hostname), rows);
      DeleteEntryView(hostname, rows);
    case SaveRange(cfg) => SaveRangeView(rows, cfg);
    case SetStrict(enable) => SetStrictView(rows, enable);
  }

  lemma AddEntryView(rows: seq<string>, entry: LocalEntry)
    requires ValidEdit(AddEntry(entry))
    ensures RowView(RowsAfter(rows, AddEntry(entry)))
         == RowView(rows).(entries := RowView(rows).entries + [entry])
  {
    hide FlatMap, Filter, ServerOf, EntryOf, RangeOf, StrictOf;
    AppendedRow(rows, EntryLine(entry));
    EntryLineSays(entry);
    Neutral(RowView(rows), rows);
  }

  /** Appending nothing to a view changes nothing. */
  lemma Neutral(v: View, rows: seq<string>)
    ensures v.servers + [] == v.servers && v.entries + [] == v.entries && v.rest + [] == v.rest
    ensures [] + v.servers == v.servers && [] + v.entries == v.entries && [] + v.rest == v.rest
    ensures FlatMap(RangeOf, rows) + [] == FlatMap(RangeOf, rows) == [] + FlatMap(RangeOf, rows)
    ensures FlatMap(StrictOf, rows) + [] == FlatMap(StrictOf, rows)
  {
  }

  lemma SaveRangeView(rows: seq<string>, cfg: DHCPConfig)
    requires ValidEdit(SaveRange(cfg))
    ensures RowView(RowsAfter(rows, SaveRange(cfg)))
         == RowView(rows).(dhcp := cfg.(leaseTime := LeaseOrDefault(cfg)))
  {
    hide FlatMap, Filter, ServerOf, EntryOf, RangeOf, StrictOf, RangeLine;
    AppendedRow(Filter(Unclaimed(RangeLines), rows), RangeLine(cfg));
    RangeLineSays(cfg);
    UnclaimedViews(RangeLines, rows);
    OwnClaims(rows);
    var parts := [cfg.rangeStart, cfg.rangeEnd, LeaseOrDefault(cfg)];
    assert [parts][..0] == [];
    assert FoldRanges([parts]) == Override(FoldRanges([]), parts);
  }

  lemma AppendedRow(rows: seq<string>, row: string)
    ensures FlatMap(ServerOf, rows + [row]) == FlatMap(ServerOf, rows) + ServerOf(row)
    ensures FlatMap(EntryOf, rows + [row]) == FlatMap(EntryOf, rows) + EntryOf(row)
    ensures FlatMap(RangeOf, rows + [row]) == FlatMap(RangeOf, rows) + RangeOf(row)
    ensures FlatMap(StrictOf, rows + [row]) == FlatMap(StrictOf, rows) + StrictOf(row)
    ensures Filter(IsRest, rows + [row]) == Filter(IsRest, rows) + if IsRest(row) then [row] else []
  {
    assert (rows + [row])[..|rows|] == rows;
  }

  lemma SetServersView(rows: seq<string>, servers: seq<string>)
    requires ValidEdit(SetServers(servers))
    ensures RowView(RowsAfter(rows, SetServers(servers))) == RowView(rows).(servers := servers)
  {
    hide FlatMap, Filter, ServerOf, EntryOf, RangeOf, StrictOf;
    var kept, added := Filter(Unclaimed(ServerLines), rows), Map(ServerLine, servers);
    UnclaimedViews(ServerLines, rows);
    OwnClaims(rows);
    ServersSay(servers);
    FlatMapConcat(ServerOf, kept, added);
    FlatMapConcat(EntryOf, kept, added);
    FlatMapConcat(RangeOf, kept, added);
    FlatMapConcat(StrictOf, kept, added);
    FilterConcat(IsRest, kept, added);
    forall i | 0 <= i < |added| ensures !IsRest(added[i]) {
      ServerLineSays(servers[i]);
    }
    FilterNone(IsRest, added);
    Neutral(RowView(rows), rows);
    assert [] + servers == servers;
  }

  lemma SetStrictView(rows: seq<string>, enable: bool)
    ensures RowView(RowsAfter(rows, SetStrict(enable))) == RowView(rows).(strict := enable)
  {
    hide FlatMap, Filter, ServerOf, EntryOf, RangeOf, StrictOf;
    var kept := Filter(Unclaimed(StrictLines), rows);
    UnclaimedViews(StrictLines, rows);
    OwnClaims(rows);
    if enable {
      StrictLineSays();
      FlatMapConcat(ServerOf, [STRICT], kept);
      FlatMapConcat(EntryOf, [STRICT], kept);
      FlatMapConcat(RangeOf, [STRICT], kept);
      FlatMapConcat(StrictOf, [STRICT], kept);
      FilterConcat(IsRest, [STRICT], kept);
      Neutral(RowView(rows), rows);
    } else {
      assert [] + kept == kept;
    }
  }

  lemma StrictLineSays()
    ensures FlatMap(ServerOf, [STRICT]) == [] && FlatMap(EntryOf, [STRICT]) == []
    ensures FlatMap(RangeOf, [STRICT]) == [] && FlatMap(StrictOf, [STRICT]) == [()]
    ensures Filter(IsRest, [STRICT]) == []
  {
    assert !IsSpace(STRICT[0]) && !IsSpace(STRICT[|STRICT| - 1]);
    TrimmedStays(STRICT);
    assert STRICT[0] == 's' && STRICT[1] == 't';
    AppendedRow([], STRICT);
    assert [] + [STRICT] == [STRICT];
  }

  /** The five editors refine a record: for every file content, an edit is exactly one field update,
      the other four views keep their values, and the file ends in a newline. */
  lemma EditRefines(content: string, e: Edit)
    requires ValidEdit(e) && (e.AddEntry? ==> Terminated(content))
    ensures ViewOf(Do(content, e)) == Update(ViewOf(content), e)
    ensures Terminated(Do(content, e))
  {
    EditRows(content, e);
    ViewIsRowView(content);
    ViewIsRowView(Do(content, e));
    RowsUpdate(Rows(content), e);
  }

  function DoAll(content: string, edits: seq<Edit>): string {
    if edits == [] then content else Do(DoAll(content, edits[..|edits| - 1]), edits[|edits| - 1])
  }

  function UpdateAll(v: View, edits: seq<Edit>): View {
    if edits == [] then v else Update(UpdateAll(v, edits[..|edits| - 1]), edits[|edits| - 1])
  }

  /** Over any sequence of edits the shared file and the record agree. */
  lemma {:induction false} RunRefines(content: string, edits: seq<Edit>)
    requires Terminated(content) && forall e <- edits :: ValidEdit(e)
    ensures ViewOf(DoAll(content, edits)) == UpdateAll(ViewOf(content), edits)
    ensures Terminated(DoAll(content, edits))
  {
    if edits != [] {
      var init, last := edits[..|edits| - 1], edits[|edits| - 1];
      RunRefines(content, init);
      EditRefines(DoAll(content, init), last);
    }
  }

  // ----- appending to a file that does not end in a newline

  /** The text after the last newline. */
  function LastFragment(s: string): string {
    s[FragmentAt(s)..]
  }

  function FragmentAt(s: string): (i: nat)
    ensures i <= |s| && OneLine(s[i..]) && Terminated(s[..i])
  {
    if Terminated(s) then
      assert s[..|s|] == s && s[|s|..] == "";
      |s|
    else
      var init, last := s[..|s| - 1], s[|s| - 1];
      var i := FragmentAt(init);
      assert init[..i] == s[..i] && s[i..] == init[i..] + [last];
      i
  }

  /** An entry determines the text of its line. */
  lemma EntryText(l: string)
    requires EntryOf(l) != []
    ensures Trim(l) == EntryLine(EntryOf(l)[0])
  {
    hide EntryLine, Trim;
    var t := Trim(l);
    CutFirstInverse(t[|ADDRESS|..], '/');
    EntryLineBody(EntryOf(l)[0]);
    assert t == ADDRESS + t[|ADDRESS|..];
  }

  lemma EntryLineBody(e: LocalEntry)
    ensures EntryLine(e) == ADDRESS + (e.hostname + ['/'] + e.ip)
  {
    assert ['/'] == "/";
  }

  lemma EntryBehindFragment(f: string, e: LocalEntry)
    requires ValidEdit(AddEntry(e)) && OneLine(f)
    ensures EntryOf(f + EntryLine(e)) == EntryOf(f) + [e] <==> Blank(f)
  {
    hide EntryOf, EntryLine;
    EntryLineSays(e);
    if Blank(f) {
      TrimBlankPrefix(f, EntryLine(e));
      BlankHasNoEntry(f);
      SameTrim(f + EntryLine(e), EntryLine(e));
    } else {
      TrimLeftGlued(f, EntryLine(e));
      if EntryOf(f + EntryLine(e)) != [] {
        EntryText(f + EntryLine(e));
      }
    }
  }

  lemma BlankHasNoEntry(f: string)
    requires Blank(f)
    ensures EntryOf(f) == []
  {
  }

  lemma SameTrim(a: string, b: string)
    requires Trim(a) == Trim(b)
    ensures EntryOf(a) == EntryOf(b)
  {
  }

  lemma {:induction false} TrimLeftGlued(f: string, line: string)
    requires !Blank(f) && line != "" && NoTrailingSpace(line)
    ensures |Trim(f + line)| > |line|
  {
    BlankAllSpace(f);
    TrimLeftLonger(f, line);
  }

  lemma {:induction false} TrimLeftLonger(f: string, line: string)
    requires exists c <- f :: !IsSpace(c)
    ensures |TrimLeft(f + line)| > |line|
  {
    if IsSpace(f[0]) {
      assert (f + line)[1..] == f[1..] + line;
      TrimLeftLonger(f[1..], line);
    }
  }

  /** A blind append adds the entry exactly when nothing but white space follows the last newline. */
  lemma AddEntryBehind(content: string, e: LocalEntry)
    requires ValidEdit(AddEntry(e))
    ensures LocalEntries(WithEntry(content, e)) == LocalEntries(content) + [e] <==> Blank(LastFragment(content))
  {
    hide EntryOf, ScanLines, FlatMap, EntryLine, Blank, Trim;
    var f := LastFragment(content);
    var base := content[..FragmentAt(content)];
    assert content == base + f;
    assert WithEntry(content, e) == base + (f + EntryLine(e)) + "\n";
    assert OneLine(EntryLine(e)) by {
      EntryLineSays(e);
    }
    EntriesOfFragment(base, f);
    EntriesOfLine(base, f + EntryLine(e));
    EntryBehindFragment(f, e);
    SameBehind(FlatMap(EntryOf, ScanLines(base)), EntryOf(f + EntryLine(e)), EntryOf(f), [e]);
  }

  lemma EntryOfDropCR(line: string)
    ensures EntryOf(DropCR(line)) == EntryOf(line)
  {
    TrimStripCR(line);
    TrimStripCR(DropCR(line));
  }

  lemma EntriesOfFragment(base: string, f: string)
    requires Terminated(base) && OneLine(f)
    ensures FlatMap(EntryOf, ScanLines(base + f)) == FlatMap(EntryOf, ScanLines(base)) + EntryOf(f)
  {
    ScanAppend(base, f);
    FlatMapConcat(EntryOf, ScanLines(base), ScanLines(f));
    if f != "" {
      ScanOne(f);
      EntryOfDropCR(f);
      assert FlatMap(EntryOf, [DropCR(f)]) == [] + EntryOf(DropCR(f)) by {
        assert [DropCR(f)][..0] == [];
      }
    }
  }

  lemma EntriesOfLine(base: string, line: string)
    requires Terminated(base) && OneLine(line)
    ensures FlatMap(EntryOf, ScanLines(base + line + "\n")) == FlatMap(EntryOf, ScanLines(base)) + EntryOf(line)
  {
    hide ScanLines, EntryOf, FlatMap, DropCR;
    ScanAppend(base, line + "\n");
    assert base + line + "\n" == base + (line + "\n");
    ScanCons(line, "");
    ScanNothing();
    assert line + "\n" == line + "\n" + "" && [DropCR(line)] + [] == [DropCR(line)];
    FlatMapAppend(EntryOf, ScanLines(base), DropCR(line));
    EntryOfDropCR(line);
  }
}
