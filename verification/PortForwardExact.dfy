/** Exactly when deleting a port-forward rule removes the rows of its blocks and no other row. */
module PortForwardExact {
  import opened Seqs
  import opened Text
  import opened Options
  import opened PortForward
  import opened PortForwardBlocks
  import opened PortForwardList
  import opened PortForwardOwners

  // ----- the condition

  /** How many iptables lines the last block of `name` still lacks: three when it starts, and one
      less with every iptables line, whosever it is. */
  function Lacking(lines: seq<string>, name: string): nat {
    if lines == [] then 0
    else
      var init, last := lines[..|lines| - 1], lines[|lines| - 1];
      LackingAfter(Lacking(init, name), last, name)
  }

  function LackingAfter(lacking: nat, line: string, name: string): nat {
    if Marks(name, line) then 3 else if lacking > 0 && IsIptables(line) then lacking - 1 else lacking
  }

  /** An iptables line that belongs to no block of `name`, met while the last such block lacks lines. */
  predicate Stolen(turn: Turn, lacking: nat, line: string, name: string) {
    IsIptables(line) && lacking > 0 && !InBlockOf(name, turn)
  }

  predicate NoTheft(lines: seq<string>, name: string) {
    forall i | 0 <= i < |lines| :: !Stolen(Read(lines[..i]).turn, Lacking(lines[..i], name), lines[i], name)
  }

  lemma NoTheftSnoc(init: seq<string>, last: string, name: string)
    ensures NoTheft(init + [last], name)
       <==> NoTheft(init, name) && !Stolen(Read(init).turn, Lacking(init, name), last, name)
  {
    hide Stolen, Read, Lacking;
    var all := init + [last];
    assert all[..|init|] == init && all[|init|] == last;
    assert forall i | 0 <= i < |init| :: all[..i] == init[..i] && all[i] == init[i];
  }

  // ----- what is wanted and what is kept

  function Texts(rows: seq<Row>): seq<string> {
    Map((row: Row) => row.text, rows)
  }

  /** The texts of all rows but those of the blocks of `name`. */
  function Wanted(v: View, name: string): seq<string> {
    Texts(Filter(row => NotOf(name, row), v.rows))
  }

  /** What one more line adds to the wanted rows. */
  function WantedBy(turn: Turn, line: string, name: string): seq<string> {
    if Blank(line) || Marks(name, line) || (IsIptables(line) && InBlockOf(name, turn)) then [] else [StripCR(line)]
  }

  /** What one more line adds to the kept rows. */
  function KeptBy(skip: nat, line: string, name: string): seq<string> {
    if Blank(line) || Marks(name, line) || (IsIptables(line) && skip > 0) then [] else [StripCR(line)]
  }

  lemma WantedRow(rows: seq<Row>, row: Row, name: string)
    ensures Texts(Filter(row => NotOf(name, row), rows + [row]))
         == Texts(Filter(row => NotOf(name, row), rows)) + if NotOf(name, row) then [row.text] else []
  {
    hide NotOf;
    FilterAppend(row => NotOf(name, row), rows, row);
  }

  lemma WantedSnoc(v: View, line: string, name: string)
    ensures Wanted(ReadLine(v, line), name) == Wanted(v, name) + WantedBy(v.turn, line, name)
  {
    hide BlockOf, Blank, IsIptables, Marks, StripCR, Hits, Texts, Filter;
    MarksIsHit(name, line);
    BlankHasNoRule(line);
    if IsIptables(line) {
      CommandHasNoName(line, name);
    }
    WantedRow(v.rows, Row(BlockOf(line), StripCR(line)), name);
    if v.turn.In? {
      WantedRow(v.rows, Row(Some(v.turn.block), StripCR(line)), name);
    }
  }

  lemma RowsOfSnoc(lines: seq<string>, line: string)
    ensures RowsOf(lines + [line]) == RowsOf(lines) + if Blank(line) then [] else [StripCR(line)]
  {
    hide Trim;
    TrimStripCR(line);
    assert Map(StripCR, lines + [line]) == Map(StripCR, lines) + [StripCR(line)];
    FilterAppend(NonBlank, Map(StripCR, lines), StripCR(line));
  }

  lemma KeptSnoc(kept: seq<string>, skip: nat, line: string, name: string)
    ensures RowsOf(ScanLine(kept, skip, line, name).0) == RowsOf(kept) + KeptBy(skip, line, name)
  {
    hide RowsOf, Blank, IsIptables, Marks, StripCR;
    RowsOfSnoc(kept, line);
    BlankHasNoRule(line);
    MarksIsHit(name, line);
    if Marks(name, line) && kept != [] {
      RowsOfSnoc(kept[..|kept| - 1], kept[|kept| - 1]);
      assert kept == kept[..|kept| - 1] + [kept[|kept| - 1]];
    }
  }

  // ----- the induction

  /** The deleter's counter is what the last block lacks, and inside a block of `name` it is what that
      very block lacks. */
  predicate Counts(lines: seq<string>, name: string) {
    && Scan(lines, name).1 == Lacking(lines, name)
    && (InBlockOf(name, Read(lines).turn) ==> Read(lines).turn.left == Lacking(lines, name) > 0)
  }

  lemma CountsStep(init: seq<string>, last: string, name: string)
    requires Counts(init, name)
    ensures Counts(init + [last], name)
  {
    hide Scan, Read, Lacking, BlockOf, Hits, Marks, IsIptables, Blank, StripCR;
    ScanSnoc(init, last, name);
    ReadSnoc(init, last);
    assert (init + [last])[..|init|] == init;
    assert Lacking(init + [last], name) == LackingAfter(Lacking(init, name), last, name) by {
      LackingSnoc(init, last, name);
    }
    MarksIsHit(name, last);
    if IsIptables(last) {
      CommandHasNoName(last, name);
    }
  }

  lemma LackingSnoc(init: seq<string>, last: string, name: string)
    ensures Lacking(init + [last], name) == LackingAfter(Lacking(init, name), last, name)
  {
    assert (init + [last])[..|init|] == init;
  }

  lemma LineChoices(turn: Turn, lacking: nat, line: string, name: string)
    requires InBlockOf(name, turn) ==> lacking > 0
    ensures if Stolen(turn, lacking, line, name)
            then KeptBy(lacking, line, name) == [] && |WantedBy(turn, line, name)| == 1
            else KeptBy(lacking, line, name) == WantedBy(turn, line, name)
  {
    hide Blank, IsIptables, Marks, StripCR, InBlockOf;
    if IsIptables(line) {
      CommandHasNoName(line, name);
    }
  }

  /** The kept rows against the wanted ones. */
  lemma {:induction false} KeptLines(lines: seq<string>, name: string)
    ensures Counts(lines, name)
    ensures |RowsOf(Scan(lines, name).0)| <= |Wanted(Read(lines), name)|
    ensures RowsOf(Scan(lines, name).0) == Wanted(Read(lines), name) <==> NoTheft(lines, name)
    ensures !NoTheft(lines, name) ==> |RowsOf(Scan(lines, name).0)| < |Wanted(Read(lines), name)|
  {
    hide Scan, Read, Lacking, RowsOf, Wanted, NoTheft, KeptBy, WantedBy, Stolen, InBlockOf, ReadLine, ScanLine;
    if lines == [] {
      NothingKept(name);
    } else {
      var init, last := lines[..|lines| - 1], lines[|lines| - 1];
      assert lines == init + [last];
      KeptLines(init, name);
      CountsStep(init, last, name);
      ScanSnoc(init, last, name);
      ReadSnoc(init, last);
      KeptSnoc(Scan(init, name).0, Scan(init, name).1, last, name);
      WantedSnoc(Read(init), last, name);
      NoTheftSnoc(init, last, name);
      LineChoices(Read(init).turn, Lacking(init, name), last, name);
    }
  }

  lemma NothingKept(name: string)
    ensures Counts([], name) && NoTheft([], name) && Lacking([], name) == 0
    ensures RowsOf(Scan([], name).0) == [] && Wanted(Read([]), name) == []
  {
  }

  /** In every file and for every name text, deleting leaves exactly the rows outside the blocks of
      the name, in order, if and only if no iptables line is met outside these blocks while the last
      of them lacks lines. Otherwise rows are lost. */
  lemma DeleteExact(content: string, name: string)
    ensures Rows(Without(content, name)) == Wanted(ViewOf(content), name) <==> NoTheft(ScanLines(content), name)
    ensures !NoTheft(ScanLines(content), name) ==>
              |Rows(Without(content, name))| < |Wanted(ViewOf(content), name)|
  {
    hide Scan, Read, ScanLines, RowsOf, Wanted, NoTheft;
    ScanOneLiners(content);
    ScanOneLine(ScanLines(content), name);
    RowsRender(Scan(ScanLines(content), name).0);
    KeptLines(ScanLines(content), name);
  }

  // ----- a file that loses a line

  /** The block of `r` without its last line, and the whole block of `s`. */
  function ShortThenWhole(r: Rule, s: Rule): string {
    Comment(r) + "\n" + (NatLine(r) + "\n" + (LogLine(r) + "\n" + Block(s)))
  }

  lemma ShortThenWholeLines(r: Rule, s: Rule)
    requires Valid(r) && Valid(s)
    ensures ScanLines(ShortThenWhole(r, s)) == [Comment(r)] + [NatLine(r)] + [LogLine(r)] + [""] + BlockLines(s)
  {
    hide Valid, Comment, NatLine, LogLine, AcceptLine, ScanLines, Trim, Block, BlockLines;
    CommentText(r);
    BlockLinesSay(r);
    ScanCommand(Comment(r), NatLine(r) + "\n" + (LogLine(r) + "\n" + Block(s)));
    ScanCommand(NatLine(r), LogLine(r) + "\n" + Block(s));
    ScanCommand(LogLine(r), Block(s));
    AddedLines("", s);
    ScanNothing();
    assert "" + Block(s) == Block(s);
  }

  /** A comment of another name neither marks nor belongs to this one. */
  lemma OtherComment(r: Rule, s: Rule)
    requires Valid(r) && Valid(s) && r.name != s.name
    ensures BlockOf(Comment(s)) == Some(BlockName(s)) && !Hits(r.name, BlockName(s)) && !Marks(r.name, Comment(s))
  {
    hide Valid, Trim, Comment, JoinBy, Split, FieldsOf;
    CommentText(s);
    CommentSays(s);
    ValidHasWords(r);
    MarksIsHit(s.name, Comment(s));
    MarksIsHit(r.name, Comment(s));
    RuleHasBlock(Comment(s), r.name);
  }

  /** Deleting `r` from it takes the first command of the block of `s`. */
  lemma ShortBlockLosesLine(r: Rule, s: Rule)
    requires Valid(r) && Valid(s) && r.name != s.name
    ensures var content := ShortThenWhole(r, s);
            |Rows(Without(content, r.name))| < |Wanted(ViewOf(content), r.name)|
  {
    hide Valid, Comment, NatLine, LogLine, AcceptLine, ScanLines, Trim, Marks, IsIptables, Read, Lacking, BlockOf, Hits,
      Wanted, RowsOf, Without, ShortThenWhole;
    var n := r.name;
    var a := [] + [Comment(r)];
    var b := a + [NatLine(r)];
    var c := b + [LogLine(r)];
    var d := c + [""];
    var e := d + [Comment(s)];
    var lines := d + BlockLines(s);
    ShortThenWholeLines(r, s);
    assert ScanLines(ShortThenWhole(r, s)) == lines;
    CommentText(r);
    BlockLinesSay(r);
    BlockLinesSay(s);
    OtherComment(r, s);
    EmptyLineSays(n);
    CommandIsNoMark(NatLine(r), n);
    CommandIsNoMark(LogLine(r), n);
    assert Lacking([], n) == 0 by {
      NothingKept(n);
    }
    LackingSnoc([], Comment(r), n);
    LackingSnoc(a, NatLine(r), n);
    LackingSnoc(b, LogLine(r), n);
    LackingSnoc(c, "", n);
    StartIsNoCommand(Comment(s));
    LackingSnoc(d, Comment(s), n);
    ReadSnoc(d, Comment(s));
    assert lines[..|e|] == e && lines[|e|] == NatLine(s);
    assert Stolen(Read(lines[..|e|]).turn, Lacking(lines[..|e|], n), lines[|e|], n);
    DeleteExact(ShortThenWhole(r, s), n);
  }

  lemma StartIsNoCommand(line: string)
    ensures BlockOf(line).Some? ==> !IsIptables(line)
  {
    if IsIptables(line) {
      CommandHasNoName(line, "");
    }
  }
}
