/** Which block every line of the port-forward script belongs to, and what adding and deleting do to
    the lines of all blocks, over whole runs. */
module PortForwardOwners {
  import opened Seqs
  import opened Text
  import opened Options
  import opened PortForward
  import opened PortForwardBlocks
  import opened PortForwardList

  /** A line that is not blank, and the block it belongs to: the text behind the "# PF: " of its comment. */
  datatype Row = Row(owner: Option<string>, text: string)

  /** In a block that still lacks `left` iptables lines, or in none. */
  datatype Turn = Free | In(block: string, left: nat)

  /** What a script says: its rows; whether every block so far had its three iptables lines when the
      next one started (`whole`), and where the last line leaves us. */
  datatype View = View(turn: Turn, rows: seq<Row>, whole: bool)

  function Read(lines: seq<string>): View {
    if lines == [] then View(Free, [], true)
    else ReadLine(Read(lines[..|lines| - 1]), lines[|lines| - 1])
  }

  function ReadLine(v: View, line: string): View {
    match BlockOf(line)
    case Some(block) => View(In(block, 3), v.rows + [Row(Some(block), StripCR(line))], v.whole && v.turn == Free)
    case None =>
      if IsIptables(line) then
        match v.turn
        case Free => v.(rows := v.rows + [Row(None, StripCR(line))])
        case In(block, left) =>
          View(if left <= 1 then Free else In(block, left - 1), v.rows + [Row(Some(block), StripCR(line))], v.whole)
      else if Blank(line) then v
      else v.(rows := v.rows + [Row(None, StripCR(line))])
  }

  function ViewOf(content: string): View {
    Read(ScanLines(content))
  }

  /** Every block has its three iptables lines. */
  predicate Complete(content: string) {
    ViewOf(content).whole && ViewOf(content).turn == Free
  }

  predicate NotOf(name: string, row: Row) {
    row.owner.None? || !Hits(name, row.owner.value)
  }

  predicate InBlockOf(name: string, turn: Turn) {
    turn.In? && Hits(name, turn.block)
  }

  /** A view without the rows of one name. */
  function Minus(v: View, name: string): View {
    View(if InBlockOf(name, v.turn) then Free else v.turn, Filter(row => NotOf(name, row), v.rows), v.whole)
  }

  // ----- deleting

  lemma ReadSnoc(lines: seq<string>, line: string)
    ensures Read(lines + [line]) == ReadLine(Read(lines), line)
  {
    assert (lines + [line])[..|lines|] == lines;
  }

  lemma ReadBlank(lines: seq<string>)
    requires lines != [] && Blank(lines[|lines| - 1])
    ensures Read(lines) == Read(lines[..|lines| - 1])
  {
    BlankHasNoRule(lines[|lines| - 1]);
  }

  /** The deleter's counter agrees with the block it is in. */
  predicate InStep(kept: seq<string>, skip: nat, v: View, name: string) {
    && Read(kept) == Minus(v, name)
    && skip == (if InBlockOf(name, v.turn) then v.turn.left else 0)
    && (v.turn.In? ==> v.turn.left > 0)
  }

  lemma DeleteMark(kept: seq<string>, v: View, line: string, name: string)
    requires InStep(kept, 0, v, name) && v.turn == Free && Marks(name, line)
    ensures InStep(ScanLine(kept, 0, line, name).0, 3, ReadLine(v, line), name)
  {
    hide Read, BlockOf, Marks, Blank, Hits;
    MarksIsHit(name, line);
    FilterAppend(row => NotOf(name, row), v.rows, Row(BlockOf(line), StripCR(line)));
    if kept != [] && Blank(kept[|kept| - 1]) {
      ReadBlank(kept);
    }
  }

  lemma KeepStep(kept: seq<string>, skip: nat, v: View, line: string, name: string)
    requires InStep(kept, skip, v, name) && !Marks(name, line)
    requires !IsIptables(line) && ReadLine(v, line).whole
    ensures InStep(kept + [line], skip, ReadLine(v, line), name)
  {
    hide Read, BlockOf, Marks, Blank, IsIptables, StripCR, Filter, Hits;
    MarksIsHit(name, line);
    ReadSnoc(kept, line);
    FilterAppend(row => NotOf(name, row), v.rows, Row(BlockOf(line), StripCR(line)));
  }

  lemma CommandStep(kept: seq<string>, skip: nat, v: View, line: string, name: string)
    requires InStep(kept, skip, v, name) && IsIptables(line) && BlockOf(line) == None
    ensures if skip > 0 then InStep(kept, skip - 1, ReadLine(v, line), name)
            else InStep(kept + [line], 0, ReadLine(v, line), name)
  {
    hide Read, BlockOf, Blank, IsIptables, StripCR, Filter, Hits;
    ReadSnoc(kept, line);
    FilterAppend(row => NotOf(name, row), v.rows,
                 Row(if v.turn.In? then Some(v.turn.block) else None, StripCR(line)));
  }

  lemma DeleteStep(kept: seq<string>, skip: nat, v: View, line: string, name: string)
    requires InStep(kept, skip, v, name) && ReadLine(v, line).whole
    ensures InStep(ScanLine(kept, skip, line, name).0, ScanLine(kept, skip, line, name).1, ReadLine(v, line), name)
  {
    hide InStep, BlockOf, Marks, Blank, IsIptables;
    MarksIsHit(name, line);
    if Marks(name, line) {
      FreeBefore(kept, skip, v, line, name);
      DeleteMark(kept, v, line, name);
    } else if IsIptables(line) {
      CommandHasNoName(line, name);
      CommandStep(kept, skip, v, line, name);
    } else {
      KeepStep(kept, skip, v, line, name);
    }
  }

  lemma FreeBefore(kept: seq<string>, skip: nat, v: View, line: string, name: string)
    requires InStep(kept, skip, v, name) && BlockOf(line).Some? && ReadLine(v, line).whole
    ensures v.turn == Free && skip == 0
  {
  }

  lemma {:induction false} DeleteLines(lines: seq<string>, name: string)
    requires Read(lines).whole
    ensures InStep(Scan(lines, name).0, Scan(lines, name).1, Read(lines), name)
  {
    hide ReadLine, ScanLine;
    if lines != [] {
      var init, last := lines[..|lines| - 1], lines[|lines| - 1];
      ReadLineWhole(Read(init), last);
      DeleteLines(init, name);
      DeleteStep(Scan(init, name).0, Scan(init, name).1, Read(init), last, name);
    }
  }

  lemma ReadLineWhole(v: View, line: string)
    ensures ReadLine(v, line).whole ==> v.whole
  {
  }

  lemma {:induction false} ReadDropCR(lines: seq<string>)
    ensures Read(Map(DropCR, lines)) == Read(lines)
  {
    hide Trim, StripCR, DropCR;
    if lines != [] {
      var init, last := lines[..|lines| - 1], lines[|lines| - 1];
      ReadDropCR(init);
      assert Map(DropCR, lines) == Map(DropCR, init) + [DropCR(last)];
      ReadSnoc(Map(DropCR, init), DropCR(last));
      DropCRSays(last);
    }
  }

  lemma ReadRender(lines: seq<string>)
    requires OneLiners(lines)
    ensures ViewOf(Render(lines)) == Read(lines)
  {
    hide ReadLine;
    if lines == [] {
      ScanNewline();
      ReadBlank([""]);
      assert Render(lines) == "\n" && [""][..0] == [];
    } else {
      ScanRender(lines);
      ReadDropCR(lines);
    }
  }

  /** When every block has its three iptables lines before the next one starts, deleting a name
      removes the rows of its blocks and keeps all other rows, in order. */
  lemma DeleteRemovesBlocks(content: string, name: string)
    requires ViewOf(content).whole
    ensures ViewOf(Without(content, name)) == Minus(ViewOf(content), name)
  {
    hide Read, ScanLines, Scan;
    ScanOneLiners(content);
    ScanOneLine(ScanLines(content), name);
    ReadRender(Scan(ScanLines(content), name).0);
    DeleteLines(ScanLines(content), name);
  }

  lemma CommandHasNoName(line: string, name: string)
    requires IsIptables(line)
    ensures BlockOf(line) == None && !Blank(line) && !Marks(name, line)
  {
    hide Trim;
    assert IPTABLES[0] == Trim(line)[0] && PF[0] == '#';
    CommandIsNoMark(line, name);
  }

  // ----- adding

  function BlockName(r: Rule): string {
    JoinBy(FieldsOf(r), '|')
  }

  function BlockRows(r: Rule): seq<Row> {
    [Row(Some(BlockName(r)), Comment(r)), Row(Some(BlockName(r)), NatLine(r)),
     Row(Some(BlockName(r)), LogLine(r)), Row(Some(BlockName(r)), AcceptLine(r))]
  }

  function Plus(v: View, r: Rule): View {
    View(Free, v.rows + BlockRows(r), v.whole)
  }

  lemma TrimmedHasNoCR(line: string)
    requires Trim(line) == line
    ensures StripCR(line) == line
  {
    TrimIsTrimmed(line);
  }

  lemma ReadCommand(lines: seq<string>, line: string)
    requires Command(line) && Read(lines).turn.In?
    ensures var v := Read(lines);
            Read(lines + [line]) ==
            View(
              if v.turn.left <= 1 then Free else In(v.turn.block, v.turn.left - 1),
              v.rows + [Row(Some(v.turn.block), line)], v.whole)
  {
    hide Read, Trim, StripCR, BlockOf;
    ReadSnoc(lines, line);
    CommandHasNoName(line, "");
    TrimmedHasNoCR(line);
  }

  lemma ReadComment(lines: seq<string>, r: Rule)
    requires Valid(r) && Read(lines).turn == Free
    ensures Read(lines + [Comment(r)]) ==
            View(In(BlockName(r), 3), Read(lines).rows + [Row(Some(BlockName(r)), Comment(r))], Read(lines).whole)
  {
    hide Valid, Read, Trim, StripCR, Comment, Marks;
    ReadSnoc(lines, Comment(r));
    CommentText(r);
    TrimmedHasNoCR(Comment(r));
    MarksIsHit(r.name, Comment(r));
  }

  lemma ReadBlock(lines: seq<string>, r: Rule)
    requires Valid(r) && Read(lines).turn == Free
    ensures Read(lines + BlockLines(r)) == Plus(Read(lines), r)
  {
    hide Valid, Read, Comment, NatLine, LogLine, AcceptLine, Command;
    var a := lines + [Comment(r)];
    var b := a + [NatLine(r)];
    var c := b + [LogLine(r)];
    BlockLinesSay(r);
    ReadComment(lines, r);
    ReadCommand(a, NatLine(r));
    ReadCommand(b, LogLine(r));
    ReadCommand(c, AcceptLine(r));
    assert lines + BlockLines(r) == c + [AcceptLine(r)];
  }

  /** Adding a rule to a file whose blocks are complete appends the four rows of its block. */
  lemma AddAppendsBlock(content: string, r: Rule)
    requires Valid(r) && Complete(content)
    ensures ViewOf(content + Block(r)) == Plus(ViewOf(content), r)
  {
    hide Valid, Read, ScanLines, Block, BlockLines;
    var before := ScanLines(content) + (if Terminated(content) then [""] else []);
    AddedLines(content, r);
    assert ScanLines(content) + [] == ScanLines(content);
    if Terminated(content) {
      assert before[..|before| - 1] == ScanLines(content);
      ReadBlank(before);
    }
    ReadBlock(before, r);
  }

  // ----- whole runs

  datatype Op = Add(rule: Rule) | Delete(name: string)

  /** The additions are validated; the name to delete may be any text. */
  predicate Allowed(op: Op) {
    op.Add? ==> Valid(op.rule)
  }

  /** A name that a rule can have. */
  predicate NamesOnly(op: Op) {
    op.Delete? ==> '|' !in op.name
  }

  /** The file after an operation whose system calls all succeed. */
  function After(file: Option<string>, op: Op): Option<string> {
    match op
    case Add(r) => Some(TextOf(file) + Block(r))
    case Delete(name) => if file.None? then None else Some(Without(file.value, name))
  }

  function Run(file: Option<string>, ops: seq<Op>): Option<string> {
    if ops == [] then file else After(Run(file, ops[..|ops| - 1]), ops[|ops| - 1])
  }

  function RulesAfter(rules: seq<Rule>, ops: seq<Op>): seq<Rule> {
    if ops == [] then rules
    else
      var before := RulesAfter(rules, ops[..|ops| - 1]);
      match ops[|ops| - 1]
      case Add(r) => before + [r]
      case Delete(name) => Filter(r => Other(name, r), before)
  }

  function RowsAfter(rows: seq<Row>, ops: seq<Op>): seq<Row> {
    if ops == [] then rows
    else
      var before := RowsAfter(rows, ops[..|ops| - 1]);
      match ops[|ops| - 1]
      case Add(r) => before + BlockRows(r)
      case Delete(name) => Filter(row => NotOf(name, row), before)
  }

  lemma OpRefines(file: Option<string>, op: Op)
    requires Allowed(op) && Complete(TextOf(file))
    ensures Complete(TextOf(After(file, op)))
    ensures ViewOf(TextOf(After(file, op))).rows == RowsAfter(ViewOf(TextOf(file)).rows, [op])
    ensures NamesOnly(op) ==> Rules(TextOf(After(file, op))) == RulesAfter(Rules(TextOf(file)), [op])
  {
    hide Valid, Read, ScanLines, Block, RuleOf, Rules, Without, Hits;
    var text := TextOf(file);
    assert [op][..0] == [];
    match op
    case Add(r) =>
      AddAppendsBlock(text, r);
      AddAppendsRule(text, r);
    case Delete(name) =>
      if file.None? {
        EmptySays();
      } else {
        DeleteRemovesBlocks(text, name);
        DeleteFiltersRules(text, name);
      }
  }

  lemma EmptySays()
    ensures Rules("") == [] && ViewOf("") == View(Free, [], true)
  {
  }

  /** Any sequence of additions and deletions does to the script what it would do to a list of rules
      and a list of owned rows: deleting a name removes the rules of that name and the rows of their
      blocks. A name text that holds a separator removes the blocks that begin with it. */
  lemma {:induction false} RunRefines(file: Option<string>, ops: seq<Op>)
    requires Complete(TextOf(file)) && forall op <- ops :: Allowed(op)
    ensures Complete(TextOf(Run(file, ops)))
    ensures ViewOf(TextOf(Run(file, ops))).rows == RowsAfter(ViewOf(TextOf(file)).rows, ops)
    ensures (forall op <- ops :: NamesOnly(op)) ==>
              Rules(TextOf(Run(file, ops))) == RulesAfter(Rules(TextOf(file)), ops)
  {
    hide Allowed, NamesOnly, Rules, ViewOf, After, Complete;
    if ops != [] {
      var init, last := ops[..|ops| - 1], ops[|ops| - 1];
      RunRefines(file, init);
      OpRefines(Run(file, init), last);
      assert [last][..0] == [];
    }
  }
}
