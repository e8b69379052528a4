/** The port-forward script as a list: every line that is not blank belongs to one block or to none,
    adding appends the four lines of a block, and deleting removes the lines of one name and no other. */
module PortForwardList {
  import opened Seqs
  import opened Text
  import opened Options
  import opened PortForward
  import opened PortForwardBlocks

  // ----- the rules, in any file

  /** A comment line that starts a block: the text behind its "# PF: ". */
  function BlockOf(line: string): Option<string> {
    var t := Trim(line);
    if PF <= t && '|' in t[|PF|..] then Some(t[|PF|..]) else None
  }

  /** The deleter takes a block for one of `name` when its text begins with the name and a separator. */
  predicate Hits(name: string, block: string) {
    name + "|" <= block
  }

  lemma MarksIsHit(name: string, line: string)
    ensures Marks(name, line) <==> BlockOf(line).Some? && Hits(name, BlockOf(line).value)
  {
    hide Trim;
    var t := Trim(line);
    assert Marker(name) == PF + (name + "|");
    if PF <= t {
      assert t == PF + t[|PF|..];
      CommonPrefix(PF, name + "|", t[|PF|..]);
    }
    if PF <= t && name + "|" <= t[|PF|..] {
      assert t[|PF|..][|name|] == '|';
    }
  }

  /** A name without a separator is the name of the rule that its blocks display. */
  lemma RuleHasBlock(line: string, name: string)
    ensures RuleOf(line) != [] ==> |RuleOf(line)| == 1 && BlockOf(line).Some?
    ensures RuleOf(line) != [] && '|' !in name ==> (Hits(name, BlockOf(line).value) <==> RuleOf(line)[0].name == name)
  {
    hide Trim;
    if RuleOf(line) != [] {
      var block := Trim(line)[|PF|..];
      var i := CutAt(block, '|');
      assert block[..i] == RuleOf(line)[0].name && block[i] == '|';
      if '|' !in name && Hits(name, block) {
        var rest := block[|name| + 1..];
        assert block == name + ['|'] + rest;
        CutAtFirst(name, '|', rest);
      }
      if block[..i] == name {
        assert block[..i + 1] == name + "|";
      }
    }
  }

  predicate Other(name: string, r: Rule) {
    r.name != name
  }

  function Unmarked(name: string): string -> bool {
    line => !Marks(name, line)
  }

  /** What a line that the deleter looks at does to the rules. */
  lemma RulesStep(kept: seq<string>, skip: nat, init: seq<string>, line: string, name: string)
    requires FlatMap(RuleOf, kept) == FlatMap(RuleOf, Filter(Unmarked(name), init))
    ensures FlatMap(RuleOf, ScanLine(kept, skip, line, name).0)
         == FlatMap(RuleOf, Filter(Unmarked(name), init + [line]))
  {
    hide Trim, BlockOf, RuleOf, IsIptables, Marks, FlatMap, Filter, Blank;
    FilterAppend(Unmarked(name), init, line);
    if Marks(name, line) {
      if kept != [] {
        PoppedRule(kept);
      }
    } else {
      if IsIptables(line) {
        CommandIsNoMark(line, name);
      }
      FlatMapAppend(RuleOf, kept, line);
      FlatMapAppend(RuleOf, Filter(Unmarked(name), init), line);
    }
  }

  lemma PoppedRule(kept: seq<string>)
    requires kept != []
    ensures Blank(kept[|kept| - 1]) ==> FlatMap(RuleOf, kept[..|kept| - 1]) == FlatMap(RuleOf, kept)
  {
    hide RuleOf;
    BlankHasNoRule(kept[|kept| - 1]);
  }

  lemma BlankHasNoRule(line: string)
    ensures Blank(line) ==> RuleOf(line) == [] && BlockOf(line) == None && !IsIptables(line)
  {
  }

  lemma {:induction false} RulesWithout(lines: seq<string>, name: string)
    ensures FlatMap(RuleOf, Scan(lines, name).0) == FlatMap(RuleOf, Filter(Unmarked(name), lines))
  {
    hide RuleOf, ScanLine, Unmarked;
    if lines != [] {
      var init, last := lines[..|lines| - 1], lines[|lines| - 1];
      RulesWithout(init, name);
      RulesStep(Scan(init, name).0, Scan(init, name).1, init, last, name);
      assert lines == init + [last];
    }
  }

  /** The lines that are not marked by a name without a separator display the rules of other names. */
  lemma UnmarkedAreOthers(lines: seq<string>, name: string)
    requires '|' !in name
    ensures FlatMap(RuleOf, Filter(Unmarked(name), lines)) == Filter(r => Other(name, r), FlatMap(RuleOf, lines))
  {
    hide RuleOf, Marks, BlockOf, Hits;
    forall l <- lines
      ensures Filter(r => Other(name, r), RuleOf(l)) == if Unmarked(name)(l) then RuleOf(l) else []
    {
      RuleHasBlock(l, name);
      MarksIsHit(name, l);
      if Unmarked(name)(l) {
        FilterAll((r: Rule) => Other(name, r), RuleOf(l));
      } else {
        FilterNone((r: Rule) => Other(name, r), RuleOf(l));
      }
    }
    FlatMapFilterOut(RuleOf, Unmarked(name), (r: Rule) => Other(name, r), lines);
  }

  /** Rendering and scanning again does not change what a reader of trimmed lines sees. */
  lemma RulesRender(lines: seq<string>)
    requires OneLiners(lines)
    ensures Rules(Render(lines)) == FlatMap(RuleOf, lines)
  {
    hide RuleOf;
    if lines == [] {
      ScanNewline();
      EmptyLineSays("");
      assert Render(lines) == "\n" && [""][..0] == [];
    } else {
      ScanRender(lines);
      forall l <- lines ensures RuleOf(DropCR(l)) == RuleOf(l) {
        DropCRSays(l);
      }
      FlatMapMap(RuleOf, DropCR, lines);
    }
  }

  lemma DropCRSays(line: string)
    ensures Trim(DropCR(line)) == Trim(line) && StripCR(DropCR(line)) == StripCR(line)
    ensures RuleOf(DropCR(line)) == RuleOf(line)
  {
    TrimStripCR(line);
    TrimStripCR(DropCR(line));
  }

  lemma {:induction false} ScanOneLine(lines: seq<string>, name: string)
    requires OneLiners(lines)
    ensures OneLiners(Scan(lines, name).0)
  {
    if lines != [] {
      ScanOneLine(lines[..|lines| - 1], name);
    }
  }

  /** In every file and for every name text, deleting leaves the rules of the lines that are not marked
      by it. For a name that a rule can have these are the rules of other names; in particular "web"
      never touches "web2". */
  lemma DeleteFiltersRules(content: string, name: string)
    ensures Rules(Without(content, name)) == FlatMap(RuleOf, Filter(Unmarked(name), ScanLines(content)))
    ensures '|' !in name ==> Rules(Without(content, name)) == Filter(r => Other(name, r), Rules(content))
  {
    hide RuleOf, ScanLines, Scan, Unmarked;
    ScanOneLiners(content);
    ScanOneLine(ScanLines(content), name);
    RulesRender(Scan(ScanLines(content), name).0);
    RulesWithout(ScanLines(content), name);
    if '|' !in name {
      UnmarkedAreOthers(ScanLines(content), name);
    }
  }

  /** In every file, adding a rule appends it. */
  lemma AddAppendsRule(content: string, r: Rule)
    requires Valid(r)
    ensures Rules(content + Block(r)) == Rules(content) + [r]
  {
    hide Valid, RuleOf, ScanLines, Block, Comment, NatLine, LogLine, AcceptLine, IsIptables, Trim, FlatMap;
    var before := ScanLines(content) + (if Terminated(content) then [""] else []);
    AddedLines(content, r);
    CommentSays(r);
    BlockLinesSay(r);
    CommandIsNoMark(NatLine(r), "");
    CommandIsNoMark(LogLine(r), "");
    CommandIsNoMark(AcceptLine(r), "");
    EmptyLineSays("");
    var a := before + [Comment(r)];
    FlatMapConcat(RuleOf, ScanLines(content), if Terminated(content) then [""] else []);
    FlatMapAppend(RuleOf, before, Comment(r));
    FlatMapAppend(RuleOf, a, NatLine(r));
    FlatMapAppend(RuleOf, a + [NatLine(r)], LogLine(r));
    FlatMapAppend(RuleOf, a + [NatLine(r)] + [LogLine(r)], AcceptLine(r));
    FlatMapAppend(RuleOf, [], "");
    assert before + BlockLines(r) == a + [NatLine(r)] + [LogLine(r)] + [AcceptLine(r)];
    NoRules();
    assert [] + [""] == [""];
  }

  lemma NoRules()
    ensures FlatMap(RuleOf, []) == []
  {
  }
}
