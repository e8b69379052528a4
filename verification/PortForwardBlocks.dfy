/** The port-forward script behaves like a list of blocks: adding appends one, deleting filters by
    name, and deleting what was just added gives the file back byte for byte. */
module PortForwardBlocks {
  import opened Text
  import opened Validate
  import opened PortForward

  // ----- what the lines of a block say

  /** The parts with the separator between them. */
  function Separated(parts: seq<string>, sep: char): seq<string> {
    if |parts| <= 1 then parts else [parts[0], [sep]] + Separated(parts[1..], sep)
  }

  lemma {:induction false} JoinConcat(parts: seq<string>, sep: char)
    ensures JoinBy(parts, sep) == Concat(Separated(parts, sep))
  {
    if |parts| == 1 {
      assert Concat(parts) == parts[0] + "";
    } else if |parts| > 1 {
      var rest := Separated(parts[1..], sep);
      JoinConcat(parts[1..], sep);
      assert ([parts[0], [sep]] + rest)[1..] == [[sep]] + rest && ([[sep]] + rest)[1..] == rest;
      assert parts[0] + ([sep] + Concat(rest)) == parts[0] + [sep] + Concat(rest);
    }
  }

  function FieldsOf(r: Rule): seq<string> {
    [r.name, r.protocol, r.extPort, r.intIP, r.intPort]
  }

  lemma FieldsSeparated(r: Rule)
    ensures JoinBy(FieldsOf(r), '|') ==
            Concat([r.name, "|", r.protocol, "|", r.extPort, "|", r.intIP, "|", r.intPort])
    ensures JoinBy(FieldsOf(r), '|') == r.name + ("|" + JoinBy(FieldsOf(r)[1..], '|'))
  {
    var f := FieldsOf(r);
    var f1, f2, f3, f4 := f[1..], f[2..], f[3..], f[4..];
    assert f1[1..] == f2 && f2[1..] == f3 && f3[1..] == f4;
    assert Separated(f4, '|') == [r.intPort];
    assert Separated(f3, '|') == [r.intIP, "|", r.intPort];
    assert Separated(f2, '|') == [r.extPort, "|", r.intIP, "|", r.intPort];
    assert Separated(f1, '|') == [r.protocol, "|", r.extPort, "|", r.intIP, "|", r.intPort];
    JoinConcat(f, '|');
  }

  lemma FieldsSay(r: Rule)
    requires Valid(r)
    ensures forall p <- FieldsOf(r) :: '|' !in p
    ensures OneLine(JoinBy(FieldsOf(r), '|')) && JoinBy(FieldsOf(r), '|') != ""
    ensures NoTrailingSpace(JoinBy(FieldsOf(r), '|'))
  {
    hide Valid, JoinBy, Concat;
    ValidHasWords(r);
    FieldsSeparated(r);
    ConcatSays([r.name, "|", r.protocol, "|", r.extPort, "|", r.intIP, "|", r.intPort]);
  }

  lemma CommentText(r: Rule)
    requires Valid(r)
    ensures OneLine(Comment(r)) && Trim(Comment(r)) == Comment(r)
    ensures PF <= Comment(r) && Comment(r)[|PF|..] == JoinBy(FieldsOf(r), '|')
    ensures Marks(r.name, Comment(r))
  {
    hide Valid, JoinBy, Trim;
    FieldsSay(r);
    FieldsSeparated(r);
    var j := JoinBy(FieldsOf(r), '|');
    assert Comment(r) == PF + j;
    TrimmedStays(PF + j);
    assert PF + j == Marker(r.name) + JoinBy(FieldsOf(r)[1..], '|');
  }

  /** The comment as the convention has it. */
  lemma CommentFormat(r: Rule)
    ensures Comment(r) == "# PF: " + r.name + "|" + r.protocol + "|" + r.extPort + "|" + r.intIP + "|" + r.intPort
  {
    hide JoinBy;
    JoinFive(r.name, r.protocol, r.extPort, r.intIP, r.intPort);
    var rest := r.protocol + "|" + (r.extPort + "|" + (r.intIP + "|" + r.intPort));
    assert "# PF: " + (r.name + "|" + rest) == "# PF: " + r.name + "|" + rest;
    assert "# PF: " + r.name + "|" + rest
        == "# PF: " + r.name + "|" + r.protocol + "|" + (r.extPort + "|" + (r.intIP + "|" + r.intPort));
  }

  lemma JoinFive(a: string, b: string, c: string, d: string, e: string)
    ensures JoinBy([a, b, c, d, e], '|') == a + "|" + (b + "|" + (c + "|" + (d + "|" + e)))
  {
    assert [a, b, c, d, e][1..] == [b, c, d, e] && [b, c, d, e][1..] == [c, d, e];
    assert [c, d, e][1..] == [d, e] && [d, e][1..] == [e];
    assert JoinBy([d, e], '|') == d + "|" + JoinBy([e], '|');
    assert JoinBy([c, d, e], '|') == c + "|" + JoinBy([d, e], '|');
    assert JoinBy([b, c, d, e], '|') == b + "|" + JoinBy([c, d, e], '|');
  }

  /** What the reader makes of any comment line: the first five fields, if there are as many. */
  lemma CommentReads(fields: seq<string>)
    requires fields != [] && (forall f <- fields :: '|' !in f) && NoTrailingSpace("# PF: " + JoinBy(fields, '|'))
    ensures RuleOf("# PF: " + JoinBy(fields, '|')) ==
            if |fields| < 5 then [] else [Rule(fields[0], fields[1], fields[2], fields[3], fields[4])]
  {
    hide JoinBy, Split, Trim;
    CommentBody(JoinBy(fields, '|'));
    SplitJoin(fields, '|');
  }

  lemma CommentBody(body: string)
    requires NoTrailingSpace("# PF: " + body)
    ensures var line := "# PF: " + body; Trim(line) == line && PF <= line && line[|PF|..] == body
  {
    hide Trim;
    var line := "# PF: " + body;
    assert line[0] == '#';
    TrimmedStays(line);
  }

  /** The reader gets back the rule that the comment was written for. */
  lemma CommentSays(r: Rule)
    requires Valid(r)
    ensures RuleOf(Comment(r)) == [r]
  {
    hide Valid, JoinBy, Trim, Split;
    CommentText(r);
    FieldsSay(r);
    SplitJoin(FieldsOf(r), '|');
  }

  lemma CommandText(parts: seq<string>)
    requires |parts| > 1 && OneLiners(parts) && "iptables" <= parts[0]
    requires parts[|parts| - 1] != "" && NoTrailingSpace(parts[|parts| - 1])
    ensures OneLine(Concat(parts)) && Trim(Concat(parts)) == Concat(parts) && IsIptables(Concat(parts))
  {
    ConcatSays(parts);
    assert Concat(parts)[0] == parts[0][0];
    TrimmedStays(Concat(parts));
  }

  predicate Command(line: string) {
    OneLine(line) && Trim(line) == line && IsIptables(line)
  }

  lemma BlockLinesSay(r: Rule)
    requires Valid(r)
    ensures Command(NatLine(r)) && Command(LogLine(r)) && Command(AcceptLine(r))
  {
    hide Valid, Word, Trim, Concat;
    ValidHasWords(r);
    NatSays(r);
    LogSays(r);
    AcceptSays(r);
  }

  lemma PiecesSay()
    ensures OneLine(NatHead()) && OneLine(ForwardHead()) && OneLine(DnatTo()) && OneLine(LogTo())
    ensures IPTABLES <= NatHead() && IPTABLES <= ForwardHead()
    ensures OneLine(AcceptTail()) && AcceptTail() != "" && NoTrailingSpace(AcceptTail())
  {
    hide OneLine, NoTrailingSpace, NatHead, ForwardHead, DnatTo, LogTo, AcceptTail;
    HeadsSay();
    MiddlesSay();
    TailSays();
  }

  lemma HeadsSay()
    ensures OneLine(NatHead()) && OneLine(ForwardHead())
    ensures IPTABLES <= NatHead() && IPTABLES <= ForwardHead()
  {
    hide OneLine, NatHead, ForwardHead;
    NatHeadSays();
    ForwardHeadSays();
  }

  lemma NatHeadSays()
    ensures OneLine(NatHead()) && IPTABLES <= NatHead()
  {
    assert OneLine("iptables -t nat -A") && OneLine(" PREROUTING -i ppp0 -p ");
    assert IPTABLES <= "iptables -t nat -A";
  }

  lemma ForwardHeadSays()
    ensures OneLine(ForwardHead()) && IPTABLES <= ForwardHead()
  {
    assert OneLine("iptables -A FORWARD") && OneLine(" -i ppp0 -o lan -p ");
    assert IPTABLES <= "iptables -A FORWARD";
  }

  lemma MiddlesSay()
    ensures OneLine(DnatTo()) && OneLine(LogTo())
  {
  }

  lemma TailSays()
    ensures OneLine(AcceptTail()) && AcceptTail() != "" && NoTrailingSpace(AcceptTail())
  {
  }

  lemma NatSays(r: Rule)
    requires Word(r.protocol) && Word(r.extPort) && Word(r.intIP) && Word(r.intPort)
    ensures Command(NatLine(r))
  {
    hide Trim, Concat, NatHead, ForwardHead, DnatTo, LogTo, AcceptTail;
    PiecesSay();
    CommandText([NatHead(), r.protocol, " --dport ", r.extPort, DnatTo(), r.intIP, ":", r.intPort]);
  }

  lemma LogSays(r: Rule)
    requires Word(r.protocol) && Word(r.intIP) && Word(r.intPort) && NoSpace(ToUpper(r.name))
    ensures Command(LogLine(r))
  {
    hide Trim, Concat, ToUpper, NatHead, ForwardHead, DnatTo, LogTo, AcceptTail;
    PiecesSay();
    CommandText([ForwardHead(), r.protocol, " -d ", r.intIP, " --dport ", r.intPort, LogTo(), ToUpper(r.name), ": \""]);
  }

  lemma AcceptSays(r: Rule)
    requires Word(r.protocol) && Word(r.intIP) && Word(r.intPort)
    ensures Command(AcceptLine(r))
  {
    hide Trim, Concat, NatHead, ForwardHead, DnatTo, LogTo, AcceptTail;
    PiecesSay();
    CommandText([ForwardHead(), r.protocol, " -d ", r.intIP, " --dport ", r.intPort, AcceptTail()]);
  }

  // ----- what adding appends

  lemma {:induction false} ScanTerminate(s: string)
    requires !Terminated(s)
    ensures ScanLines(s + "\n") == ScanLines(s)
    decreases |s|
  {
    hide ScanLines;
    var i := CutAt(s, '\n');
    if i == |s| {
      assert s[..i] == s;
      ScanOne(s);
      ScanNothing();
      ScanCons(s, "");
      assert s + "\n" == s + "\n" + "";
    } else {
      var line, rest := s[..i], s[i + 1..];
      assert s == line + "\n" + rest;
      ScanTerminate(rest);
      ScanCons(line, rest);
      ScanCons(line, rest + "\n");
      assert s + "\n" == line + "\n" + (rest + "\n");
    }
  }

  lemma ScanCommand(line: string, rest: string)
    requires OneLine(line) && Trim(line) == line
    ensures ScanLines(line + "\n" + rest) == [line] + ScanLines(rest)
  {
    hide ScanLines;
    ScanCons(line, rest);
    TrimIsTrimmed(line);
  }

  lemma ScanBlockLines(r: Rule)
    requires Valid(r)
    ensures Block(r) == "\n" + BlockText(r) && ScanLines(BlockText(r)) == BlockLines(r)
  {
    hide Valid, Comment, NatLine, LogLine, AcceptLine, ScanLines, Trim;
    CommentText(r);
    BlockLinesSay(r);
    ScanCommand(Comment(r), NatLine(r) + "\n" + (LogLine(r) + "\n" + (AcceptLine(r) + "\n" + "")));
    ScanCommand(NatLine(r), LogLine(r) + "\n" + (AcceptLine(r) + "\n" + ""));
    ScanCommand(LogLine(r), AcceptLine(r) + "\n" + "");
    ScanCommand(AcceptLine(r), "");
    ScanNothing();
  }

  function BlockText(r: Rule): string {
    Comment(r) + "\n" + (NatLine(r) + "\n" + (LogLine(r) + "\n" + (AcceptLine(r) + "\n" + "")))
  }

  /** The blank line is only there when the file ended in a newline. */
  lemma AddedLines(content: string, r: Rule)
    requires Valid(r)
    ensures ScanLines(content + Block(r)) ==
            ScanLines(content) + (if Terminated(content) then [""] else []) + BlockLines(r)
  {
    hide Valid, ScanLines, Block, BlockText, BlockLines;
    ScanBlockLines(r);
    assert content + Block(r) == content + "\n" + BlockText(r);
    ScanAppend(content + "\n", BlockText(r));
    if Terminated(content) {
      ScanAppend(content, "\n");
      ScanNewline();
    } else {
      ScanTerminate(content);
      assert ScanLines(content) + [] == ScanLines(content);
    }
  }

  lemma ScanNewline()
    ensures ScanLines("\n") == [""]
  {
    ScanCons("", "");
    assert "" + "\n" + "" == "\n";
  }

  // ----- deleting

  lemma ScanSnoc(lines: seq<string>, line: string, name: string)
    ensures Scan(lines + [line], name) == ScanLine(Scan(lines, name).0, Scan(lines, name).1, line, name)
  {
    assert (lines + [line])[..|lines|] == lines;
  }

  lemma ScanNil(name: string)
    ensures Scan([], name) == ([], 0)
  {
  }

  lemma {:induction false} ScanKeeps(lines: seq<string>, name: string)
    requires forall i | 0 <= i < |lines| :: !Marks(name, lines[i])
    ensures Scan(lines, name) == (lines, 0)
  {
    hide Marks, Scan;
    if lines == [] {
      ScanNil(name);
    } else {
      var init, last := lines[..|lines| - 1], lines[|lines| - 1];
      ScanKeeps(init, name);
      ScanSnoc(init, last, name);
      assert lines == init + [last];
    }
  }

  lemma CommandIsNoMark(line: string, name: string)
    requires IsIptables(line)
    ensures !Marks(name, line) && RuleOf(line) == []
  {
    hide Trim, Split;
    assert IPTABLES[0] == Trim(line)[0];
    assert Marker(name)[0] == '#';
  }

  /** A whole block leaves no trace. */
  lemma ScanBlock(lines: seq<string>, r: Rule)
    requires Valid(r)
    ensures Scan(lines + [""] + BlockLines(r), r.name) == (Scan(lines, r.name).0, 0)
  {
    hide Valid, Scan, Comment, NatLine, LogLine, AcceptLine, IsIptables, Trim;
    var n := r.name;
    CommentText(r);
    BlockLinesSay(r);
    CommandIsNoMark(NatLine(r), n);
    CommandIsNoMark(LogLine(r), n);
    CommandIsNoMark(AcceptLine(r), n);
    EmptyLineSays(n);
    var s0 := lines + [""];
    var s1 := s0 + [Comment(r)];
    var s2 := s1 + [NatLine(r)];
    var s3 := s2 + [LogLine(r)];
    ScanSnoc(lines, "", n);
    ScanSnoc(s0, Comment(r), n);
    ScanSnoc(s1, NatLine(r), n);
    ScanSnoc(s2, LogLine(r), n);
    ScanSnoc(s3, AcceptLine(r), n);
    assert s0 + BlockLines(r) == s3 + [AcceptLine(r)];
  }

  lemma EmptyLineSays(name: string)
    ensures Blank("") && !IsIptables("") && !Marks(name, "") && RuleOf("") == []
  {
  }

  /** Deleting what was just added gives the file back byte for byte, exactly when the file is not
      empty, ends in a newline and has no line ending in a carriage return. */
  lemma DeleteUndoesAdd(content: string, r: Rule)
    requires Valid(r) && forall l <- ScanLines(content) :: !Marks(r.name, l)
    ensures Without(content + Block(r), r.name) == content
       <==> content != "" && Terminated(content) && NoCRLF(content)
  {
    hide Valid, ScanLines, Block, Scan, Marks, Join, NoCRLF;
    var w := Without(content + Block(r), r.name);
    assert w[|w| - 1] == '\n';
    if Terminated(content) {
      DeleteAfterAdd(content, r);
      ScanKeeps(ScanLines(content), r.name);
      RenderScan(content);
    }
  }

  /** Adding a rule makes no difference to a file from which that name is then deleted. */
  lemma DeleteAfterAdd(content: string, r: Rule)
    requires Valid(r) && Terminated(content)
    ensures Without(content + Block(r), r.name) == Without(content, r.name)
  {
    hide Valid, ScanLines, Block, Scan, Render;
    AddedLines(content, r);
    ScanBlock(ScanLines(content), r);
  }
}
