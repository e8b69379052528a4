/** What becomes of the custom rules outside the plain case: a file that does not end in a newline, and
    a file that holds iptables commands without a chain. */
module CustomRuleHazards {
  import opened Seqs
  import opened Text
  import opened Validate
  import opened PortForward
  import opened CustomRules
  import opened CustomRuleList
  import opened CustomRuleWords

  // ----- a file that does not end in a newline

  /** The text after the last newline. */
  function LastLine(content: string): string {
    var lines := Split(content, '\n');
    lines[|lines| - 1]
  }

  lemma {:induction false} SplitGlued(s: string, t: string)
    ensures Split(s + t, '\n') == Lines(s) + Split(LastLine(s) + t, '\n')
    ensures Split(s, '\n') == Lines(s) + [LastLine(s)]
    decreases |s|
  {
    hide Split;
    var i := CutAt(s, '\n');
    if i == |s| {
      assert s[..i] == s;
      SplitOne(s, '\n');
    } else {
      var line, rest := s[..i], s[i + 1..];
      assert s == line + ['\n'] + rest && s + t == line + ['\n'] + (rest + t);
      SplitGlued(rest, t);
      SplitCons(line, '\n', rest);
      SplitCons(line, '\n', rest + t);
      assert Lines(s) == [line] + Lines(rest) && LastLine(s) == LastLine(rest);
    }
  }

  /** The first line of an entry, which is glued to the last line of the file. */
  function FirstLineOf(r: FirewallRule): string {
    if r.comment == "" then Command(r) else "# " + r.comment
  }

  lemma GluedLines(f: string, r: FirewallRule)
    requires ValidRule(r) && OneLine(f)
    ensures Split(f + (Entry(r) + "\n"), '\n')
         == [f + FirstLineOf(r)] + (if r.comment == "" then [] else [Command(r)]) + [""]
  {
    hide Split, ValidPort, ValidIface, AddressText, CIDRText, ValidChain, ValidAction, ValidProtocol, Command, Trim;
    CommandLists(r);
    SplitOne("", '\n');
    if r.comment == "" {
      SplitCons(f + Command(r), '\n', "");
      assert f + (Entry(r) + "\n") == f + Command(r) + ['\n'] + "";
    } else {
      var c := f + ("# " + r.comment);
      SplitCons(c, '\n', Command(r) + "\n");
      SplitCons(Command(r), '\n', "");
      assert Command(r) + ['\n'] + "" == Command(r) + "\n";
      assert f + (Entry(r) + "\n") == c + ['\n'] + (Command(r) + "\n");
    }
  }

  /** What the file lists after an entry has been appended, whatever it ended in. */
  lemma GluedLists(content: string, r: FirewallRule)
    requires ValidRule(r)
    ensures Listed(content) == FlatMap(RuleAt, Lines(content)) + RuleAt(LastLine(content))
    ensures Listed(Added(content, r)) ==
            FlatMap(RuleAt, Lines(content)) + RuleAt(LastLine(content) + FirstLineOf(r))
            + (if r.comment == "" then [] else [Normal(r)])
  {
    hide ValidRule, Split, RuleAt, FirstLineOf, Entry, Lines, LastLine, Command, FlatMap, Normal;
    var f := LastLine(content);
    var before := Lines(content);
    SplitGlued(content, Entry(r) + "\n");
    LastIsOneLine(content);
    GluedLines(f, r);
    CommandLists(r);
    EmptyLineLists();
    assert Added(content, r) == content + (Entry(r) + "\n");
    FlatMapAppend(RuleAt, before, f);
    var a := before + [f + FirstLineOf(r)];
    FlatMapAppend(RuleAt, before, f + FirstLineOf(r));
    FlatMapAppend(RuleAt, a, "");
    FlatMapAppend(RuleAt, a, Command(r));
    FlatMapAppend(RuleAt, a + [Command(r)], "");
    assert before + ([f + FirstLineOf(r)] + [] + [""]) == a + [""];
    assert before + ([f + FirstLineOf(r)] + [Command(r)] + [""]) == a + [Command(r)] + [""];
  }

  lemma LastIsOneLine(content: string)
    ensures OneLine(LastLine(content))
  {
    hide Split;
    SplitParts(content, '\n');
  }

  /** Trimming a text glued to another one. */
  lemma GlueTrim(f: string, t: string) returns (spaces: string)
    requires t != "" && !IsSpace(t[0]) && !Blank(f)
    ensures (forall c <- spaces :: IsSpace(c)) && Trim(f + t) == Trim(f) + (spaces + TrimRight(t))
    ensures TrimRight(t) != "" && TrimRight(t)[0] == t[0]
  {
    var h := TrimRight(f);
    spaces := RightSpaces(f);
    TrimRightStart(t);
    TrimRightGlue(f, t);
    TrimRightNoTrailing(f);
    LeftGlue(h, spaces + TrimRight(t));
    assert f + TrimRight(t) == h + (spaces + TrimRight(t));
  }

  lemma TrimRightGlue(f: string, t: string)
    requires t != "" && !IsSpace(t[0])
    ensures TrimRight(f + t) == f + TrimRight(t)
  {
    hide IsSpace, TrimRight;
    var head, tail := f + [t[0]], t[1..];
    assert t == [t[0]] + tail;
    assert f + t == head + tail;
    TrimRightKeeps(head, tail);
    TrimRightKeeps([t[0]], tail);
  }

  /** Glueing makes no iptables line of a line that is none and not blank. */
  lemma GluedIsNoCommand(f: string, t: string)
    requires t != "" && (t[0] == '#' || t[0] == 'i') && !Blank(f) && !IsIptables(f)
    ensures !IsIptables(f + t)
  {
    hide Trim, TrimRight;
    if IsIptables(f + t) {
      var spaces := GlueTrim(f, t);
      var u, rest := Trim(f), spaces + TrimRight(t);
      assert u != "" && IPTABLES <= u + rest;
      assert rest[0] == if spaces == "" then t[0] else spaces[0];
      if |u| < |IPTABLES| {
        assert (u + rest)[|u|] == rest[0];
        assert IPTABLES[|u|] == rest[0];
        NoSpaceInside(|u|);
      }
    }
  }

  lemma NoSpaceInside(k: nat)
    requires 0 < k < |IPTABLES|
    ensures !IsSpace(IPTABLES[k]) && IPTABLES[k] != '#' && IPTABLES[k] != 'i'
  {
  }

  /** The line has no chain, and the rule sets every field that one of its words is a flag of, apart from
      a last word that the command is glued to. */
  predicate CommandFits(f: string, r: FirewallRule) {
    Given(Fields(f), Chain) == "" && forall field: Field :: Covers(Normal(r), f, field)
  }

  lemma GluedCommand(f: string, r: FirewallRule)
    requires ValidRule(r) && IsIptables(f)
    ensures RuleAt(f + Command(r)) == RuleAt(f) + [Normal(r)] <==> CommandFits(f, r)
  {
    hide ValidRule, Command, Normal, Parsed, Trim, Covers, Get, Given, Fields;
    CommandLists(r);
    WordsOfCommand(r);
    GluedIsCommand(f, Command(r));
    RuleAtIs(f);
    RuleAtIs(f + Command(r));
    ParsedGives(f, Chain);
    ChainIsGot(Parsed(f));
    forall field: Field
      ensures Get(Parsed(f + Command(r)), field) == Get(Normal(r), field) <==> Covers(Normal(r), f, field)
    {
      CommandBehind(f, r, field);
    }
    CommandBehind(f, r, Chain);
    ParsedGives(f + Command(r), Chain);
    NormalHasNoComment(r);
    SameRules(Parsed(f + Command(r)), Normal(r));
    if Parsed(f).chain != "" {
      assert |RuleAt(f) + [Normal(r)]| == 2;
    } else {
      assert RuleAt(f) + [Normal(r)] == [Normal(r)];
    }
  }

  lemma NormalHasNoComment(r: FirewallRule)
    ensures Normal(r).comment == ""
  {
  }

  lemma ChainIsGot(r: FirewallRule)
    ensures Get(r, Chain) == r.chain
  {
  }

  lemma WordsOfCommand(r: FirewallRule)
    requires ValidRule(r)
    ensures Command(r) != "" && !IsSpace(Command(r)[0]) && Command(r)[0] == 'i'
  {
    hide ValidRule, Command, Trim;
    CommandLists(r);
    assert Command(r)[..|IPTABLES|][0] == IPTABLES[0];
  }

  /** A line reads like its trimmed text. */
  lemma RuleAtIs(line: string)
    requires IsIptables(line)
    ensures RuleAt(line) == if Parsed(line).chain == "" then [] else [Parsed(line)]
  {
    hide Trim, Fields, ParseWords;
    FieldsTrim(line);
  }

  lemma GluedIsCommand(f: string, t: string)
    requires IsIptables(f) && t != "" && !IsSpace(t[0])
    ensures IsIptables(f + t)
  {
    hide Trim, TrimRight, IsSpace;
    NothingIsBlank(f);
    var spaces := GlueTrim(f, t);
  }

  lemma NothingIsBlank(f: string)
    requires IsIptables(f)
    ensures !Blank(f)
  {
    hide Trim;
  }

  /** The comment leaves the chain of the line as it is and, if the line has one, its other fields too. */
  predicate CommentFits(f: string, c: string) {
    Agrees(f, c, Chain) && (Given(Fields(f), Chain) == "" || forall field: Field :: Agrees(f, c, field))
  }

  lemma GluedComment(f: string, c: string)
    requires IsIptables(f)
    ensures RuleAt(f + "# " + c) == RuleAt(f) <==> CommentFits(f, c)
  {
    hide Parsed, Trim, Agrees, Get, Given, Fields, IsIptables;
    assert f + "# " + c == f + ("# " + c);
    HashStarts(c);
    GluedIsCommand(f, "# " + c);
    RuleAtIs(f);
    RuleAtIs(f + "# " + c);
    forall field: Field
      ensures Get(Parsed(f + "# " + c), field) == Get(Parsed(f), field) <==> Agrees(f, c, field)
    {
      CommentBehind(f, c, field);
    }
    ParsedGives(f, Chain);
    ParsedGives(f + "# " + c, Chain);
    ChainIsGot(Parsed(f));
    ChainIsGot(Parsed(f + "# " + c));
    SameRules(Parsed(f + "# " + c), Parsed(f));
  }

  lemma HashStarts(c: string)
    ensures "# " + c != "" && !IsSpace(("# " + c)[0])
  {
  }

  /** For every file, the new rule is displayed behind the old ones exactly when the line it is glued to
      allows it. Without a comment that line has to be blank, or an iptables line without a chain that
      gives no field which the rule leaves open. With a comment it must not be an iptables line, unless
      the comment leaves what the line says as it is: where the comment has a flag it repeats the line,
      and elsewhere the hash sign touches neither a flag nor its value. */
  lemma AddExact(content: string, r: FirewallRule)
    requires ValidRule(r)
    ensures var f := LastLine(content);
            Listed(Added(content, r)) == Listed(content) + [Normal(r)] <==>
            if r.comment == ""
            then Blank(f) || (IsIptables(f) && CommandFits(f, r))
            else !IsIptables(f) || CommentFits(f, r.comment)
  {
    hide ValidRule, RuleAt, Listed, Added, Lines, LastLine, Command, Normal, IsIptables, Trim, Blank, CommandFits,
      CommentFits;
    var f := LastLine(content);
    GluedLists(content, r);
    GluedRule(f, r);
    var before, said := FlatMap(RuleAt, Lines(content)), RuleAt(f);
    if r.comment == "" {
      var joined := RuleAt(f + Command(r));
      assert before + joined + [] == before + joined;
      SameBehind(before, joined, said, [Normal(r)]);
      if IsIptables(f) {
        GluedCommand(f, r);
      } else {
        assert [] + [Normal(r)] == [Normal(r)];
      }
    } else {
      assert f + ("# " + r.comment) == f + "# " + r.comment;
      SameBetween(before, RuleAt(f + "# " + r.comment), said, [Normal(r)]);
      if IsIptables(f) {
        GluedComment(f, r.comment);
      }
    }
  }

  lemma GluedRule(f: string, r: FirewallRule)
    requires ValidRule(r)
    ensures var first := FirstLineOf(r);
            && (Blank(f) ==> RuleAt(f + first) == (if r.comment == "" then [Normal(r)] else []) && RuleAt(f) == [])
            && (!Blank(f) && !IsIptables(f) ==> RuleAt(f + first) == [] && RuleAt(f) == [])
            && |RuleAt(f + first)| <= 1
            && (IsIptables(f) ==> !Blank(f))
  {
    hide ValidRule, Command, Normal, Parsed;
    var first := FirstLineOf(r);
    CommandLists(r);
    RuleAtSize(f + first);
    if Blank(f) {
      if r.comment == "" {
        TrimIsTrimmed(Command(r));
        TrimBlankPrefix(f, Command(r));
      } else {
        BlankComment(f, r.comment);
      }
    } else if !IsIptables(f) {
      GluedIsNoCommand(f, first);
    }
  }

  lemma BlankComment(f: string, c: string)
    requires Blank(f)
    ensures !IsIptables(f + ("# " + c)) && RuleAt(f) == []
  {
    var t := "# " + c;
    BlankAllSpace(f);
    TrimRightStart(t);
    TrimRightGlue(f, t);
    TrimLeftSpaces(f, TrimRight(t));
    assert Trim(f + t)[0] == '#' && IPTABLES[0] == 'i';
  }

  /** A rule appended to a file that ends in a rule without a newline is not displayed, unless its comment
      happens to repeat the action of that rule, flag included. */
  lemma GluedLost(a: FirewallRule, b: FirewallRule)
    requires ValidRule(a) && ValidRule(b) && (b.comment == "" || "-j" !in Fields(b.comment))
    ensures Listed(Command(a)) == [Normal(a)]
    ensures Listed(Added(Command(a), b)) != Listed(Command(a)) + [Normal(b)]
  {
    hide ValidRule, Listed, Added, LastLine, Command, Normal, IsIptables, Trim, Blank, Fields, Given, Agrees, Covers,
      RuleAt, Split;
    CommandLists(a);
    OnlyLine(Command(a));
    NothingIsBlank(Command(a));
    AddExact(Command(a), b);
    ChainOfCommand(a);
    if b.comment != "" {
      ActionHurt(a, b.comment);
    }
  }

  lemma OnlyLine(f: string)
    requires OneLine(f)
    ensures LastLine(f) == f && Listed(f) == RuleAt(f)
  {
    hide Split, RuleAt;
    SplitOne(f, '\n');
    FlatMapAppend(RuleAt, [], f);
    assert [] + [f] == [f] && [] + RuleAt(f) == RuleAt(f);
  }

  lemma ChainOfCommand(a: FirewallRule)
    requires ValidRule(a)
    ensures Given(Fields(Command(a)), Chain) != ""
  {
    hide ValidRule, Given, Fields, Command, Normal, Parsed, Values;
    ValidHasValues(a);
    ValuesHaveChain(a);
    ParserInvertsPrinter(a);
    ParsedGives(Command(a), Chain);
    ChainIsGot(Normal(a));
  }

  /** The hash sign is glued to the action of the line. */
  lemma ActionHurt(a: FirewallRule, c: string)
    requires ValidRule(a) && "-j" !in Fields(c)
    ensures !Agrees(Command(a), c, Action)
  {
    hide ValidRule, Fields, Given, Values, Words, Command, Plain;
    ValidHasValues(a);
    WordsArePlain(a);
    WordsStart(a);
    ActionLast(a);
    FieldsOfCommand(a);
    assert !HasFlag(Fields(c), Action);
    ClosedCommand(a);
  }

  lemma FieldsOfCommand(a: FirewallRule)
    requires Words(a) != [] && AllPlain(Words(a))
    ensures Fields(Command(a)) == Words(a)
  {
    hide Fields, Words, Plain;
    FieldsJoin(Words(a));
  }

  lemma ActionLast(a: FirewallRule)
    requires Values(a)
    ensures |Words(a)| > 1 && Words(a)[|Words(a)| - 2] == "-j"
  {
  }

  lemma ClosedCommand(a: FirewallRule)
    requires ValidRule(a)
    ensures !Open(Command(a))
  {
    hide ValidRule, Values, Words, AllPlain, JoinBy;
    ValidHasValues(a);
    WordsArePlain(a);
    WordsStart(a);
    PlainJoin(Words(a));
  }

  // ----- a file whose first command has no chain

  /** A script that flushes the tables before its first rule. */
  function FlushFirst(r: FirewallRule): string {
    "iptables -F" + "\n" + (Command(r) + "\n")
  }

  lemma FlushLists()
    ensures IsIptables("iptables -F") && RuleAt("iptables -F") == [] && OneLine("iptables -F")
  {
    hide Trim, Fields;
    FieldsJoin(["iptables", "-F"]);
    assert ["iptables", "-F"][1..] == ["-F"] && ["-F"][1..] == [];
    assert JoinBy(["iptables", "-F"], ' ') == "iptables" + [' '] + "-F" == "iptables -F";
    TrimmedStays("iptables -F");
    assert ParseWords(NoRule, ["-F"]) == ParseWords(NoRule, []);
    assert ParseWords(NoRule, ["iptables", "-F"]) == ParseWords(NoRule, ["-F"]);
  }

  lemma FlushLines(r: FirewallRule)
    requires ValidRule(r)
    ensures Split(FlushFirst(r), '\n') == [] + ["iptables -F"] + [Command(r)] + [""]
  {
    hide ValidRule, Split, Command, Trim, RuleAt;
    FlushLists();
    CommandLists(r);
    SplitCons("iptables -F", '\n', Command(r) + "\n");
    SplitCons(Command(r), '\n', "");
    SplitOne("", '\n');
    assert FlushFirst(r) == "iptables -F" + ['\n'] + (Command(r) + "\n");
    assert Command(r) + ['\n'] + "" == Command(r) + "\n";
  }

  /** What a list of lines lists, one line more at a time. */
  lemma FlushListed(r: FirewallRule)
    requires ValidRule(r)
    ensures var lines := [] + ["iptables -F"] + [Command(r)] + [""];
            && FlatMap(RuleAt, lines) == [Normal(r)]
            && Filter(IsIptables, lines) == ["iptables -F", Command(r)]
            && Remaining(lines, 0) == [Command(r)] + [""]
  {
    hide ValidRule, RuleAt, IsIptables, Command, Remaining, Filter, FlatMap, Trim;
    FlushLists();
    CommandLists(r);
    EmptyLineLists();
    NoLines();
    var a := [] + ["iptables -F"];
    FlatMapAppend(RuleAt, [], "iptables -F");
    FlatMapAppend(RuleAt, a, Command(r));
    FlatMapAppend(RuleAt, a + [Command(r)], "");
    RemainingSnoc([], "iptables -F", 0);
    RemainingSnoc(a, Command(r), 0);
    RemainingSnoc(a + [Command(r)], "", 0);
    FilterAppend(IsIptables, [], "iptables -F");
    FilterAppend(IsIptables, a, Command(r));
    FilterAppend(IsIptables, a + [Command(r)], "");
    CommandsCount(a);
    CommandsCount(a + [Command(r)]);
    assert [] + [Command(r)] == [Command(r)] && [] + ["iptables -F"] == ["iptables -F"];
  }

  /** Deleting its only displayed rule, number 0, takes the flush and leaves the rule. */
  lemma FlushDeleted(r: FirewallRule)
    requires ValidRule(r)
    ensures var content := FlushFirst(r);
            && Listed(content) == [Normal(r)]
            && Listed(Removed(content, 0)) == [Normal(r)]
            && Filter(IsIptables, Split(Removed(content, 0), '\n')) == [Command(r)]
  {
    hide ValidRule, Split, RuleAt, IsIptables, Command, Removed, Remaining, Filter, FlatMap, FlushFirst, Normal;
    FlushLines(r);
    FlushListed(r);
    RemovedLists(FlushFirst(r), 0);
    FlatMapAppend(RuleAt, [Command(r)], "");
    FlatMapAppend(RuleAt, [], Command(r));
    EmptyLineLists();
    CommandLists(r);
    NoLines();
    assert [] + [Command(r)] == [Command(r)];
    DeleteKeepsLines(FlushFirst(r), 0);
  }

  lemma NoLines()
    ensures Commands([]) == 0 && Remaining([], 0) == [] && FlatMap(RuleAt, []) == [] && Filter(IsIptables, []) == []
  {
  }
}
