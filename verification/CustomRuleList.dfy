/** The parser of a custom rule inverts its printer, and the custom-rule script behaves like the list
    of its rules. */
module CustomRuleList {
  import opened Seqs
  import opened Text
  import opened Options
  import opened Validate
  import opened PortForward
  import opened CustomRules

  // ----- the parser inverts the printer

  predicate Plain(word: string) {
    word != "" && NoSpace(word)
  }

  predicate Dashed(word: string) {
    word != "" && word[0] == '-'
  }

  lemma {:induction false} WordEndOf(word: string, rest: string)
    requires NoSpace(word) && (rest == "" || IsSpace(rest[0]))
    ensures WordEnd(word + rest) == |word|
  {
    if word == "" {
      assert word + rest == rest;
    } else {
      assert (word + rest)[1..] == word[1..] + rest;
      WordEndOf(word[1..], rest);
    }
  }

  lemma FieldsCons(word: string, rest: string)
    requires Plain(word)
    ensures Fields(word + " " + rest) == [word] + Fields(rest)
  {
    var s := word + (" " + rest);
    assert word + " " + rest == s;
    WordEndOf(word, " " + rest);
    assert s[..|word|] == word && s[|word|..] == " " + rest;
    assert (" " + rest)[1..] == rest;
    assert Fields(" " + rest) == Fields(rest);
  }

  lemma FieldsOne(word: string)
    requires Plain(word)
    ensures Fields(word) == [word]
  {
    WordEndOf(word, "");
    assert word + "" == word && word[..|word|] == word && word[|word|..] == "";
  }

  lemma {:induction false} FieldsJoin(words: seq<string>)
    requires words != [] && forall w <- words :: Plain(w)
    ensures Fields(JoinBy(words, ' ')) == words
  {
    hide Plain, Fields;
    if |words| == 1 {
      FieldsOne(words[0]);
    } else {
      FieldsJoin(words[1..]);
      FieldsCons(words[0], JoinBy(words[1..], ' '));
      assert [words[0]] + words[1..] == words;
    }
  }

  lemma {:induction false} ParseConcat(r: FirewallRule, a: seq<string>, b: seq<string>)
    requires a != [] && !Dashed(a[|a| - 1])
    ensures ParseWords(r, a + b) == ParseWords(ParseWords(r, a), b)
    decreases |a|
  {
    assert (a + b)[1..] == a[1..] + b;
    if |a| == 1 {
      assert a[1..] + b == b;
    } else {
      ParseConcat(SetField(r, a[0], a[1]), a[1..], b);
    }
  }

  lemma WordSetsNothing(r: FirewallRule, word: string, next: string)
    requires !Dashed(word)
    ensures SetField(r, word, next) == r
  {
  }

  lemma ParsePair(r: FirewallRule, flag: string, value: string)
    requires !Dashed(value)
    ensures ParseWords(r, [flag, value]) == SetField(r, flag, value)
  {
    hide SetField;
    assert [flag, value][1..] == [value] && [value][1..] == [];
    WordSetsNothing(SetField(r, flag, value), value, "");
    assert ParseWords(r, [flag, value]) == ParseWords(SetField(r, flag, value), [value]);
    assert ParseWords(SetField(r, flag, value), [value]) == ParseWords(SetField(r, flag, value), []);
  }

  lemma ParseOpt(words: seq<string>, flag: string, value: string)
    requires words != [] && !Dashed(words[|words| - 1]) && !Dashed(value)
    ensures var all := words + Opt(flag, value);
            ParseWords(NoRule, all) ==
            (if value == "" then ParseWords(NoRule, words) else SetField(ParseWords(NoRule, words), flag, value))
            && !Dashed(all[|all| - 1])
  {
    hide ParseWords, SetField;
    if value == "" {
      assert words + [] == words;
    } else {
      ParseConcat(NoRule, words, [flag, value]);
      ParsePair(ParseWords(NoRule, words), flag, value);
    }
  }

  /** What a printed rule reads back as. */
  function Normal(r: FirewallRule): FirewallRule {
    r.(comment := "", protocol := if r.protocol == "all" then "" else r.protocol)
  }

  /** An option value that is one word and not mistaken for a flag. */
  predicate Value(value: string) {
    NoSpace(value) && !Dashed(value)
  }

  predicate Values(r: FirewallRule) {
    && Value(r.chain) && Value(r.protocol) && Value(r.inIface) && Value(r.outIface) && Value(r.srcIP)
    && Value(r.dstIP) && Value(r.srcPort) && Value(r.dstPort) && Value(r.action)
    && r.chain != "" && r.action != ""
  }

  lemma WordIsValue(s: string)
    requires s == "" || Word(s)
    ensures Value(s)
  {
  }

  lemma ChainIsValue(s: string)
    requires ValidChain(s)
    ensures Value(s) && s != ""
  {
  }

  lemma ActionIsValue(s: string)
    requires ValidAction(s)
    ensures Value(s) && s != ""
  {
  }

  lemma ProtocolIsValue(s: string)
    requires ValidProtocol(s)
    ensures Value(s)
  {
  }

  lemma ValidHasValues(r: FirewallRule)
    requires ValidRule(r)
    ensures Values(r)
  {
    hide Value, Word, ValidPort, ValidIface, AddressText, CIDRText, ValidChain, ValidAction, ValidProtocol;
    if r.srcIP != "" { AddressIsWord(r.srcIP); }
    if r.dstIP != "" { AddressIsWord(r.dstIP); }
    if r.srcPort != "" { ValidPortIsWord(r.srcPort); }
    if r.dstPort != "" { ValidPortIsWord(r.dstPort); }
    if r.inIface != "" { IfaceIsWord(r.inIface); }
    if r.outIface != "" { IfaceIsWord(r.outIface); }
    ChainIsValue(r.chain);
    ActionIsValue(r.action);
    ProtocolIsValue(r.protocol);
    WordIsValue(r.inIface);
    WordIsValue(r.outIface);
    WordIsValue(r.srcIP);
    WordIsValue(r.dstIP);
    WordIsValue(r.srcPort);
    WordIsValue(r.dstPort);
  }

  predicate AllPlain(words: seq<string>) {
    forall w <- words :: Plain(w)
  }

  lemma PlainOpt(words: seq<string>, flag: string, value: string)
    requires AllPlain(words) && Plain(flag) && Value(value)
    ensures AllPlain(words + Opt(flag, value))
  {
  }

  lemma WordsArePlain(r: FirewallRule)
    requires Values(r)
    ensures AllPlain(Words(r))
  {
    hide AllPlain, Plain, Opt, NoSpace;
    var protocol := if r.protocol == "all" then "" else r.protocol;
    FlagsPlain();
    PlainStartOf(r);
    var a := ["iptables", "-A", r.chain];
    PlainOpt(a, "-p", protocol);
    var b := a + Opt("-p", protocol);
    PlainOpt(b, "-i", r.inIface);
    var c := b + Opt("-i", r.inIface);
    PlainOpt(c, "-o", r.outIface);
    var d := c + Opt("-o", r.outIface);
    PlainOpt(d, "-s", r.srcIP);
    var e := d + Opt("-s", r.srcIP);
    PlainOpt(e, "-d", r.dstIP);
    var f := e + Opt("-d", r.dstIP);
    PlainOpt(f, "--sport", r.srcPort);
    var g := f + Opt("--sport", r.srcPort);
    PlainOpt(g, "--dport", r.dstPort);
    PlainOpt(g + Opt("--dport", r.dstPort), "-j", r.action);
  }

  lemma PlainStartOf(r: FirewallRule)
    requires Values(r)
    ensures AllPlain(["iptables", "-A", r.chain])
  {
  }

  lemma FlagsPlain()
    ensures Plain("-p") && Plain("-i") && Plain("-o") && Plain("-s")
    ensures Plain("-d") && Plain("--sport") && Plain("--dport") && Plain("-j")
    ensures Value("")
  {
  }

  /** What the flags set. */
  lemma FieldsOfFlags(r: FirewallRule, v: string)
    ensures SetField(r, "-A", v) == r.(chain := v) && SetField(r, "-p", v) == r.(protocol := v)
    ensures SetField(r, "-i", v) == r.(inIface := v) && SetField(r, "-o", v) == r.(outIface := v)
    ensures SetField(r, "-s", v) == r.(srcIP := v) && SetField(r, "-d", v) == r.(dstIP := v)
    ensures SetField(r, "--sport", v) == r.(srcPort := v) && SetField(r, "--dport", v) == r.(dstPort := v)
    ensures SetField(r, "-j", v) == r.(action := v)
  {
  }

  lemma Step(words: seq<string>, got: FirewallRule, flag: string, value: string, next: FirewallRule)
    returns (words': seq<string>, got': FirewallRule)
    requires words != [] && !Dashed(words[|words| - 1]) && !Dashed(value)
    requires ParseWords(NoRule, words) == got && SetField(got, flag, value) == next
    requires value == "" ==> next == got
    ensures words' == words + Opt(flag, value) && words' != [] && !Dashed(words'[|words'| - 1])
    ensures ParseWords(NoRule, words') == got' == next
  {
    ParseOpt(words, flag, value);
    words', got' := words + Opt(flag, value), next;
  }

  lemma ParsedWords(r: FirewallRule)
    requires Values(r)
    ensures ParseWords(NoRule, Words(r)) == Normal(r)
  {
    hide ParseWords, Opt, NoSpace, SetField, Dashed;
    var protocol := if r.protocol == "all" then "" else r.protocol;
    EmptyIsNoFlag();
    ParsedStart(r.chain);
    var words, got := ["iptables", "-A", r.chain], NoRule.(chain := r.chain);
    FieldsOfFlags(got, protocol);
    words, got := Step(words, got, "-p", protocol, got.(protocol := protocol));
    FieldsOfFlags(got, r.inIface);
    words, got := Step(words, got, "-i", r.inIface, got.(inIface := r.inIface));
    FieldsOfFlags(got, r.outIface);
    words, got := Step(words, got, "-o", r.outIface, got.(outIface := r.outIface));
    FieldsOfFlags(got, r.srcIP);
    words, got := Step(words, got, "-s", r.srcIP, got.(srcIP := r.srcIP));
    FieldsOfFlags(got, r.dstIP);
    words, got := Step(words, got, "-d", r.dstIP, got.(dstIP := r.dstIP));
    FieldsOfFlags(got, r.srcPort);
    words, got := Step(words, got, "--sport", r.srcPort, got.(srcPort := r.srcPort));
    FieldsOfFlags(got, r.dstPort);
    words, got := Step(words, got, "--dport", r.dstPort, got.(dstPort := r.dstPort));
    FieldsOfFlags(got, r.action);
    words, got := Step(words, got, "-j", r.action, got.(action := r.action));
  }

  lemma EmptyIsNoFlag()
    ensures !Dashed("")
  {
  }

  lemma ParsedStart(chain: string)
    requires !Dashed(chain)
    ensures ParseWords(NoRule, ["iptables", "-A", chain]) == NoRule.(chain := chain)
  {
    hide SetField;
    var a := ["iptables", "-A", chain];
    var b := ["-A", chain];
    var r := NoRule.(chain := chain);
    assert a[1..] == b && b[1..] == [chain] && [chain][1..] == [];
    WordSetsNothing(NoRule, "iptables", "-A");
    FieldsOfFlags(NoRule, chain);
    WordSetsNothing(r, chain, "");
    assert ParseWords(NoRule, a) == ParseWords(NoRule, b);
    assert ParseWords(NoRule, b) == ParseWords(r, [chain]);
    assert ParseWords(r, [chain]) == ParseWords(r, []);
  }

  /** Reading a printed command gives the rule back, without its comment and with protocol "all" as no
      protocol: no validated value can be mistaken for a flag. */
  lemma ParserInvertsPrinter(r: FirewallRule)
    requires ValidRule(r)
    ensures Parsed(CustomRules.Command(r)) == Normal(r)
  {
    hide ValidRule, Fields, ParseWords, Words, Values, AllPlain;
    ValidHasValues(r);
    PrintedParses(r);
  }

  lemma PrintedParses(r: FirewallRule)
    requires Values(r)
    ensures Parsed(CustomRules.Command(r)) == Normal(r)
  {
    hide Fields, ParseWords, Values, Opt, Plain;
    WordsArePlain(r);
    FieldsJoin(Words(r));
    ParsedWords(r);
  }

  // ----- deleting by number

  /** The list without its element number `i`, or unchanged if there is none. */
  function Drop<T>(s: seq<T>, i: int): seq<T> {
    if 0 <= i < |s| then s[..i] + s[i + 1..] else s
  }

  /** Every iptables line before a displayed rule is itself displayed. */
  predicate Orderly(lines: seq<string>) {
    lines == [] ||
    var init, last := lines[..|lines| - 1], lines[|lines| - 1];
    Orderly(init) && (RuleAt(last) != [] ==> Commands(init) == |FlatMap(RuleAt, init)|)
  }

  /** Every iptables line has a chain. */
  predicate AllListed(lines: seq<string>) {
    forall l <- lines :: IsIptables(l) ==> RuleAt(l) != []
  }

  lemma RuleAtSize(line: string)
    ensures |RuleAt(line)| <= if IsIptables(line) then 1 else 0
  {
  }

  lemma DropSnoc<T>(s: seq<T>, x: T, i: int)
    ensures i == |s| ==> Drop(s + [x], i) == s && Drop(s, i) == s
    ensures i != |s| ==> Drop(s + [x], i) == Drop(s, i) + [x]
  {
  }

  lemma {:induction false} RulesAtMostCommands(lines: seq<string>)
    ensures |FlatMap(RuleAt, lines)| <= Commands(lines)
    ensures AllListed(lines) ==> |FlatMap(RuleAt, lines)| == Commands(lines)
  {
    hide RuleAt, IsIptables;
    if lines != [] {
      RulesAtMostCommands(lines[..|lines| - 1]);
      RuleAtSize(lines[|lines| - 1]);
    }
  }

  lemma {:induction false} AllListedIsOrderly(lines: seq<string>)
    requires AllListed(lines)
    ensures Orderly(lines)
  {
    hide RuleAt, IsIptables;
    if lines != [] {
      AllListedIsOrderly(lines[..|lines| - 1]);
      RulesAtMostCommands(lines[..|lines| - 1]);
    }
  }

  lemma RemainingSnoc(lines: seq<string>, line: string, i: int)
    ensures Remaining(lines + [line], i) ==
            if IsIptables(line) && Commands(lines) == i then Remaining(lines, i) else Remaining(lines, i) + [line]
  {
    assert (lines + [line])[..|lines|] == lines;
  }

  lemma {:induction false} OrderlyDeletes(lines: seq<string>, i: int)
    requires Orderly(lines)
    ensures FlatMap(RuleAt, Remaining(lines, i)) == Drop(FlatMap(RuleAt, lines), i)
  {
    hide RuleAt, IsIptables, Drop;
    if lines == [] {
      DropNothing<FirewallRule>(i);
    } else {
      var init, last := lines[..|lines| - 1], lines[|lines| - 1];
      OrderlyDeletes(init, i);
      RuleAtSize(last);
      FlatMapAppend(RuleAt, Remaining(init, i), last);
      if RuleAt(last) == [] {
        assert FlatMap(RuleAt, init) + [] == FlatMap(RuleAt, init);
        assert FlatMap(RuleAt, Remaining(init, i)) + [] == FlatMap(RuleAt, Remaining(init, i));
      } else {
        assert RuleAt(last) == [RuleAt(last)[0]];
        DropSnoc(FlatMap(RuleAt, init), RuleAt(last)[0], i);
      }
    }
  }

  lemma DropNothing<T>(i: int)
    ensures Drop<T>([], i) == []
  {
  }

  lemma {:induction false} OutOfRangeKeeps(lines: seq<string>, i: int)
    requires !(0 <= i < Commands(lines))
    ensures Remaining(lines, i) == lines
  {
    hide IsIptables;
    if lines != [] {
      OutOfRangeKeeps(lines[..|lines| - 1], i);
      assert lines == lines[..|lines| - 1] + [lines[|lines| - 1]];
    }
  }

  /** An iptables line without a chain takes a number but is not displayed. */
  lemma {:induction false} HiddenNumber(lines: seq<string>) returns (i: nat)
    requires Commands(lines) != |FlatMap(RuleAt, lines)|
    ensures i < Commands(lines) && i <= |FlatMap(RuleAt, lines)|
    ensures FlatMap(RuleAt, Remaining(lines, i)) == FlatMap(RuleAt, lines)
  {
    hide RuleAt, IsIptables;
    var init, last := lines[..|lines| - 1], lines[|lines| - 1];
    RuleAtSize(last);
    if Commands(init) == |FlatMap(RuleAt, init)| {
      i := Commands(init);
      OutOfRangeKeeps(init, i);
      assert FlatMap(RuleAt, init) + [] == FlatMap(RuleAt, init);
    } else {
      i := HiddenNumber(init);
      FlatMapAppend(RuleAt, Remaining(init, i), last);
    }
  }

  lemma {:induction false} DisorderlyFails(lines: seq<string>) returns (i: nat)
    requires !Orderly(lines)
    ensures i < |FlatMap(RuleAt, lines)|
    ensures FlatMap(RuleAt, Remaining(lines, i)) == FlatMap(RuleAt, lines)
  {
    hide RuleAt, IsIptables;
    var init, last := lines[..|lines| - 1], lines[|lines| - 1];
    RuleAtSize(last);
    RulesAtMostCommands(init);
    if Orderly(init) {
      i := HiddenNumber(init);
    } else {
      i := DisorderlyFails(init);
    }
    FlatMapAppend(RuleAt, Remaining(init, i), last);
  }

  // ----- the file

  /** Splitting what an editor wrote gives its lines back, and the empty text after the last newline. */
  lemma SplitRender(lines: seq<string>)
    requires OneLiners(lines)
    ensures Split(Render(lines), '\n') == (if lines == [] then [""] else lines) + [""]
  {
    hide Split, JoinBy;
    if lines == [] {
      EmptyRender();
      SplitJoinSafe(["", ""], '\n');
    } else {
      JoinAppend(lines, '\n', "");
      assert Join(lines) + "\n" + "" == Render(lines);
      SplitJoinSafe(lines + [""], '\n');
    }
  }

  lemma EmptyRender()
    ensures Render([]) == JoinBy(["", ""], '\n')
  {
    assert ["", ""][1..] == [""];
  }

  lemma EmptyLineLists()
    ensures RuleAt("") == [] && !IsIptables("")
  {
  }

  lemma {:induction false} RemainingFrom(lines: seq<string>, i: int)
    ensures forall l <- Remaining(lines, i) :: l in lines
  {
    if lines != [] {
      RemainingFrom(lines[..|lines| - 1], i);
    }
  }

  /** The lines after a deletion: one blank line more at the end each time. */
  lemma RemovedLines(content: string, i: int)
    ensures var left := Remaining(Split(content, '\n'), i);
            Split(Removed(content, i), '\n') == (if left == [] then [""] else left) + [""]
  {
    hide Split, Remaining;
    SplitParts(content, '\n');
    RemainingFrom(Split(content, '\n'), i);
    SplitRender(Remaining(Split(content, '\n'), i));
  }

  lemma RemovedLists(content: string, i: int)
    ensures Listed(Removed(content, i)) == FlatMap(RuleAt, Remaining(Split(content, '\n'), i))
  {
    hide Split, Remaining, RuleAt;
    var left := Remaining(Split(content, '\n'), i);
    RemovedLines(content, i);
    EmptyLineLists();
    FlatMapAppend(RuleAt, [], "");
    assert [] + [""] == [""];
    FlatMapAppend(RuleAt, if left == [] then [""] else left, "");
  }

  /** Deleting a number removes exactly the displayed rule of that number, and nothing for a number
      out of range, if and only if no iptables line without a chain precedes a displayed rule. */
  lemma DeleteByNumber(content: string)
    ensures (forall i :: Listed(Removed(content, i)) == Drop(Listed(content), i)) <==> Orderly(Split(content, '\n'))
  {
    hide Split, RuleAt, Removed, Orderly;
    var lines := Split(content, '\n');
    if Orderly(lines) {
      forall i ensures Listed(Removed(content, i)) == Drop(Listed(content), i) {
        RemovedLists(content, i);
        OrderlyDeletes(lines, i);
      }
    } else {
      var i := DisorderlyFails(lines);
      RemovedLists(content, i);
      assert |Drop(Listed(content), i)| < |Listed(content)|;
    }
  }

  /** A line that is neither blank nor an iptables command. */
  predicate IsText(line: string) {
    !IsIptables(line) && !Blank(line)
  }

  lemma {:induction false} RemainingTexts(lines: seq<string>, i: int)
    ensures Filter(IsText, Remaining(lines, i)) == Filter(IsText, lines)
  {
    hide IsIptables, Blank, Filter, Commands, Remaining;
    if lines == [] {
      NothingRemains(i);
    } else {
      var init, last := lines[..|lines| - 1], lines[|lines| - 1];
      assert lines == init + [last];
      RemainingTexts(init, i);
      RemainingSnoc(init, last, i);
      FilterAppend(IsText, init, last);
      FilterAppend(IsText, Remaining(init, i), last);
    }
  }

  lemma NothingRemains(i: int)
    ensures Remaining([], i) == [] && Commands([]) == 0
    ensures Filter(IsText, []) == [] && Filter(IsIptables, []) == [] && Drop<string>([], i) == []
  {
  }

  lemma {:induction false} CommandsCount(lines: seq<string>)
    ensures |Filter(IsIptables, lines)| == Commands(lines)
  {
    hide IsIptables;
    if lines != [] {
      CommandsCount(lines[..|lines| - 1]);
    }
  }

  lemma {:induction false} RemainingCommands(lines: seq<string>, i: int)
    ensures Filter(IsIptables, Remaining(lines, i)) == Drop(Filter(IsIptables, lines), i)
  {
    hide IsIptables, Filter, Commands, Remaining, Drop;
    if lines == [] {
      NothingRemains(i);
    } else {
      var init, last := lines[..|lines| - 1], lines[|lines| - 1];
      assert lines == init + [last];
      RemainingCommands(init, i);
      CommandsCount(init);
      RemainingSnoc(init, last, i);
      FilterAppend(IsIptables, init, last);
      FilterAppend(IsIptables, Remaining(init, i), last);
      DropSnoc(Filter(IsIptables, init), last, i);
    }
  }

  lemma BlankIsNoText()
    ensures !IsText("") && !IsIptables("")
  {
  }

  lemma FilterTail<T>(keep: T -> bool, s: seq<T>, x: T)
    requires !keep(x)
    ensures Filter(keep, s + [x]) == Filter(keep, s)
    ensures Filter(keep, (if s == [] then [x] else s) + [x]) == Filter(keep, s)
  {
    FilterAppend(keep, s, x);
    FilterAppend(keep, [x], x);
    FilterAppend(keep, [], x);
    assert [] + [x] == [x];
  }

  /** Whatever the file holds, a deletion removes the iptables line of that number and keeps every
      other iptables line and every other line that is not blank. */
  lemma DeleteKeepsLines(content: string, i: int)
    ensures Filter(IsText, Split(Removed(content, i), '\n')) == Filter(IsText, Split(content, '\n'))
    ensures Filter(IsIptables, Split(Removed(content, i), '\n')) == Drop(Filter(IsIptables, Split(content, '\n')), i)
  {
    hide Split, Remaining, IsIptables, Blank, Drop, Filter, IsText;
    var left := Remaining(Split(content, '\n'), i);
    RemovedLines(content, i);
    RemainingTexts(Split(content, '\n'), i);
    RemainingCommands(Split(content, '\n'), i);
    BlankIsNoText();
    FilterTail(IsText, left, "");
    FilterTail(IsIptables, left, "");
  }

  // ----- adding

  /** The lines of a newline-terminated text before the empty text after its last newline. */
  function Lines(s: string): seq<string> {
    Split(s, '\n')[..|Split(s, '\n')| - 1]
  }

  lemma SplitAppendStep(line: string, rest: string, t: string)
    requires OneLine(line) && Split(rest + t, '\n') == Lines(rest) + Split(t, '\n')
    requires Split(rest, '\n') == Lines(rest) + [""]
    ensures Split(line + "\n" + rest + t, '\n') == Lines(line + "\n" + rest) + Split(t, '\n')
    ensures Split(line + "\n" + rest, '\n') == Lines(line + "\n" + rest) + [""]
  {
    hide Split;
    SplitCons(line, '\n', rest);
    SplitCons(line, '\n', rest + t);
    assert line + "\n" + rest + t == line + ['\n'] + (rest + t);
    assert Lines(line + "\n" + rest) == [line] + Lines(rest);
  }

  lemma {:induction false} SplitAppend(s: string, t: string)
    requires Terminated(s)
    ensures Split(s + t, '\n') == Lines(s) + Split(t, '\n')
    ensures Split(s, '\n') == Lines(s) + [""]
    decreases |s|
  {
    hide Split, ScanLines, Lines, OneLine, DropCR;
    if s == "" {
      SplitAppendNothing(t);
    } else {
      var line, rest := FirstLine(s);
      SplitAppend(rest, t);
      SplitAppendStep(line, rest, t);
    }
  }

  lemma SplitAppendNothing(t: string)
    ensures "" + t == t && Lines("") == [] && Split("", '\n') == [""]
  {
    SplitOne("", '\n');
  }

  lemma {:induction false} PlainJoin(words: seq<string>)
    requires words != [] && AllPlain(words)
    ensures Trimmed(JoinBy(words, ' ')) && OneLine(JoinBy(words, ' ')) && words[0] <= JoinBy(words, ' ')
    ensures JoinBy(words, ' ') != ""
  {
    assert Plain(words[0]);
    if |words| > 1 {
      PlainJoin(words[1..]);
    }
  }

  lemma CommandLists(r: FirewallRule)
    requires ValidRule(r)
    ensures OneLine(Command(r)) && Trim(Command(r)) == Command(r) && IsIptables(Command(r))
    ensures RuleAt(Command(r)) == [Normal(r)]
  {
    hide ValidRule, Values, Words, Trim, Trimmed, OneLine, AllPlain, Parsed, JoinBy;
    ValidHasValues(r);
    WordsArePlain(r);
    WordsStart(r);
    PlainJoin(Words(r));
    TrimmedStays(Command(r));
    ParserInvertsPrinter(r);
    ValuesHaveChain(r);
  }

  lemma ValuesHaveChain(r: FirewallRule)
    requires Values(r)
    ensures Normal(r).chain != ""
  {
  }

  lemma WordsStart(r: FirewallRule)
    ensures Words(r) != [] && Words(r)[0] == IPTABLES
  {
    hide Opt;
  }

  lemma CommentLine(c: string)
    ensures RuleAt("# " + c) == [] && !IsIptables("# " + c) && !Blank("# " + c)
  {
    var s := "# " + c;
    assert s[0] == '#';
    TrimRightStart(s);
    assert Trim(s)[0] == '#' && IPTABLES[0] == 'i';
  }

  lemma {:induction false} TrimRightStart(s: string)
    requires s != "" && !IsSpace(s[0])
    ensures TrimRight(s) != "" && TrimRight(s)[0] == s[0]
  {
    if IsSpace(s[|s| - 1]) {
      TrimRightStart(s[..|s| - 1]);
    }
  }

  /** The lines of an entry. */
  function EntryLines(r: FirewallRule): seq<string> {
    (if r.comment == "" then [] else ["# " + r.comment]) + [Command(r)]
  }

  lemma SplitEntry(r: FirewallRule)
    requires ValidRule(r)
    ensures Split(Entry(r) + "\n", '\n') == EntryLines(r) + [""]
  {
    hide Split, ValidPort, ValidIface, AddressText, CIDRText, ValidChain, ValidAction, ValidProtocol, Command, Trim;
    CommandLists(r);
    SplitOne("", '\n');
    SplitCons(Command(r), '\n', "");
    assert Command(r) + ['\n'] + "" == Command(r) + "\n";
    if r.comment != "" {
      var c := "# " + r.comment;
      SplitCons(c, '\n', Command(r) + "\n");
      assert Entry(r) + "\n" == c + ['\n'] + (Command(r) + "\n");
      assert EntryLines(r) + [""] == [c] + ([Command(r)] + [""]);
    }
  }

  function Added(content: string, r: FirewallRule): string {
    content + Entry(r) + "\n"
  }

  lemma AddedSplit(content: string, r: FirewallRule)
    requires ValidRule(r) && Terminated(content)
    ensures Split(Added(content, r), '\n') == Lines(content) + EntryLines(r) + [""]
    ensures Split(content, '\n') == Lines(content) + [""]
  {
    hide ValidRule, Split, Entry, EntryLines, Lines;
    SplitEntry(r);
    SplitAppend(content, Entry(r) + "\n");
    assert content + Entry(r) + "\n" == content + (Entry(r) + "\n");
    assert Lines(content) + (EntryLines(r) + [""]) == Lines(content) + EntryLines(r) + [""];
  }

  lemma EntrySays(r: FirewallRule)
    requires ValidRule(r)
    ensures FlatMap(RuleAt, EntryLines(r)) == [Normal(r)]
    ensures AllListed(EntryLines(r))
    ensures Filter(IsText, EntryLines(r)) == if r.comment == "" then [] else ["# " + r.comment]
  {
    hide ValidRule, RuleAt, Command, IsIptables, Trim;
    CommandLists(r);
    CommentLine(r.comment);
    var c := if r.comment == "" then [] else ["# " + r.comment];
    FlatMapAppend(RuleAt, c, Command(r));
    FilterAppend(IsText, c, Command(r));
    if r.comment != "" {
      FlatMapAppend(RuleAt, [], "# " + r.comment);
      FilterAppend(IsText, [], "# " + r.comment);
      assert [] + ["# " + r.comment] == c;
    }
  }

  /** On a newline-terminated file, adding a rule lists one more rule at the end. */
  lemma AddLists(content: string, r: FirewallRule)
    requires ValidRule(r) && Terminated(content)
    ensures Listed(Added(content, r)) == Listed(content) + [Normal(r)]
    ensures Filter(IsText, Split(Added(content, r), '\n')) ==
            Filter(IsText, Split(content, '\n')) + if r.comment == "" then [] else ["# " + r.comment]
  {
    hide ValidRule, Split, Added, EntryLines, Lines, RuleAt, IsText, Filter, FlatMap;
    AddedSplit(content, r);
    EntrySays(r);
    EmptyLineLists();
    BlankIsNoText();
    var before := Lines(content);
    FlatMapConcat(RuleAt, before, EntryLines(r));
    FilterConcat(IsText, before, EntryLines(r));
    FlatMapAppend(RuleAt, before, "");
    FlatMapAppend(RuleAt, before + EntryLines(r), "");
    FilterAppend(IsText, before, "");
    FilterAppend(IsText, before + EntryLines(r), "");
  }

  // ----- whole runs

  /** What every operation keeps: the file ends in a newline and all its iptables lines are listed. */
  predicate Proper(content: string) {
    Terminated(content) && AllListed(Split(content, '\n'))
  }

  lemma AddProper(content: string, r: FirewallRule)
    requires ValidRule(r) && Proper(content)
    ensures Proper(Added(content, r))
  {
    hide ValidRule, Split, EntryLines, Lines, RuleAt, IsIptables;
    AddedSplit(content, r);
    EntrySays(r);
    EmptyLineLists();
    var a := Added(content, r);
    assert a[|a| - 1] == '\n';
  }

  lemma DeleteProper(content: string, i: int)
    requires Proper(content)
    ensures Proper(Removed(content, i))
  {
    hide Split, RuleAt, IsIptables, Remaining, JoinBy;
    RemovedLines(content, i);
    RemainingFrom(Split(content, '\n'), i);
    EmptyLineLists();
    var a := Removed(content, i);
    assert a[|a| - 1] == '\n';
  }

  datatype Op = Add(rule: FirewallRule) | Delete(index: int)

  /** The file after an operation whose system calls succeed; a deletion needs the file to exist. */
  function After(file: Option<string>, op: Op): Option<string> {
    match op
    case Add(r) => Some(Added(Started(file), r))
    case Delete(i) => if file.None? then None else Some(Removed(file.value, i))
  }

  function Run(file: Option<string>, ops: seq<Op>): Option<string> {
    if ops == [] then file else After(Run(file, ops[..|ops| - 1]), ops[|ops| - 1])
  }

  function ListAfter(rules: seq<FirewallRule>, ops: seq<Op>): seq<FirewallRule> {
    if ops == [] then rules
    else
      var before := ListAfter(rules, ops[..|ops| - 1]);
      match ops[|ops| - 1]
      case Add(r) => before + [Normal(r)]
      case Delete(i) => Drop(before, i)
  }

  predicate AllValid(ops: seq<Op>) {
    forall op <- ops :: op.Add? ==> ValidRule(op.rule)
  }

  lemma StartedIsProper()
    ensures Proper(SHEBANG) && Listed(SHEBANG) == []
  {
    hide RuleAt, IsIptables, Split;
    ShebangSplit();
    ShebangLists();
    EmptyLineLists();
    FlatMapAppend(RuleAt, [], "#!/bin/sh");
    FlatMapAppend(RuleAt, ["#!/bin/sh"], "");
    assert [] + ["#!/bin/sh"] == ["#!/bin/sh"] && ["#!/bin/sh"] + [""] == ["#!/bin/sh", ""];
  }

  lemma ShebangSplit()
    ensures Split(SHEBANG, '\n') == ["#!/bin/sh", ""] && Terminated(SHEBANG)
  {
    hide Split;
    SplitCons("#!/bin/sh", '\n', "");
    SplitOne("", '\n');
    assert SHEBANG == "#!/bin/sh" + ['\n'] + "";
  }

  lemma ShebangLists()
    ensures RuleAt("#!/bin/sh") == [] && !IsIptables("#!/bin/sh")
  {
    TrimRightStart("#!/bin/sh");
    assert Trim("#!/bin/sh")[0] == '#' && IPTABLES[0] == 'i';
  }

  lemma OpRefines(file: Option<string>, op: Op)
    requires op.Add? ==> ValidRule(op.rule)
    requires Proper(Started(file))
    ensures Proper(Started(After(file, op)))
    ensures Listed(Started(After(file, op))) == ListAfter(Listed(Started(file)), [op])
  {
    hide ValidRule, Listed, Proper, Removed, Added, Drop, Split;
    var text := Started(file);
    assert [op][..0] == [];
    match op
    case Add(r) =>
      ProperIsTerminated(text);
      AddLists(text, r);
      AddProper(text, r);
    case Delete(i) =>
      if file.None? {
        StartedIsProper();
        DropNothing<FirewallRule>(i);
      } else {
        ProperDeletes(text, i);
        DeleteProper(text, i);
      }
  }

  lemma ProperIsTerminated(content: string)
    requires Proper(content)
    ensures Terminated(content)
  {
  }

  lemma ProperDeletes(content: string, i: int)
    requires Proper(content)
    ensures Listed(Removed(content, i)) == Drop(Listed(content), i)
  {
    hide Split, RuleAt, IsIptables, Removed, Orderly, Drop;
    AllListedIsOrderly(Split(content, '\n'));
    DeleteByNumber(content);
  }

  /** Any run of additions and deletions by number, from a proper or missing file, lists what the same
      operations do to a list of rules. */
  lemma {:induction false} RunRefines(file: Option<string>, ops: seq<Op>)
    requires AllValid(ops) && Proper(Started(file))
    ensures Proper(Started(Run(file, ops)))
    ensures Listed(Started(Run(file, ops))) == ListAfter(Listed(Started(file)), ops)
  {
    hide ValidRule, Listed, Proper, After, Drop;
    if ops != [] {
      var init, last := ops[..|ops| - 1], ops[|ops| - 1];
      RunRefines(file, init);
      OpRefines(Run(file, init), last);
      assert [last][..0] == [];
    }
  }
}
