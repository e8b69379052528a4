/** What a line of the custom-rule script sets, told by its words, and what becomes of it when a text
    without a newline in front is appended to it. */
module CustomRuleWords {
  import opened Text
  import opened CustomRules
  import opened CustomRuleList

  // ----- what the words set

  datatype Field = Chain | Protocol | InIface | OutIface | SrcIP | DstIP | SrcPort | DstPort | Action

  function Get(r: FirewallRule, field: Field): string {
    match field
    case Chain => r.chain
    case Protocol => r.protocol
    case InIface => r.inIface
    case OutIface => r.outIface
    case SrcIP => r.srcIP
    case DstIP => r.dstIP
    case SrcPort => r.srcPort
    case DstPort => r.dstPort
    case Action => r.action
  }

  /** The word is a flag of the field. */
  predicate Sets(word: string, field: Field) {
    match field
    case Chain => word == "-A" || word == "-I"
    case Protocol => word == "-p"
    case InIface => word == "-i"
    case OutIface => word == "-o"
    case SrcIP => word == "-s"
    case DstIP => word == "-d"
    case SrcPort => word == "--sport"
    case DstPort => word == "--dport"
    case Action => word == "-j"
  }

  predicate HasFlag(words: seq<string>, field: Field) {
    exists word <- words :: Sets(word, field)
  }

  /** The last word is a flag of the field. */
  predicate EndsInFlag(words: seq<string>, field: Field) {
    words != [] && Sets(words[|words| - 1], field)
  }

  /** The word behind the last flag of the field; empty if there is none. */
  function Given(words: seq<string>, field: Field): string {
    if words == [] then ""
    else if HasFlag(words[1..], field) then Given(words[1..], field)
    else if Sets(words[0], field) && |words| > 1 then words[1]
    else ""
  }

  function Put(r: FirewallRule, field: Field, value: string): FirewallRule {
    match field
    case Chain => r.(chain := value)
    case Protocol => r.(protocol := value)
    case InIface => r.(inIface := value)
    case OutIface => r.(outIface := value)
    case SrcIP => r.(srcIP := value)
    case DstIP => r.(dstIP := value)
    case SrcPort => r.(srcPort := value)
    case DstPort => r.(dstPort := value)
    case Action => r.(action := value)
  }

  lemma GetPut(r: FirewallRule, f: Field, g: Field, value: string)
    ensures Get(Put(r, f, value), g) == if f == g then value else Get(r, g)
    ensures Put(r, f, value).comment == r.comment
  {
  }

  lemma FlagPuts(r: FirewallRule, word: string, next: string, field: Field)
    requires Sets(word, field)
    ensures SetField(r, word, next) == Put(r, field, next)
  {
    hide SetField;
    FieldsOfFlags(r, next);
    InsertSetsChain(r, next);
  }

  lemma InsertSetsChain(r: FirewallRule, next: string)
    ensures SetField(r, "-I", next) == r.(chain := next)
  {
  }

  lemma NoFlagPuts(r: FirewallRule, word: string, next: string)
    requires forall field: Field :: !Sets(word, field)
    ensures SetField(r, word, next) == r
  {
    assert !Sets(word, Chain) && !Sets(word, Protocol) && !Sets(word, InIface) && !Sets(word, OutIface);
    assert !Sets(word, SrcIP) && !Sets(word, DstIP) && !Sets(word, SrcPort) && !Sets(word, DstPort);
    assert !Sets(word, Action);
  }

  /** The flags of a field are told from those of the others by their length and one letter. */
  predicate Letters(field: Field, n: nat, c: char) {
    match field
    case Chain => n == 2 && (c == 'A' || c == 'I')
    case Protocol => n == 2 && c == 'p'
    case InIface => n == 2 && c == 'i'
    case OutIface => n == 2 && c == 'o'
    case SrcIP => n == 2 && c == 's'
    case DstIP => n == 2 && c == 'd'
    case SrcPort => n == 7 && c == 's'
    case DstPort => n == 7 && c == 'd'
    case Action => n == 2 && c == 'j'
  }

  lemma FlagLetters(word: string, field: Field)
    requires Sets(word, field)
    ensures |word| >= 2 && Letters(field, |word|, word[if |word| == 2 then 1 else 2])
  {
  }

  lemma LettersDiffer(f: Field, g: Field, n: nat, c: char)
    requires Letters(f, n, c) && Letters(g, n, c)
    ensures f == g
  {
  }

  lemma OneField(word: string, f: Field, g: Field)
    requires Sets(word, f) && Sets(word, g)
    ensures f == g
  {
    hide Sets, Letters;
    FlagLetters(word, f);
    FlagLetters(word, g);
    LettersDiffer(f, g, |word|, word[if |word| == 2 then 1 else 2]);
  }

  lemma FlagsDiffer(word: string, field: Field, r: FirewallRule, next: string)
    ensures Get(SetField(r, word, next), field) == if Sets(word, field) then next else Get(r, field)
    ensures SetField(r, word, next).comment == r.comment
  {
    hide Sets, Get, Put, SetField;
    if f: Field :| Sets(word, f) {
      FlagPuts(r, word, next, f);
      GetPut(r, f, field, next);
      if Sets(word, field) {
        OneField(word, f, field);
      }
    } else {
      NoFlagPuts(r, word, next);
    }
  }

  lemma HasFlagCons(words: seq<string>, field: Field)
    requires words != []
    ensures HasFlag(words, field) <==> Sets(words[0], field) || HasFlag(words[1..], field)
  {
    hide Sets;
    assert words == [words[0]] + words[1..];
  }

  lemma HasFlagConcat(a: seq<string>, b: seq<string>, field: Field)
    ensures HasFlag(a + b, field) <==> HasFlag(a, field) || HasFlag(b, field)
  {
    hide Sets;
    assert forall word <- a :: word in a + b;
    assert forall word <- b :: word in a + b;
  }

  /** The parser reads what the last flag of each field gives. */
  lemma {:induction false} ParseGet(r: FirewallRule, words: seq<string>, field: Field)
    ensures Get(ParseWords(r, words), field) == if HasFlag(words, field) then Given(words, field) else Get(r, field)
    ensures ParseWords(r, words).comment == r.comment
    decreases |words|
  {
    hide Sets, Get, SetField, HasFlag;
    if words == [] {
      NoFlags(field);
    } else {
      var next := if |words| > 1 then words[1] else "";
      FlagsDiffer(words[0], field, r, next);
      ParseGet(SetField(r, words[0], next), words[1..], field);
      HasFlagCons(words, field);
    }
  }

  lemma NoFlags(field: Field)
    ensures !HasFlag([], field) && Get(NoRule, field) == ""
  {
  }

  lemma {:induction false} GivenNothing(words: seq<string>, field: Field)
    requires !HasFlag(words, field)
    ensures Given(words, field) == ""
  {
    hide Sets, HasFlag;
    if words != [] {
      HasFlagCons(words, field);
    }
  }

  /** Each field of a line holds what the last of its flags gives. */
  lemma ParsedGives(line: string, field: Field)
    ensures Get(Parsed(line), field) == Given(Fields(line), field) && Parsed(line).comment == ""
  {
    hide Sets, Get, Fields, HasFlag, Given;
    ParseGet(NoRule, Fields(line), field);
    NoFlags(field);
    if !HasFlag(Fields(line), field) {
      GivenNothing(Fields(line), field);
    }
  }

  predicate SameFields(r: FirewallRule, s: FirewallRule) {
    forall field: Field :: Get(r, field) == Get(s, field)
  }

  lemma SameRules(r: FirewallRule, s: FirewallRule)
    requires r.comment == s.comment
    ensures r == s <==> SameFields(r, s)
  {
    if SameFields(r, s) {
      assert Get(r, Chain) == Get(s, Chain) && Get(r, Protocol) == Get(s, Protocol);
      assert Get(r, InIface) == Get(s, InIface) && Get(r, OutIface) == Get(s, OutIface);
      assert Get(r, SrcIP) == Get(s, SrcIP) && Get(r, DstIP) == Get(s, DstIP);
      assert Get(r, SrcPort) == Get(s, SrcPort) && Get(r, DstPort) == Get(s, DstPort);
      assert Get(r, Action) == Get(s, Action);
    }
  }

  // ----- words in front of other words

  lemma {:induction false} GivenSnoc(a: seq<string>, x: string, field: Field)
    ensures Given(a + [x], field) ==
            if Sets(x, field) then "" else if EndsInFlag(a, field) then x else Given(a, field)
  {
    hide Sets, HasFlag;
    var all := a + [x];
    HasFlagCons(all, field);
    if a == [] {
      assert all[1..] == [];
      NoFlags(field);
    } else {
      assert all[1..] == a[1..] + [x];
      GivenSnoc(a[1..], x, field);
      HasFlagConcat(a[1..], [x], field);
      HasFlagCons([x], field);
      assert [x][1..] == [];
      NoFlags(field);
      if !Sets(x, field) && |a| > 1 && !HasFlag(a[1..], field) {
        LastIsWithin(a[1..], field);
      }
    }
  }

  lemma LastIsWithin(words: seq<string>, field: Field)
    ensures EndsInFlag(words, field) ==> HasFlag(words, field)
  {
    hide Sets;
  }

  lemma {:induction false} GivenBehind(a: seq<string>, x: string, b: seq<string>, field: Field)
    requires !Sets(x, field)
    ensures Given(a + [x] + b, field) == if HasFlag(b, field) then Given(b, field) else Given(a + [x], field)
    ensures HasFlag(a + [x] + b, field) <==> HasFlag(a, field) || HasFlag(b, field)
  {
    hide Sets, HasFlag;
    var all := a + [x] + b;
    HasFlagCons([x], field);
    assert [x][1..] == [];
    NoFlags(field);
    HasFlagConcat(a + [x], b, field);
    HasFlagConcat(a, [x], field);
    if a == [] {
      assert all[1..] == b && ([] + [x])[1..] == [];
    } else {
      assert all[1..] == a[1..] + [x] + b && (a + [x])[1..] == a[1..] + [x];
      GivenBehind(a[1..], x, b, field);
      HasFlagConcat(a[1..], [x], field);
    }
  }

  lemma {:induction false} GivenIsWord(words: seq<string>, field: Field)
    requires AllPlain(words) && HasFlag(words, field) && !EndsInFlag(words, field)
    ensures Given(words, field) != ""
  {
    hide Sets, HasFlag;
    NoFlags(field);
    HasFlagCons(words, field);
    if HasFlag(words[1..], field) {
      GivenIsWord(words[1..], field);
    } else if |words| > 1 {
      assert Plain(words[1]);
    }
  }

  // ----- the words of a text

  lemma {:induction false} FieldsPlain(s: string)
    ensures AllPlain(Fields(s))
    decreases |s|
  {
    hide IsSpace;
    TrimLeftShrinks(s);
    var t := TrimLeft(s);
    if t != "" {
      FieldsPlain(t[WordEnd(t)..]);
      WordIsPlain(t);
    }
  }

  lemma {:induction false} WordIsPlain(t: string)
    ensures NoSpace(t[..WordEnd(t)])
  {
    if t != "" && !IsSpace(t[0]) {
      WordIsPlain(t[1..]);
      assert t[..WordEnd(t)] == [t[0]] + t[1..][..WordEnd(t[1..])];
    }
  }

  lemma {:induction false} TrimLeftTwice(s: string)
    ensures TrimLeft(TrimLeft(s)) == TrimLeft(s)
  {
    if s != "" && IsSpace(s[0]) {
      TrimLeftTwice(s[1..]);
    }
  }

  /** The words of a text are those of the text without the spaces in front. */
  lemma FieldsLeft(s: string)
    ensures Fields(TrimLeft(s)) == Fields(s)
  {
    hide TrimLeft, WordEnd;
    TrimLeftTwice(s);
  }

  lemma {:induction false} LeftGone(spaces: string, s: string)
    requires TrimLeft(spaces) == ""
    ensures TrimLeft(spaces + s) == TrimLeft(s)
  {
    if spaces == "" {
      assert spaces + s == s;
    } else {
      assert (spaces + s)[1..] == spaces[1..] + s;
      LeftGone(spaces[1..], s);
    }
  }

  lemma {:induction false} LeftGlue(h: string, t: string)
    requires TrimLeft(h) != ""
    ensures TrimLeft(h + t) == TrimLeft(h) + t
  {
    if IsSpace(h[0]) {
      assert (h + t)[1..] == h[1..] + t;
      LeftGlue(h[1..], t);
    }
  }

  lemma {:induction false} WordEndBefore(a: string, b: string)
    requires b == "" || IsSpace(b[0])
    ensures WordEnd(a + b) == WordEnd(a)
  {
    if a == "" {
      assert a + b == b;
    } else if !IsSpace(a[0]) {
      assert (a + b)[1..] == a[1..] + b;
      WordEndBefore(a[1..], b);
    }
  }

  lemma FirstField(s: string)
    ensures var t := TrimLeft(s);
            |t| <= |s| && (t != "" ==> !IsSpace(t[0]) && 0 < WordEnd(t) <= |t|)
            && Fields(s) == if t == "" then [] else [t[..WordEnd(t)]] + Fields(t[WordEnd(t)..])
  {
    hide TrimLeft, WordEnd;
    TrimLeftShrinks(s);
  }

  /** A space ends a word. */
  lemma {:induction false} FieldsConcat(a: string, b: string)
    requires b == "" || IsSpace(b[0])
    ensures Fields(a + b) == Fields(a) + Fields(b)
    decreases |a|
  {
    hide TrimLeft, WordEnd, IsSpace, Fields;
    FirstField(a);
    var t := TrimLeft(a);
    if t == "" {
      LeftGone(a, b);
      FieldsLeft(a + b);
      FieldsLeft(b);
      assert [] + Fields(b) == Fields(b);
    } else {
      var n := WordEnd(t);
      LeftGlue(a, b);
      FirstField(a + b);
      WordEndBefore(t, b);
      assert (t + b)[..n] == t[..n] && (t + b)[n..] == t[n..] + b;
      FieldsConcat(t[n..], b);
      assert [t[..n]] + (Fields(t[n..]) + Fields(b)) == [t[..n]] + Fields(t[n..]) + Fields(b);
    }
  }

  lemma {:induction false} SpacesGone(spaces: string)
    requires forall c <- spaces :: IsSpace(c)
    ensures TrimLeft(spaces) == ""
  {
    if spaces != "" {
      SpacesGone(spaces[1..]);
    }
  }

  lemma FieldsTrim(s: string)
    ensures Fields(Trim(s)) == Fields(s)
  {
    hide TrimLeft, TrimRight, Fields;
    var spaces := RightSpaces(s);
    FieldsLeft(TrimRight(s));
    SpacesGone(spaces);
    FieldsConcat(TrimRight(s), spaces);
    FieldsLeft(spaces);
    FieldsOfNothing();
    assert Fields(TrimRight(s)) + [] == Fields(TrimRight(s));
  }

  lemma FieldsOfNothing()
    ensures Fields("") == []
  {
  }

  // ----- a text appended to a line

  /** Nothing, or a line that ends in white space. */
  predicate Open(f: string) {
    f == "" || IsSpace(f[|f| - 1])
  }

  /** The words of a line that stay words when something is appended to it. */
  function Untouched(f: string): seq<string> {
    var words := Fields(f);
    if Open(f) || words == [] then words else words[..|words| - 1]
  }

  lemma LastWord(f: string) returns (a: string, w: string)
    requires !Open(f)
    ensures f == a + w && Open(a) && Plain(w)
  {
    var i := |f| - 1;
    while i > 0 && !IsSpace(f[i - 1])
      invariant 0 <= i < |f| && NoSpace(f[i..])
    {
      i := i - 1;
      assert f[i..] == [f[i]] + f[i + 1..];
    }
    a, w := f[..i], f[i..];
  }

  lemma FieldsBehind(a: string, w: string)
    requires Open(a) && Plain(w)
    ensures Fields(a + w) == Fields(a) + [w]
  {
    hide TrimLeft, WordEnd, NoSpace, IsSpace, Fields;
    FieldsOne(w);
    if a == "" {
      FieldsOfNothing();
      assert a + w == w && [] + [w] == [w];
    } else {
      var init, last := a[..|a| - 1], [a[|a| - 1]];
      assert a == init + last && a + w == init + (last + w);
      FieldsConcat(init, last);
      FieldsConcat(init, last + w);
      SpacesGone(last);
      LeftGone(last, w);
      FieldsLeft(last);
      FieldsLeft(last + w);
      FieldsLeft(w);
      FieldsOfNothing();
      assert Fields(init) + [] == Fields(init);
    }
  }

  /** The last word of a line that does not end in white space grows. */
  lemma GluedFields(f: string, t: string) returns (x: string)
    requires Plain(t)
    ensures Fields(f + t) == Untouched(f) + [x] && |x| >= |t| && x[|x| - |t|..] == t
    ensures !Open(f) ==> exists w :: Plain(w) && x == w + t && Fields(f) == Untouched(f) + [w]
    ensures Open(f) ==> x == t && Untouched(f) == Fields(f)
  {
    hide Fields, NoSpace, IsSpace;
    if Open(f) {
      FieldsBehind(f, t);
      x := t;
    } else {
      var a, w := LastWord(f);
      PlainGlue(w, t);
      FieldsBehind(a, w);
      FieldsBehind(a, w + t);
      assert f + t == a + (w + t);
      x := w + t;
      assert (Fields(a) + [w])[..|Fields(a)|] == Fields(a);
    }
  }

  lemma PlainGlue(w: string, t: string)
    requires Plain(w) && Plain(t)
    ensures Plain(w + t)
  {
  }

  /** The line stays as it is in the field when a hash sign is appended to it: the sign is not taken for
      the value of a flag, does not become part of one, and unmakes no flag that took the value of an
      earlier one away. */
  predicate Unhurt(f: string, field: Field) {
    && !EndsInFlag(Untouched(f), field)
    && (!Open(f) && EndsInFlag(Fields(f), field) ==> !HasFlag(Untouched(f), field))
  }

  lemma HashGives(f: string, x: string, field: Field)
    requires x != "" && x[|x| - 1] == '#'
    requires Open(f) ==> Untouched(f) == Fields(f)
    requires !Open(f) ==> exists w :: Plain(w) && x == w + "#" && Fields(f) == Untouched(f) + [w]
    ensures Given(Untouched(f) + [x], field) == Given(Fields(f), field) <==> Unhurt(f, field)
  {
    hide Fields, Sets, HasFlag, Given, Untouched, NoSpace, Open;
    var u := Untouched(f);
    HashIsNoFlag(x, field);
    GivenSnoc(u, x, field);
    if Open(f) {
      if EndsInFlag(u, field) {
        EndGivesNothing(u, field);
      }
    } else {
      var w :| Plain(w) && x == w + "#" && Fields(f) == u + [w];
      GivenSnoc(u, w, field);
      assert EndsInFlag(Fields(f), field) == Sets(w, field);
      if Sets(w, field) && !EndsInFlag(u, field) {
        FieldsPlain(f);
        PlainPart(u, [w]);
        if HasFlag(u, field) {
          GivenIsWord(u, field);
        } else {
          GivenNothing(u, field);
        }
      }
    }
  }

  lemma PlainPart(a: seq<string>, b: seq<string>)
    requires AllPlain(a + b)
    ensures AllPlain(a)
  {
    hide Plain;
    assert forall w <- a :: w in a + b;
  }

  lemma EndGivesNothing(words: seq<string>, field: Field)
    requires EndsInFlag(words, field)
    ensures Given(words, field) == ""
  {
    hide Sets, HasFlag, Given;
    var n := |words| - 1;
    GivenSnoc(words[..n], words[n], field);
    assert words == words[..n] + [words[n]];
  }

  lemma HashIsNoFlag(x: string, field: Field)
    requires x != "" && x[|x| - 1] == '#'
    ensures !Sets(x, field)
  {
  }

  lemma LongIsNoFlag(x: string, field: Field)
    requires |x| >= 8
    ensures !Sets(x, field)
  {
  }

  /** With a comment behind it, the field of the line is what it was. */
  predicate Agrees(f: string, c: string, field: Field) {
    if HasFlag(Fields(c), field) then Given(Fields(c), field) == Given(Fields(f), field) else Unhurt(f, field)
  }

  lemma CommentBehind(f: string, c: string, field: Field)
    ensures Get(Parsed(f + "# " + c), field) == Get(Parsed(f), field) <==> Agrees(f, c, field)
  {
    hide Fields, Sets, HasFlag, Given, Untouched, Open, Get, Parsed, Unhurt;
    HashIsPlain();
    var x := GluedFields(f, "#");
    SpaceInFront(c);
    FieldsConcat(f + "#", " " + c);
    assert f + "# " + c == f + "#" + (" " + c);
    ParsedGives(f, field);
    ParsedGives(f + "# " + c, field);
    HashIsNoFlag(x, field);
    GivenBehind(Untouched(f), x, Fields(c), field);
    HashGives(f, x, field);
  }

  lemma HashIsPlain()
    ensures Plain("#") && Plain("iptables")
  {
  }

  lemma SpaceInFront(c: string)
    ensures IsSpace((" " + c)[0]) && Fields(" " + c) == Fields(c)
  {
    hide Fields;
    assert (" " + c)[1..] == c;
    FieldsLeft(" " + c);
    FieldsLeft(c);
  }

  /** The words of the command behind its name. */
  function Behind(r: FirewallRule): seq<string> {
    Words(r)[1..]
  }

  /** The rule sets every field that a word of the line is a flag of. */
  predicate Covers(r: FirewallRule, f: string, field: Field) {
    HasFlag(Untouched(f), field) ==> Get(r, field) != ""
  }

  lemma CommandBehind(f: string, r: FirewallRule, field: Field)
    requires ValidRule(r)
    ensures Get(Parsed(f + Command(r)), field) == Get(Normal(r), field) <==> Covers(Normal(r), f, field)
    ensures Parsed(f + Command(r)).chain != ""
  {
    hide ValidRule, Fields, Sets, HasFlag, Given, Untouched, Open, Get, Parsed, Words, ParseWords, NoSpace,
      Normal, Behind, Command;
    HashIsPlain();
    var x := GluedFields(f, "iptables");
    var u, behind := Untouched(f), Behind(r);
    CommandFields(f, r);
    assert Fields(f + Command(r)) == u + [x] + behind;
    ParsedGives(f + Command(r), field);
    LongIsNoFlag(x, field);
    GivenBehind(u, x, behind, field);
    CommandGives(r, field);
    GivenSnoc(u, x, field);
    UntouchedPlain(f);
    PrefixGives(u, x, field);
    ChainGiven(f, r, u, x);
  }

  /** What the words in front of a command give is nothing if and only if none of them is a flag. */
  lemma PrefixGives(u: seq<string>, x: string, field: Field)
    requires AllPlain(u) && x != "" && !Sets(x, field)
    ensures Given(u + [x], field) == "" <==> !HasFlag(u, field)
  {
    hide Sets, HasFlag, Given, Plain;
    GivenSnoc(u, x, field);
    LastIsWithin(u, field);
    if !HasFlag(u, field) {
      GivenNothing(u, field);
    } else if !EndsInFlag(u, field) {
      GivenIsWord(u, field);
    }
  }

  lemma UntouchedPlain(f: string)
    ensures AllPlain(Untouched(f))
  {
    hide Fields, Plain;
    FieldsPlain(f);
  }

  /** The words of a printed command behind its name give the fields of the rule. */
  lemma CommandGives(r: FirewallRule, field: Field)
    requires ValidRule(r)
    ensures var behind := Behind(r);
            && (HasFlag(behind, field) <==> Get(Normal(r), field) != "")
            && Given(behind, field) == Get(Normal(r), field)
  {
    hide ValidRule, Fields, Sets, HasFlag, Given, Get, Parsed, Words, Values, Normal, Plain, JoinBy;
    var words, behind := Words(r), Behind(r);
    ValidHasValues(r);
    WordsArePlain(r);
    WordsStart(r);
    FieldsJoin(words);
    ParserInvertsPrinter(r);
    ParsedGives(Command(r), field);
    assert words == [] + ["iptables"] + behind;
    LongIsNoFlag("iptables", field);
    GivenBehind([], "iptables", behind, field);
    GivenSnoc([], "iptables", field);
    NoFlags(field);
    GivenNothing([], field);
    WordsEnd(r);
    if HasFlag(behind, field) {
      ActionIsNoFlag(r, field);
      PlainTail(words);
      GivenIsWord(behind, field);
    } else {
      GivenNothing(behind, field);
    }
  }

  lemma PlainTail(words: seq<string>)
    requires AllPlain(words) && words != []
    ensures AllPlain(words[1..])
  {
    hide Plain;
  }

  lemma WordsEnd(r: FirewallRule)
    requires Values(r)
    ensures |Words(r)| > 1 && Words(r)[|Words(r)| - 1] == r.action
  {
  }

  lemma ActionIsNoFlag(r: FirewallRule, field: Field)
    requires Values(r)
    ensures !Sets(r.action, field)
  {
  }

  lemma CommandFields(f: string, r: FirewallRule)
    requires ValidRule(r)
    ensures Fields(f + Command(r)) == Fields(f + "iptables") + Behind(r)
  {
    hide ValidRule, Fields, Words, Values, Plain;
    var behind := Behind(r);
    ValidHasValues(r);
    WordsArePlain(r);
    WordsStart(r);
    WordsEnd(r);
    PlainTail(Words(r));
    FieldsJoin(behind);
    var rest := JoinBy(behind, ' ');
    SpaceInFront(rest);
    FieldsConcat(f + "iptables", " " + rest);
    assert Command(r) == "iptables" + [' '] + rest;
    assert f + Command(r) == f + "iptables" + (" " + rest);
  }

  lemma ChainGiven(f: string, r: FirewallRule, u: seq<string>, x: string)
    requires ValidRule(r) && |x| >= 8
    requires Fields(f + Command(r)) == u + [x] + Behind(r)
    ensures Parsed(f + Command(r)).chain != ""
  {
    hide ValidRule, Fields, Sets, HasFlag, Given, Parsed, Words, Values, ParseWords, Behind, Command;
    ParsedGives(f + Command(r), Chain);
    LongIsNoFlag(x, Chain);
    GivenBehind(u, x, Behind(r), Chain);
    CommandGives(r, Chain);
    ValidHasValues(r);
    ValuesHaveChain(r);
  }
}
