/** What the shell and iptables make of a line of the firewall scripts, as far as these scripts go: the words
    of the line, the command they are (iptables(8) and iptables-extensions(8)), the chains after it, and what
    the chains do to a packet. */
module Iptables {
  import opened Text
  import opened Options
  import opened Validate

  // ----- the words of a line

  /** The words as the shell splits them: blanks between words, and double quotes around blanks in a word.
      `word` is what has been read of the current word, if one has begun. */
  function WordsFrom(s: string, word: Option<string>, quoted: bool): seq<string> {
    if s == "" then (if word.Some? then [word.value] else [])
    else
      var before := if word.Some? then word.value else "";
      if s[0] == '"' then WordsFrom(s[1..], Some(before), !quoted)
      else if s[0] == ' ' && !quoted then (if word.Some? then [word.value] else []) + WordsFrom(s[1..], None, false)
      else WordsFrom(s[1..], Some(before + [s[0]]), quoted)
  }

  function ShellWords(line: string): seq<string> {
    WordsFrom(line, None, false)
  }

  // ----- the command

  /** A rule and where it is to go; a text that is empty stands for an option that is not given. */
  datatype Command = Command(
    table: string, chain: string, insert: bool, inIface: string, outIface: string, protocol: string,
    src: string, dst: string, sport: string, dport: string, opening: bool,
    target: string, to: string, prefix: string)

  const NOTHING := Command("filter", "", false, "", "", "", "", "", "", "", false, "", "", "")

  /** An option and its value. The port options belong to the protocols that have ports. */
  function Take(c: Command, flag: string, value: string): Option<Command> {
    if flag == "-t" then Some(c.(table := value))
    else if flag == "-A" then Some(c.(chain := value, insert := false))
    else if flag == "-I" then Some(c.(chain := value, insert := true))
    else if flag == "-i" then Some(c.(inIface := value))
    else if flag == "-o" then Some(c.(outIface := value))
    else if flag == "-p" then Some(c.(protocol := value))
    else if flag == "-s" then Some(c.(src := value))
    else if flag == "-d" then Some(c.(dst := value))
    else if flag == "--sport" then (if HasPorts(c.protocol) then Some(c.(sport := value)) else None)
    else if flag == "--dport" then (if HasPorts(c.protocol) then Some(c.(dport := value)) else None)
    else if flag == "-m" then (if value == "state" then Some(c) else None)
    else if flag == "--state" then (if value == "NEW" then Some(c.(opening := true)) else None)
    else if flag == "-j" then Some(c.(target := value))
    else if flag == "--to-destination" then Some(c.(to := value))
    else if flag == "--log-prefix" then Some(c.(prefix := value))
    else None
  }

  predicate HasPorts(protocol: string) {
    protocol == "tcp" || protocol == "udp"
  }

  /** The options from the left, if there is a value for each of them. */
  function TakeAll(c: Command, words: seq<string>): Option<Command>
    decreases |words|
  {
    if words == [] then Some(c)
    else if |words| == 1 then None
    else
      match Take(c, words[0], words[1])
      case None => None
      case Some(c') => TakeAll(c', words[2..])
  }

  /** Where a DNAT target sends packets: an address, and behind a colon a port. */
  function Destination(to: string): Option<(string, Option<int>)> {
    match CutFirst(to, ':')
    case NoCut => Some((to, None))
    case Cut(addr, port) => if PortNumber(port) then Some((addr, Some(Atoi(port).value))) else None
  }

  /** A command that can be carried out: it has a chain and a target; packets that leave the router itself
      have no input interface and packets for it no output interface; and DNAT has a destination. */
  predicate Sound(c: Command) {
    && c.chain != "" && c.target != ""
    && (c.chain == "OUTPUT" || c.chain == "POSTROUTING" ==> c.inIface == "")
    && (c.chain == "INPUT" || c.chain == "PREROUTING" ==> c.outIface == "")
    && (c.target == "DNAT" ==> c.to != "" && Destination(c.to).Some?)
  }

  /** The rule that a line adds to a chain, if it is a command that can be carried out. */
  function Meaning(line: string): Option<Command> {
    var words := ShellWords(line);
    if words == [] || words[0] != "iptables" then None
    else
      match TakeAll(NOTHING, words[1..])
      case None => None
      case Some(c) => if Sound(c) then Some(c) else None
  }

  // ----- the chains

  type Firewall = map<(string, string), seq<Command>>

  function Chain(fw: Firewall, table: string, chain: string): seq<Command> {
    if (table, chain) in fw then fw[(table, chain)] else []
  }

  function Execute(fw: Firewall, line: string): Firewall {
    match Meaning(line)
    case None => fw
    case Some(c) =>
      var rules := Chain(fw, c.table, c.chain);
      fw[(c.table, c.chain) := if c.insert then [c] + rules else rules + [c]]
  }

  /** A script goes on behind a command that fails. */
  function ExecuteAll(fw: Firewall, lines: seq<string>): Firewall
    decreases |lines|
  {
    if lines == [] then fw else ExecuteAll(Execute(fw, lines[0]), lines[1..])
  }

  // ----- packets

  /** `opening` says that the packet opens a connection. */
  datatype Packet = Packet(
    inIface: string, outIface: string, protocol: string, src: string, dst: string,
    sport: int, dport: int, opening: bool)

  /** A port, or two separated by a colon. */
  predicate InPorts(ports: string, port: int) {
    match CutFirst(ports, ':')
    case NoCut => Atoi(ports) == Some(port)
    case Cut(low, high) => Atoi(low).Some? && Atoi(high).Some? && Atoi(low).value <= port <= Atoi(high).value
  }

  /** `inside` says which addresses belong to an address or network. */
  predicate Matches(c: Command, p: Packet, inside: (string, string) -> bool) {
    && (c.inIface == "" || c.inIface == p.inIface) && (c.outIface == "" || c.outIface == p.outIface)
    && (c.protocol == "" || c.protocol == p.protocol)
    && (c.src == "" || inside(p.src, c.src)) && (c.dst == "" || inside(p.dst, c.dst))
    && (c.sport == "" || InPorts(c.sport, p.sport)) && (c.dport == "" || InPorts(c.dport, p.dport))
    && (c.opening ==> p.opening)
  }

  /** The target of the first rule that matches and does more than log; the policy decides if there is none. */
  function Verdict(rules: seq<Command>, p: Packet, inside: (string, string) -> bool): Option<string> {
    if rules == [] then None
    else if Matches(rules[0], p, inside) && rules[0].target != "LOG" then Some(rules[0].target)
    else Verdict(rules[1..], p, inside)
  }

  /** The packet behind a chain of the table nat: the first rule that matches decides. */
  function Translate(rules: seq<Command>, p: Packet, inside: (string, string) -> bool): Packet {
    if rules == [] then p
    else if Matches(rules[0], p, inside) && rules[0].target != "LOG" then
      if rules[0].target == "DNAT" && Destination(rules[0].to).Some? then
        var (addr, port) := Destination(rules[0].to).value;
        p.(dst := addr, dport := if port.Some? then port.value else p.dport)
      else p
    else Translate(rules[1..], p, inside)
  }

  // ----- words in front of words

  /** A word without blanks and quotes. */
  predicate Bare(w: string) {
    w != "" && ' ' !in w && '"' !in w
  }

  /** Every word with a blank in front. */
  function Spaced(words: seq<string>): string {
    if words == [] then "" else " " + (words[0] + Spaced(words[1..]))
  }

  lemma {:induction false} WordGrows(w: string, rest: string, word: Option<string>)
    requires Bare(w)
    ensures WordsFrom(w + rest, word, false)
         == WordsFrom(rest, Some((if word.Some? then word.value else "") + w), false)
  {
    var before := if word.Some? then word.value else "";
    assert (w + rest)[1..] == w[1..] + rest;
    assert w[0] in w;
    if |w| == 1 {
      assert w[1..] + rest == rest && before + [w[0]] == before + w;
    } else {
      assert Bare(w[1..]);
      WordGrows(w[1..], rest, Some(before + [w[0]]));
      assert before + [w[0]] + w[1..] == before + w;
    }
  }

  /** A word that is followed by nothing or by a blank. */
  lemma WordEnds(w: string, rest: string)
    requires Bare(w) && (rest == "" || rest[0] == ' ')
    ensures ShellWords(w + rest) == [w] + ShellWords(rest)
    ensures ShellWords(" " + (w + rest)) == [w] + ShellWords(rest)
  {
    WordGrows(w, rest, None);
    assert "" + w == w;
    assert (" " + (w + rest))[1..] == w + rest;
    if rest != "" {
      assert WordsFrom(rest, Some(w), false) == [w] + WordsFrom(rest[1..], None, false);
      assert WordsFrom(rest, None, false) == [] + WordsFrom(rest[1..], None, false);
    }
  }

  predicate AllBare(words: seq<string>) {
    forall w <- words :: Bare(w)
  }

  lemma {:induction false} SpacedWords(words: seq<string>, rest: string)
    requires AllBare(words) && (rest == "" || rest[0] == ' ')
    ensures ShellWords(Spaced(words) + rest) == words + ShellWords(rest)
    ensures Spaced(words) + rest == "" || (Spaced(words) + rest)[0] == ' '
  {
    hide ShellWords, Bare, Spaced;
    if words == [] {
      NothingSpaced();
      assert "" + rest == rest && [] + ShellWords(rest) == ShellWords(rest);
    } else {
      var w, behind := words[0], words[1..];
      SpacedWords(behind, rest);
      SpacedCons(words, rest);
      WordEnds(w, Spaced(behind) + rest);
      assert [w] + (behind + ShellWords(rest)) == words + ShellWords(rest);
    }
  }

  lemma NothingSpaced()
    ensures Spaced([]) == ""
  {
  }

  lemma SpacedCons(words: seq<string>, rest: string)
    requires words != []
    ensures Spaced(words) + rest == " " + (words[0] + (Spaced(words[1..]) + rest))
  {
    var tail := Spaced(words[1..]);
    assert " " + (words[0] + tail) + rest == " " + (words[0] + (tail + rest));
  }

  lemma {:induction false} SpacedConcat(a: seq<string>, b: seq<string>)
    ensures Spaced(a + b) == Spaced(a) + Spaced(b)
  {
    if a == [] {
      assert a + b == b && "" + Spaced(b) == Spaced(b);
    } else {
      assert (a + b)[1..] == a[1..] + b;
      SpacedConcat(a[1..], b);
      assert " " + (a[0] + (Spaced(a[1..]) + Spaced(b))) == " " + (a[0] + Spaced(a[1..])) + Spaced(b);
    }
  }

  /** A text that ends in a blank, the word behind it, and more. */
  lemma SpacedPiece(text: string, words: seq<string>, w: string, rest: string)
    requires text == Spaced(words) + " "
    ensures text + (w + rest) == Spaced(words + [w]) + rest
  {
    hide Spaced;
    SpacedConcat(words, [w]);
    SpacedOne(w);
    assert Spaced(words) + " " + (w + rest) == Spaced(words) + (" " + w) + rest;
  }

  lemma SpacedOne(w: string)
    ensures Spaced([w]) == " " + w
  {
    assert Spaced([w]) == " " + (w + Spaced([w][1..])) && [w][1..] == [];
  }

  lemma SpacedTwo(a: string, b: string)
    ensures Spaced([a, b]) == " " + a + " " + b
  {
    assert [a, b][1..] == [b];
    SpacedOne(b);
    assert Spaced([a, b]) == " " + (a + Spaced([b]));
  }

  /** The words of a command line. */
  lemma LineWords(words: seq<string>, rest: string)
    requires AllBare(words) && (rest == "" || rest[0] == ' ')
    ensures ShellWords("iptables" + (Spaced(words) + rest)) == ["iptables"] + words + ShellWords(rest)
  {
    hide ShellWords, Spaced;
    SpacedWords(words, rest);
    NameIsBare();
    WordEnds("iptables", Spaced(words) + rest);
    assert ["iptables"] + (words + ShellWords(rest)) == ["iptables"] + words + ShellWords(rest);
  }

  lemma NameIsBare()
    ensures Bare("iptables") && ShellWords("") == []
  {
  }

  /** A last word in quotes, with blanks in it or not. */
  lemma QuotedWord(q: string)
    requires '"' !in q
    ensures ShellWords(" \"" + q + "\"") == [q]
  {
    var s := " \"" + q + "\"";
    assert s[0] == ' ' && s[1] == '"';
    var t := s[1..];
    assert t[1..] == q + "\"";
    InQuotes(q, "");
    assert "" + q == q;
    assert WordsFrom(t, None, false) == WordsFrom(t[1..], Some(""), true);
  }

  lemma {:induction false} InQuotes(q: string, before: string)
    requires '"' !in q
    ensures WordsFrom(q + "\"", Some(before), true) == [before + q]
  {
    if q == "" {
      assert q + "\"" == "\"" && "\""[1..] == "" && before + q == before;
    } else {
      assert (q + "\"")[1..] == q[1..] + "\"" && q[0] in q;
      InQuotes(q[1..], before + [q[0]]);
      assert before + [q[0]] + q[1..] == before + q;
    }
  }

  // ----- validated values are words

  predicate PortChar(c: char) {
    Digit(c) || c == '+' || c == '-' || c == ':'
  }

  lemma PortNumberChars(s: string)
    requires PortNumber(s)
    ensures s != "" && (forall c <- s :: PortChar(c)) && ':' !in s
  {
    if s[0] == '+' || s[0] == '-' {
      DigitsAreDigits(s[1..]);
      assert s == [s[0]] + s[1..];
    } else {
      DigitsAreDigits(s);
    }
  }

  lemma PortIsBare(port: string)
    requires ValidPort(port)
    ensures Bare(port)
  {
    hide PortNumber;
    CutFirstInverse(port, ':');
    match CutFirst(port, ':')
    case NoCut => PortNumberChars(port);
    case Cut(low, high) =>
      PortNumberChars(low);
      PortNumberChars(high);
  }

  lemma NetworkIsBare(s: string)
    requires AddressText(s) || CIDRText(s)
    ensures Bare(s)
  {
  }

  lemma IfaceIsBare(s: string)
    requires ValidIface(s)
    ensures Bare(s)
  {
    assert s == [s[0]] + s[1..];
  }

  // ----- options in front of options

  lemma {:induction false} TakeConcat(c: Command, a: seq<string>, b: seq<string>)
    requires |a| % 2 == 0
    ensures TakeAll(c, a + b) == match TakeAll(c, a) case None => None case Some(c') => TakeAll(c', b)
    decreases |a|
  {
    if a == [] {
      assert a + b == b;
    } else {
      assert (a + b)[2..] == a[2..] + b;
      var next := Take(c, a[0], a[1]);
      if next.Some? {
        TakeConcat(next.value, a[2..], b);
      }
    }
  }

  lemma TakeOne(c: Command, flag: string, value: string)
    ensures TakeAll(c, [flag, value]) == Take(c, flag, value)
  {
    hide Take;
    assert [flag, value][2..] == [];
  }

  /** One option in front of others. */
  lemma TakeNext(c: Command, flag: string, value: string, next: Command, rest: seq<string>)
    requires Take(c, flag, value) == Some(next)
    ensures TakeAll(c, [flag, value] + rest) == TakeAll(next, rest)
  {
    hide Take;
    TakeConcat(c, [flag, value], rest);
    TakeOne(c, flag, value);
  }

  lemma TakePlaces(c: Command, v: string)
    ensures Take(c, "-t", v) == Some(c.(table := v)) && Take(c, "-A", v) == Some(c.(chain := v, insert := false))
    ensures Take(c, "-I", v) == Some(c.(chain := v, insert := true))
    ensures Take(c, "-i", v) == Some(c.(inIface := v)) && Take(c, "-o", v) == Some(c.(outIface := v))
  {
  }

  lemma TakeMatches(c: Command, v: string)
    ensures Take(c, "-p", v) == Some(c.(protocol := v))
    ensures Take(c, "-s", v) == Some(c.(src := v)) && Take(c, "-d", v) == Some(c.(dst := v))
    ensures Take(c, "--sport", v) == if HasPorts(c.protocol) then Some(c.(sport := v)) else None
    ensures Take(c, "--dport", v) == if HasPorts(c.protocol) then Some(c.(dport := v)) else None
    ensures Take(c, "-m", "state") == Some(c) && Take(c, "--state", "NEW") == Some(c.(opening := true))
  {
  }

  lemma TakeTargets(c: Command, v: string)
    ensures Take(c, "-j", v) == Some(c.(target := v))
    ensures Take(c, "--to-destination", v) == Some(c.(to := v))
    ensures Take(c, "--log-prefix", v) == Some(c.(prefix := v))
  {
  }

  // ----- rules behind rules

  lemma {:induction false} VerdictBehind(a: seq<Command>, b: seq<Command>, p: Packet, inside: (string, string) -> bool)
    ensures Verdict(a + b, p, inside) ==
            if Verdict(a, p, inside).Some? then Verdict(a, p, inside) else Verdict(b, p, inside)
  {
    hide Matches;
    if a == [] {
      assert a + b == b;
    } else {
      assert (a + b)[1..] == a[1..] + b;
      VerdictBehind(a[1..], b, p, inside);
    }
  }

  lemma {:induction false} TranslateBehind(
    a: seq<Command>, b: seq<Command>, p: Packet, inside: (string, string) -> bool)
    ensures Translate(a + b, p, inside) ==
            if Verdict(a, p, inside).Some? then Translate(a, p, inside) else Translate(b, p, inside)
  {
    hide Matches, Destination;
    if a == [] {
      assert a + b == b;
    } else {
      assert (a + b)[1..] == a[1..] + b;
      TranslateBehind(a[1..], b, p, inside);
    }
  }
}
