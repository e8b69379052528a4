/** What the block of a port-forward rule makes the firewall do: its three commands as iptables reads them,
    and what becomes of the packets. */
module PortForwardMeaning {
  import opened Text
  import opened Options
  import opened Validate
  import opened PortForward
  import opened Iptables

  // ----- the words of the three commands

  lemma ValidIsBare(r: Rule)
    requires Valid(r)
    ensures Bare(r.protocol) && Bare(r.extPort) && Bare(r.intIP) && Bare(r.intPort) && Bare(r.intIP + ":" + r.intPort)
    ensures HasPorts(r.protocol)
  {
    hide ValidPort, AddressText, ValidPFName;
    PortIsBare(r.extPort);
    PortIsBare(r.intPort);
    NetworkIsBare(r.intIP);
    assert Bare("tcp") && Bare("udp");
    var to := r.intIP + ":" + r.intPort;
    assert to != "" && ' ' !in to && '"' !in to;
  }

  const NAT_HEAD: seq<string> := ["-t", "nat"] + (["-A", "PREROUTING"] + (["-i", "ppp0"] + ["-p"]))
  const FORWARD_HEAD: seq<string> := ["-A", "FORWARD"] + (["-i", "ppp0"] + (["-o", "lan"] + ["-p"]))
  const DNAT_TO: seq<string> := ["-j", "DNAT"] + ["--to-destination"]
  const STATE_NEW: seq<string> := ["-m", "state"] + ["--state", "NEW"]

  lemma NatHeadWords()
    ensures NatHead() == "iptables" + (Spaced(NAT_HEAD) + " ") && AllBare(NAT_HEAD)
  {
    hide Spaced;
    SpacedConcat(["-t", "nat"], ["-A", "PREROUTING"] + (["-i", "ppp0"] + ["-p"]));
    SpacedConcat(["-A", "PREROUTING"], ["-i", "ppp0"] + ["-p"]);
    SpacedConcat(["-i", "ppp0"], ["-p"]);
    SpacedTwo("-t", "nat");
    SpacedTwo("-A", "PREROUTING");
    SpacedTwo("-i", "ppp0");
    SpacedOne("-p");
  }

  lemma ForwardHeadWords()
    ensures ForwardHead() == "iptables" + (Spaced(FORWARD_HEAD) + " ") && AllBare(FORWARD_HEAD)
  {
    hide Spaced;
    SpacedConcat(["-A", "FORWARD"], ["-i", "ppp0"] + (["-o", "lan"] + ["-p"]));
    SpacedConcat(["-i", "ppp0"], ["-o", "lan"] + ["-p"]);
    SpacedConcat(["-o", "lan"], ["-p"]);
    SpacedTwo("-A", "FORWARD");
    SpacedTwo("-i", "ppp0");
    SpacedTwo("-o", "lan");
    SpacedOne("-p");
  }

  lemma DnatWords()
    ensures DnatTo() == Spaced(DNAT_TO) + " " && AllBare(DNAT_TO)
  {
    hide Spaced;
    SpacedConcat(["-j", "DNAT"], ["--to-destination"]);
    SpacedTwo("-j", "DNAT");
    SpacedOne("--to-destination");
  }

  lemma DportWord()
    ensures " --dport " == Spaced(["--dport"]) + " " && AllBare(["--dport"])
  {
    hide Spaced;
    SpacedOne("--dport");
  }

  lemma DstWord()
    ensures " -d " == Spaced(["-d"]) + " " && AllBare(["-d"])
  {
    hide Spaced;
    SpacedOne("-d");
  }

  lemma StateWords()
    ensures Spaced(STATE_NEW) == " -m state --state NEW" && AllBare(STATE_NEW)
  {
    hide Spaced;
    SpacedConcat(["-m", "state"], ["--state", "NEW"]);
    SpacedTwo("-m", "state");
    SpacedTwo("--state", "NEW");
  }

  lemma AcceptWords()
    ensures Spaced(["-j", "ACCEPT"]) == " -j ACCEPT" && AllBare(["-j", "ACCEPT"])
  {
    hide Spaced;
    SpacedTwo("-j", "ACCEPT");
  }

  lemma LogWords()
    ensures Spaced(["-j", "LOG"] + ["--log-prefix"]) == " -j LOG --log-prefix"
    ensures AllBare(["-j", "LOG"] + ["--log-prefix"])
  {
    hide Spaced;
    SpacedConcat(["-j", "LOG"], ["--log-prefix"]);
    SpacedTwo("-j", "LOG");
    SpacedOne("--log-prefix");
  }

  lemma AcceptTailWords()
    ensures AcceptTail() == Spaced(STATE_NEW + ["-j", "ACCEPT"]) && AllBare(STATE_NEW + ["-j", "ACCEPT"])
  {
    hide Spaced, Bare;
    StateWords();
    AcceptWords();
    SpacedConcat(STATE_NEW, ["-j", "ACCEPT"]);
  }

  lemma LogTailWords()
    ensures LogTo() == Spaced(STATE_NEW + (["-j", "LOG"] + ["--log-prefix"])) + " \""
    ensures AllBare(STATE_NEW + (["-j", "LOG"] + ["--log-prefix"]))
  {
    hide Spaced, Bare;
    StateWords();
    LogWords();
    SpacedConcat(STATE_NEW, ["-j", "LOG"] + ["--log-prefix"]);
    assert " -j LOG --log-prefix" + " \"" == " -j LOG --log-prefix \"";
    assert " -m state --state NEW" + (" -j LOG --log-prefix" + " \"")
        == (" -m state --state NEW" + " -j LOG --log-prefix") + " \"";
  }

  function To(r: Rule): string {
    r.intIP + ":" + r.intPort
  }

  function NatWords(r: Rule): seq<string> {
    NAT_HEAD + [r.protocol] + (["--dport"] + [r.extPort] + (DNAT_TO + [To(r)]))
  }

  function ForwardWords(r: Rule): seq<string> {
    FORWARD_HEAD + [r.protocol] + (["-d"] + [r.intIP] + (["--dport"] + [r.intPort]))
  }

  lemma NatText(r: Rule)
    ensures NatLine(r) == NatHead() + (r.protocol + (" --dport " + (r.extPort + (DnatTo() + (To(r) + "")))))
  {
    hide NatHead, DnatTo;
    var parts := [NatHead(), r.protocol, " --dport ", r.extPort, DnatTo(), r.intIP, ":", r.intPort];
    ConcatFour(parts);
    ConcatFour(parts[4..]);
    assert parts[4..][4..] == [];
    assert DnatTo() + (r.intIP + (":" + (r.intPort + ""))) == DnatTo() + (To(r) + "");
  }

  lemma ConcatFour(parts: seq<string>)
    requires |parts| >= 4
    ensures Concat(parts) == parts[0] + (parts[1] + (parts[2] + (parts[3] + Concat(parts[4..]))))
  {
    assert parts[1..][1..] == parts[2..] && parts[2..][1..] == parts[3..] && parts[3..][1..] == parts[4..];
    assert Concat(parts[3..]) == parts[3] + Concat(parts[4..]);
    assert Concat(parts[2..]) == parts[2] + Concat(parts[3..]);
    assert Concat(parts[1..]) == parts[1] + Concat(parts[2..]);
  }

  /** A command line made of a head, an option value, and more words. */
  lemma HeadAndMore(head: string, words: seq<string>, value: string, more: seq<string>, rest: string)
    requires head == "iptables" + (Spaced(words) + " ") && AllBare(words) && Bare(value) && AllBare(more)
    requires rest == "" || rest[0] == ' '
    ensures ShellWords(head + (value + (Spaced(more) + rest)))
         == ["iptables"] + (words + [value] + more) + ShellWords(rest)
  {
    hide Spaced, Bare, ShellWords;
    var all := words + [value] + more;
    SpacedPiece(Spaced(words) + " ", words, value, Spaced(more) + rest);
    SpacedConcat(words + [value], more);
    assert head + (value + (Spaced(more) + rest))
        == "iptables" + (Spaced(words) + " " + (value + (Spaced(more) + rest)));
    assert Spaced(words + [value]) + (Spaced(more) + rest) == Spaced(all) + rest;
    LineWords(all, rest);
  }

  lemma NatLineWords(r: Rule)
    requires Valid(r)
    ensures ShellWords(NatLine(r)) == ["iptables"] + NatWords(r)
  {
    hide Valid, Spaced, Bare, ShellWords, NatHead, DnatTo, NatLine;
    ValidIsBare(r);
    NatText(r);
    NatHeadWords();
    DnatWords();
    DportWord();
    NameIsBare();
    var more, to := ["--dport"] + [r.extPort] + (DNAT_TO + [To(r)]), DNAT_TO + [To(r)];
    SpacedPiece(DnatTo(), DNAT_TO, To(r), "");
    SpacedPiece(" --dport ", ["--dport"], r.extPort, Spaced(to) + "");
    SpacedConcat(["--dport"] + [r.extPort], to);
    assert Spaced(["--dport"] + [r.extPort]) + (Spaced(to) + "") == Spaced(more) + "";
    HeadAndMore(NatHead(), NAT_HEAD, r.protocol, more, "");
    assert ["iptables"] + NatWords(r) + [] == ["iptables"] + NatWords(r);
  }

  // ----- the commands

  function NatRule(r: Rule): Command {
    NOTHING.(table := "nat", chain := "PREROUTING", inIface := "ppp0", protocol := r.protocol, dport := r.extPort,
             target := "DNAT", to := To(r))
  }

  lemma NatTaken(r: Rule)
    requires HasPorts(r.protocol)
    ensures TakeAll(NOTHING, NatWords(r)) == Some(NatRule(r))
  {
    hide Take, TakeAll;
    var g: seq<string> := [];
    var f := ["--to-destination", To(r)] + g;
    var e := ["-j", "DNAT"] + f;
    var d := ["--dport", r.extPort] + e;
    var c := ["-p", r.protocol] + d;
    var b := ["-i", "ppp0"] + c;
    var a := ["-A", "PREROUTING"] + b;
    assert NatWords(r) == ["-t", "nat"] + a;
    var c0 := NOTHING;
    TakePlaces(c0, "nat");
    var c1 := c0.(table := "nat");
    TakeNext(c0, "-t", "nat", c1, a);
    TakePlaces(c1, "PREROUTING");
    var c2 := c1.(chain := "PREROUTING");
    TakeNext(c1, "-A", "PREROUTING", c2, b);
    TakePlaces(c2, "ppp0");
    var c3 := c2.(inIface := "ppp0");
    TakeNext(c2, "-i", "ppp0", c3, c);
    TakeMatches(c3, r.protocol);
    var c4 := c3.(protocol := r.protocol);
    TakeNext(c3, "-p", r.protocol, c4, d);
    TakeMatches(c4, r.extPort);
    var c5 := c4.(dport := r.extPort);
    TakeNext(c4, "--dport", r.extPort, c5, e);
    TakeTargets(c5, "DNAT");
    var c6 := c5.(target := "DNAT");
    TakeNext(c5, "-j", "DNAT", c6, f);
    TakeTargets(c6, To(r));
    TakeNext(c6, "--to-destination", To(r), NatRule(r), g);
    TakeNothing(NatRule(r));
  }

  lemma TakeNothing(c: Command)
    ensures TakeAll(c, []) == Some(c)
  {
  }

  // ----- the two commands of the chain FORWARD

  lemma ForwardLineWords(r: Rule, more: seq<string>, rest: string)
    requires Valid(r) && AllBare(more) && (rest == "" || rest[0] == ' ')
    ensures ShellWords(ForwardHead()
                       + (r.protocol + (" -d " + (r.intIP + (" --dport " + (r.intPort + (Spaced(more) + rest)))))))
         == ["iptables"] + (ForwardWords(r) + more) + ShellWords(rest)
  {
    hide Valid, Spaced, Bare, ShellWords, ForwardHead;
    ValidIsBare(r);
    ForwardHeadWords();
    DstWord();
    DportWord();
    var d, p := ["-d"] + [r.intIP], ["--dport"] + [r.intPort];
    SpacedPiece(" --dport ", ["--dport"], r.intPort, Spaced(more) + rest);
    SpacedPiece(" -d ", ["-d"], r.intIP, Spaced(p) + (Spaced(more) + rest));
    SpacedConcat(p, more);
    SpacedConcat(d, p + more);
    assert Spaced(d) + (Spaced(p) + (Spaced(more) + rest)) == Spaced(d + (p + more)) + rest;
    HeadAndMore(ForwardHead(), FORWARD_HEAD, r.protocol, d + (p + more), rest);
    assert FORWARD_HEAD + [r.protocol] + (d + (p + more)) == ForwardWords(r) + more;
  }

  const ACCEPT_WORDS: seq<string> := STATE_NEW + ["-j", "ACCEPT"]
  const LOG_WORDS: seq<string> := STATE_NEW + (["-j", "LOG"] + ["--log-prefix"])

  lemma AcceptLineWords(r: Rule)
    requires Valid(r)
    ensures ShellWords(AcceptLine(r)) == ["iptables"] + (ForwardWords(r) + ACCEPT_WORDS)
  {
    hide Valid, Spaced, ShellWords, ForwardHead, AcceptTail, ForwardWords, Bare;
    AcceptTailWords();
    NameIsBare();
    var parts := [ForwardHead(), r.protocol, " -d ", r.intIP, " --dport ", r.intPort, AcceptTail()];
    ConcatFour(parts);
    assert parts[4..] == [" --dport ", r.intPort, AcceptTail()];
    ConcatThree(" --dport ", r.intPort, AcceptTail());
    ForwardLineWords(r, ACCEPT_WORDS, "");
    assert ["iptables"] + (ForwardWords(r) + ACCEPT_WORDS) + [] == ["iptables"] + (ForwardWords(r) + ACCEPT_WORDS);
  }

  lemma ConcatThree(a: string, b: string, c: string)
    ensures Concat([a, b, c]) == a + (b + (c + ""))
  {
    assert [a, b, c][1..] == [b, c] && [b, c][1..] == [c] && [c][1..] == [];
    assert Concat([c]) == c + Concat([]);
    assert Concat([b, c]) == b + Concat([c]);
  }

  function Prefix(r: Rule): string {
    ToUpper(r.name) + ": "
  }

  /** The log prefix is the name in capital letters and a colon. */
  lemma PrefixSays(r: Rule)
    ensures var n := |r.name|;
            && |Prefix(r)| == n + 2 && Prefix(r)[n..] == ": "
            && SameLetters(Prefix(r)[..n], r.name) && forall c <- Prefix(r) :: !('a' <= c <= 'z')
  {
    var u := ToUpper(r.name);
    assert Prefix(r)[..|r.name|] == u && Prefix(r)[|r.name|..] == ": ";
    assert forall k | 0 <= k < |u| :: u[k] == UpperChar(r.name[k]);
    assert Prefix(r) == u + ": ";
  }

  lemma LogLineWords(r: Rule)
    requires Valid(r)
    ensures ShellWords(LogLine(r)) == ["iptables"] + (ForwardWords(r) + LOG_WORDS) + [Prefix(r)]
  {
    hide Valid, Spaced, ShellWords, ForwardHead, LogTo, ForwardWords, Bare, ToUpper;
    LogTailWords();
    NameHasNoQuote(r);
    LogText(r);
    QuotedWord(Prefix(r));
    ForwardLineWords(r, LOG_WORDS, " \"" + Prefix(r) + "\"");
  }

  lemma NameHasNoQuote(r: Rule)
    requires Valid(r)
    ensures '"' !in Prefix(r)
  {
    hide ValidPort, AddressText;
    var u := ToUpper(r.name);
    forall k | 0 <= k < |u| ensures u[k] != '"' {
      assert r.name[k] in r.name;
    }
  }

  lemma LogText(r: Rule)
    requires LogTo() == Spaced(LOG_WORDS) + " \""
    ensures LogLine(r) == ForwardHead()
         + (r.protocol + (" -d " + (r.intIP + (" --dport " + (r.intPort
            + (Spaced(LOG_WORDS) + (" \"" + Prefix(r) + "\"")))))))
  {
    hide Spaced, ForwardHead, LogTo, ToUpper;
    var u := ToUpper(r.name);
    var parts := [ForwardHead(), r.protocol, " -d ", r.intIP, " --dport ", r.intPort, LogTo(), u, ": \""];
    ConcatFour(parts);
    assert parts[4..] == [" --dport ", r.intPort, LogTo(), u, ": \""];
    ConcatFour(parts[4..]);
    assert parts[4..][4..] == [": \""] && [": \""][1..] == [];
    assert Concat([": \""]) == ": \"" + "";
    QuoteText(Spaced(LOG_WORDS), u);
  }

  lemma QuoteText(before: string, u: string)
    ensures before + " \"" + (u + (": \"" + "")) == before + (" \"" + (u + ": ") + "\"")
  {
    assert ": \"" + "" == ": " + "\"";
  }

  function ForwardRule(r: Rule, target: string, prefix: string): Command {
    NOTHING.(chain := "FORWARD", inIface := "ppp0", outIface := "lan", protocol := r.protocol, dst := r.intIP,
             dport := r.intPort, opening := true, target := target, prefix := prefix)
  }

  lemma ForwardTaken(r: Rule, target: string, more: seq<string>)
    requires HasPorts(r.protocol)
    ensures TakeAll(NOTHING, ForwardWords(r) + (STATE_NEW + (["-j", target] + more)))
         == TakeAll(ForwardRule(r, target, ""), more)
  {
    hide Take, TakeAll;
    var h := ["-j", target] + more;
    var g := ["--state", "NEW"] + h;
    var f := ["-m", "state"] + g;
    var e := ["--dport", r.intPort] + f;
    var d := ["-d", r.intIP] + e;
    var c := ["-p", r.protocol] + d;
    var b := ["-o", "lan"] + c;
    var a := ["-i", "ppp0"] + b;
    assert ForwardWords(r) + (STATE_NEW + (["-j", target] + more)) == ["-A", "FORWARD"] + a;
    var c0 := NOTHING;
    TakePlaces(c0, "FORWARD");
    var c1 := c0.(chain := "FORWARD");
    TakeNext(c0, "-A", "FORWARD", c1, a);
    TakePlaces(c1, "ppp0");
    var c2 := c1.(inIface := "ppp0");
    TakeNext(c1, "-i", "ppp0", c2, b);
    TakePlaces(c2, "lan");
    var c3 := c2.(outIface := "lan");
    TakeNext(c2, "-o", "lan", c3, c);
    TakeMatches(c3, r.protocol);
    var c4 := c3.(protocol := r.protocol);
    TakeNext(c3, "-p", r.protocol, c4, d);
    TakeMatches(c4, r.intIP);
    var c5 := c4.(dst := r.intIP);
    TakeNext(c4, "-d", r.intIP, c5, e);
    TakeMatches(c5, r.intPort);
    var c6 := c5.(dport := r.intPort);
    TakeNext(c5, "--dport", r.intPort, c6, f);
    TakeMatches(c6, "");
    TakeNext(c6, "-m", "state", c6, g);
    var c7 := c6.(opening := true);
    TakeNext(c6, "--state", "NEW", c7, h);
    TakeTargets(c7, target);
    TakeNext(c7, "-j", target, ForwardRule(r, target, ""), more);
  }

  // ----- the meaning of the three lines

  lemma DestinationOf(addr: string, port: string)
    requires ':' !in addr
    ensures Destination(addr + ":" + port) ==
            if PortNumber(port) then Some((addr, Some(Atoi(port).value))) else None
  {
    hide PortNumber, Atoi;
    CutFirstOf(addr, ':', port);
    assert addr + ":" + port == addr + [':'] + port;
  }

  lemma OnePortExact(port: string)
    requires ValidPort(port)
    ensures PortNumber(port) <==> ':' !in port
  {
    hide PortNumber;
    CutFirstInverse(port, ':');
    PortHasNumber(port);
  }

  /** The destination can be read back exactly when it is one address and one port: a range of ports would
      have to be written with a dash, and an IPv6 address in brackets. */
  lemma DestinationExact(r: Rule)
    requires Valid(r)
    ensures Destination(To(r)) ==
            if ':' in r.intIP || ':' in r.intPort then None else Some((r.intIP, Some(Atoi(r.intPort).value)))
    ensures ':' !in r.intIP && ':' !in r.intPort ==> Atoi(r.intPort).Some?
  {
    hide ValidPFName, AddressText, PortNumber, Destination, Atoi, ValidPort;
    OnePortExact(r.intPort);
    PortHasNumber(r.intPort);
    if ':' !in r.intIP {
      DestinationOf(r.intIP, r.intPort);
    } else {
      var addr, more := FirstColon(r.intIP);
      var port := more + ":" + r.intPort;
      assert To(r) == addr + ":" + port;
      assert port[|more|] == ':';
      PortHasNumber(port);
      DestinationOf(addr, port);
    }
  }

  lemma FirstColon(s: string) returns (a: string, b: string)
    requires ':' in s
    ensures ':' !in a && s == a + ":" + b
  {
    CutFirstInverse(s, ':');
    a, b := CutFirst(s, ':').before, CutFirst(s, ':').after;
  }

  /** One number has no colon in it. */
  lemma PortHasNumber(port: string)
    ensures PortNumber(port) ==> ':' !in port && Atoi(port).Some?
  {
    if PortNumber(port) {
      PortNumberChars(port);
    }
  }

  lemma NatMeaning(r: Rule)
    requires Valid(r)
    ensures Meaning(NatLine(r)) == if ':' in r.intIP || ':' in r.intPort then None else Some(NatRule(r))
  {
    hide ShellWords, TakeAll, Destination, NatLine, NatWords, ValidPFName, ValidPort, AddressText;
    NatLineWords(r);
    NatTaken(r);
    DestinationExact(r);
    assert (["iptables"] + NatWords(r))[1..] == NatWords(r);
  }

  lemma ForwardMeaning(r: Rule)
    requires Valid(r)
    ensures Meaning(LogLine(r)) == Some(ForwardRule(r, "LOG", Prefix(r)))
    ensures Meaning(AcceptLine(r)) == Some(ForwardRule(r, "ACCEPT", ""))
  {
    hide ShellWords, TakeAll, Take, Destination, LogLine, AcceptLine, ForwardWords, ValidPFName, ValidPort, AddressText,
      Prefix;
    LogLineWords(r);
    AcceptLineWords(r);
    var f := ForwardWords(r);
    assert (["iptables"] + (f + ACCEPT_WORDS))[1..] == f + (STATE_NEW + (["-j", "ACCEPT"] + []));
    ForwardTaken(r, "ACCEPT", []);
    TakeNothing(ForwardRule(r, "ACCEPT", ""));
    assert (["iptables"] + (f + LOG_WORDS) + [Prefix(r)])[1..]
        == f + (STATE_NEW + (["-j", "LOG"] + ["--log-prefix", Prefix(r)]));
    ForwardTaken(r, "LOG", ["--log-prefix", Prefix(r)]);
    TakeOne(ForwardRule(r, "LOG", ""), "--log-prefix", Prefix(r));
    TakeTargets(ForwardRule(r, "LOG", ""), Prefix(r));
  }

  lemma CommentMeaning(r: Rule)
    ensures Meaning(Comment(r)) == None
  {
    hide JoinBy, TakeAll;
    var rest := " PF: " + JoinBy([r.name, r.protocol, r.extPort, r.intIP, r.intPort], '|');
    assert Comment(r) == "#" + rest;
    WordEnds("#", rest);
  }

  // ----- what the block does

  /** The chains after the commands of the block: one rule behind those of PREROUTING, unless its destination
      cannot be read, and two behind those of FORWARD. */
  lemma BlockRuns(fw: Firewall, r: Rule)
    requires Valid(r)
    ensures var fw' := ExecuteAll(fw, BlockLines(r));
            && Chain(fw', "nat", "PREROUTING")
               == Chain(fw, "nat", "PREROUTING") + (if ':' in r.intIP || ':' in r.intPort then [] else [NatRule(r)])
            && Chain(fw', "filter", "FORWARD")
               == Chain(fw, "filter", "FORWARD") + [ForwardRule(r, "LOG", Prefix(r)), ForwardRule(r, "ACCEPT", "")]
            && forall t, c | (t, c) != ("nat", "PREROUTING") && (t, c) != ("filter", "FORWARD") ::
                 Chain(fw', t, c) == Chain(fw, t, c)
  {
    hide Meaning, Valid, Comment, NatLine, LogLine, AcceptLine, Prefix;
    CommentMeaning(r);
    NatMeaning(r);
    ForwardMeaning(r);
    RunFour(fw, Comment(r), NatLine(r), LogLine(r), AcceptLine(r));
    var f := Chain(fw, "filter", "FORWARD");
    assert f + [ForwardRule(r, "LOG", Prefix(r))] + [ForwardRule(r, "ACCEPT", "")]
        == f + [ForwardRule(r, "LOG", Prefix(r)), ForwardRule(r, "ACCEPT", "")];
    assert Chain(fw, "nat", "PREROUTING") + [] == Chain(fw, "nat", "PREROUTING");
  }

  lemma RunFour(fw: Firewall, a: string, b: string, c: string, d: string)
    ensures ExecuteAll(fw, [a, b, c, d]) == Execute(Execute(Execute(Execute(fw, a), b), c), d)
  {
    hide Execute, ExecuteAll;
    var fw1 := Execute(fw, a);
    var fw2 := Execute(fw1, b);
    var fw3 := Execute(fw2, c);
    RunOne(fw, [a, b, c, d]);
    RunOne(fw1, [b, c, d]);
    RunOne(fw2, [c, d]);
    RunOne(fw3, [d]);
    RunNone(Execute(fw3, d));
    assert [a, b, c, d][1..] == [b, c, d] && [b, c, d][1..] == [c, d] && [c, d][1..] == [d] && [d][1..] == [];
  }

  lemma RunOne(fw: Firewall, lines: seq<string>)
    requires lines != []
    ensures ExecuteAll(fw, lines) == ExecuteAll(Execute(fw, lines[0]), lines[1..])
  {
    hide Execute;
  }

  lemma RunNone(fw: Firewall)
    ensures ExecuteAll(fw, []) == fw
  {
  }

  /** A packet from the internet to the external port. */
  predicate Arrives(r: Rule, p: Packet) {
    p.inIface == "ppp0" && p.protocol == r.protocol && InPorts(r.extPort, p.dport)
  }

  /** A packet that opens a connection from the internet to the internal address and port. */
  predicate Passes(r: Rule, p: Packet, inside: (string, string) -> bool) {
    && p.inIface == "ppp0" && p.outIface == "lan" && p.protocol == r.protocol && p.opening
    && inside(p.dst, r.intIP) && InPorts(r.intPort, p.dport)
  }

  lemma RuleMatches(r: Rule, p: Packet, inside: (string, string) -> bool, target: string, prefix: string)
    requires Valid(r)
    ensures Matches(NatRule(r), p, inside) <==> Arrives(r, p)
    ensures Matches(ForwardRule(r, target, prefix), p, inside) <==> Passes(r, p, inside)
  {
    hide InPorts, ValidPFName;
    ValidIsBare(r);
  }

  /** Behind the block: a packet for which no older rule decides is sent on to the internal address and port
      if it comes from the internet to the external port and the destination can be read, and else is not
      changed; and it is accepted if it opens a connection to the internal address and port, and else left to
      the policy. A packet for which an older rule decides is treated as before. */
  lemma BlockForwards(fw: Firewall, r: Rule, p: Packet, inside: (string, string) -> bool)
    requires Valid(r)
    ensures var fw' := ExecuteAll(fw, BlockLines(r));
            var pre, pre' := Chain(fw, "nat", "PREROUTING"), Chain(fw', "nat", "PREROUTING");
            var forward, forward' := Chain(fw, "filter", "FORWARD"), Chain(fw', "filter", "FORWARD");
            && Translate(pre', p, inside)
               == (if Verdict(pre, p, inside).Some? then Translate(pre, p, inside)
                   else if Arrives(r, p) && ':' !in r.intIP && ':' !in r.intPort
                   then p.(dst := r.intIP, dport := Atoi(r.intPort).value)
                   else p)
            && Verdict(forward', p, inside)
               == (if Verdict(forward, p, inside).Some? then Verdict(forward, p, inside)
                   else if Passes(r, p, inside) then Some("ACCEPT") else None)
    ensures ':' !in r.intIP && ':' !in r.intPort ==> Atoi(r.intPort).Some?
  {
    hide Valid, Matches, Arrives, Passes, BlockLines, ExecuteAll, Verdict, Translate, Prefix, Destination, Atoi;
    BlockRuns(fw, r);
    DestinationExact(r);
    var log, accept := ForwardRule(r, "LOG", Prefix(r)), ForwardRule(r, "ACCEPT", "");
    RuleMatches(r, p, inside, "LOG", Prefix(r));
    RuleMatches(r, p, inside, "ACCEPT", "");
    VerdictBehind(Chain(fw, "filter", "FORWARD"), [log, accept], p, inside);
    TranslateBehind(Chain(fw, "nat", "PREROUTING"), if ':' in r.intIP || ':' in r.intPort then [] else [NatRule(r)], p,
                    inside);
    LoggedVerdict(log, accept, p, inside);
    OneTranslates(NatRule(r), p, inside);
  }

  lemma LoggedVerdict(log: Command, accept: Command, p: Packet, inside: (string, string) -> bool)
    requires log.target == "LOG" && accept.target != "LOG"
    ensures Verdict([log, accept], p, inside) == if Matches(accept, p, inside) then Some(accept.target) else None
  {
    hide Matches;
    assert [log, accept][1..] == [accept] && [accept][1..] == [];
    assert Verdict([log, accept], p, inside) == Verdict([accept], p, inside);
  }

  lemma OneTranslates(c: Command, p: Packet, inside: (string, string) -> bool)
    requires c.target == "DNAT"
    ensures Translate([], p, inside) == p
    ensures Translate([c], p, inside) ==
            if Matches(c, p, inside) && Destination(c.to).Some?
            then var (addr, port) := Destination(c.to).value;
                 p.(dst := addr, dport := if port.Some? then port.value else p.dport)
            else p
  {
    hide Matches, Destination;
    assert [c][1..] == [];
  }

  /** So a connection from the internet reaches the internal address and port and is accepted, if and only if
      these are one IPv4 address and one port. */
  lemma ForwardedExact(fw: Firewall, r: Rule, p: Packet, inside: (string, string) -> bool)
    requires Valid(r) && Arrives(r, p) && p.outIface == "lan" && p.opening && p.dst != r.intIP
    requires forall q: Packet :: Verdict(Chain(fw, "nat", "PREROUTING"), q, inside) == None
    requires forall q: Packet :: Verdict(Chain(fw, "filter", "FORWARD"), q, inside) == None
    requires inside(r.intIP, r.intIP)
    ensures var fw' := ExecuteAll(fw, BlockLines(r));
            var q := Translate(Chain(fw', "nat", "PREROUTING"), p, inside);
            (q.dst == r.intIP && Atoi(r.intPort) == Some(q.dport)
             && Verdict(Chain(fw', "filter", "FORWARD"), q, inside) == Some("ACCEPT"))
            <==> ':' !in r.intIP && ':' !in r.intPort
  {
    hide Valid, Matches, BlockLines, ExecuteAll, Verdict, Translate, Atoi, Chain, ValidPort;
    BlockForwards(fw, r, p, inside);
    var q := Translate(Chain(ExecuteAll(fw, BlockLines(r)), "nat", "PREROUTING"), p, inside);
    BlockForwards(fw, r, q, inside);
    SinglePort(r.intPort);
  }

  lemma SinglePort(port: string)
    ensures ':' !in port && Atoi(port).Some? ==> InPorts(port, Atoi(port).value)
  {
    CutFirstInverse(port, ':');
  }

  /** A rule that the page accepts, for a range of ports: it is displayed, but forwards nothing. */
  lemma RangeIsNotForwarded(name: string, fw: Firewall)
    requires ValidPFName(name)
    ensures var r := Rule(name, "tcp", "80:90", "192.168.1.10", "80:90");
            && Valid(r)
            && Chain(ExecuteAll(fw, BlockLines(r)), "nat", "PREROUTING") == Chain(fw, "nat", "PREROUTING")
  {
    hide BlockLines, ExecuteAll, ValidPFName, ValidPort;
    var r := Rule(name, "tcp", "80:90", "192.168.1.10", "80:90");
    RangeIsValid();
    AddressIsText();
    assert "80:90"[2] == ':';
    BlockRuns(fw, r);
    assert Chain(fw, "nat", "PREROUTING") + [] == Chain(fw, "nat", "PREROUTING");
  }

  lemma RangeIsValid()
    ensures ValidPort("80:90")
  {
    CutFirstOf("80", ':', "90");
    assert "80" + [':'] + "90" == "80:90";
    TwoDigits("80");
    TwoDigits("90");
  }

  lemma TwoDigits(s: string)
    requires |s| == 2 && '1' <= s[0] <= '9' && Digit(s[1])
    ensures PortNumber(s)
  {
    assert s[..1] == [s[0]];
    assert Digits(s[..1]) == Some(s[0] as int - '0' as int);
  }

  lemma AddressIsText()
    ensures AddressText("192.168.1.10") && ':' !in "192.168.1.10"
  {
  }
}
