/** What the printed command of a custom rule makes the firewall do: when iptables accepts it, where its rule
    goes, and which packets it matches. */
module CustomRuleMeaning {
  import opened Text
  import opened Options
  import opened Validate
  import opened CustomRules
  import opened CustomRuleList
  import opened Iptables

  // ----- the words

  lemma {:induction false} JoinIsSpaced(words: seq<string>)
    requires words != []
    ensures JoinBy(words, ' ') == words[0] + Spaced(words[1..])
  {
    if |words| == 1 {
      assert words[0] + "" == words[0];
    } else {
      JoinIsSpaced(words[1..]);
      assert words[0] + [' '] + (words[1] + Spaced(words[1..][1..]))
          == words[0] + (" " + (words[1] + Spaced(words[1..][1..])));
    }
  }

  predicate Fits(value: string) {
    value == "" || Bare(value)
  }

  /** Every value is one word without quotes, or not given. */
  predicate ValuesFit(r: FirewallRule) {
    && Bare(r.chain) && Bare(r.action) && Fits(r.protocol) && Fits(r.inIface) && Fits(r.outIface)
    && Fits(r.srcIP) && Fits(r.dstIP) && Fits(r.srcPort) && Fits(r.dstPort)
  }

  lemma ValidFits(r: FirewallRule)
    requires ValidRule(r)
    ensures ValuesFit(r)
  {
    hide Bare, ValidPort, AddressText, CIDRText, ValidIface, ValidChain, ValidAction, ValidProtocol;
    NamesFit(r);
    if r.srcIP != "" { NetworkIsBare(r.srcIP); }
    if r.dstIP != "" { NetworkIsBare(r.dstIP); }
    if r.srcPort != "" { PortIsBare(r.srcPort); }
    if r.dstPort != "" { PortIsBare(r.dstPort); }
    if r.inIface != "" { IfaceIsBare(r.inIface); }
    if r.outIface != "" { IfaceIsBare(r.outIface); }
  }

  lemma NamesFit(r: FirewallRule)
    requires ValidChain(r.chain) && ValidAction(r.action) && ValidProtocol(r.protocol)
    ensures Bare(r.chain) && Bare(r.action) && Fits(r.protocol)
  {
    ChainFits(r.chain);
    ActionFits(r.action);
  }

  lemma ChainFits(chain: string)
    requires ValidChain(chain)
    ensures Bare(chain)
  {
  }

  lemma ActionFits(action: string)
    requires ValidAction(action)
    ensures Bare(action)
  {
  }

  lemma OptFits(words: seq<string>, flag: string, value: string)
    requires AllBare(words) && Bare(flag) && Fits(value)
    ensures AllBare(words + Opt(flag, value))
  {
    hide Bare;
  }

  lemma FlagsFit()
    ensures Bare("-A") && Bare("-p") && Bare("-i") && Bare("-o") && Bare("-s") && Bare("-d")
    ensures Bare("--sport") && Bare("--dport") && Bare("-j")
  {
  }

  function ProtocolOf(r: FirewallRule): string {
    if r.protocol == "all" then "" else r.protocol
  }

  lemma WordsFit(r: FirewallRule)
    requires ValuesFit(r)
    ensures AllBare(CustomRules.Words(r)[1..])
  {
    hide Bare, Opt, AllBare;
    FlagsFit();
    var a := ["-A", r.chain];
    StartFits(r.chain);
    OptFits(a, "-p", ProtocolOf(r));
    var b := a + Opt("-p", ProtocolOf(r));
    OptFits(b, "-i", r.inIface);
    var c := b + Opt("-i", r.inIface);
    OptFits(c, "-o", r.outIface);
    var d := c + Opt("-o", r.outIface);
    OptFits(d, "-s", r.srcIP);
    var e := d + Opt("-s", r.srcIP);
    OptFits(e, "-d", r.dstIP);
    var f := e + Opt("-d", r.dstIP);
    OptFits(f, "--sport", r.srcPort);
    var g := f + Opt("--sport", r.srcPort);
    OptFits(g, "--dport", r.dstPort);
    OptFits(g + Opt("--dport", r.dstPort), "-j", r.action);
    assert CustomRules.Words(r)[1..] == g + Opt("--dport", r.dstPort) + Opt("-j", r.action);
  }

  lemma StartFits(chain: string)
    requires Bare("-A") && Bare(chain)
    ensures AllBare(["-A", chain])
  {
    hide Bare;
  }

  lemma CommandWords(r: FirewallRule)
    requires ValidRule(r)
    ensures ShellWords(CustomRules.Command(r)) == ["iptables"] + CustomRules.Words(r)[1..]
  {
    hide ValidRule, CustomRules.Words, Spaced, ShellWords, AllBare;
    ValidFits(r);
    WordsFit(r);
    WordsStart(r);
    NameIsBare();
    JoinIsSpaced(CustomRules.Words(r));
    var words := CustomRules.Words(r)[1..];
    LineWords(words, "");
    assert CustomRules.Command(r) == "iptables" + (Spaced(words) + "");
    assert ["iptables"] + words + [] == ["iptables"] + words;
  }

  // ----- the command

  /** The port options need a protocol that has ports. */
  predicate PortsFit(r: FirewallRule) {
    (r.srcPort == "" && r.dstPort == "") || HasPorts(r.protocol)
  }

  function RuleFor(r: FirewallRule): Iptables.Command {
    NOTHING.(chain := r.chain, protocol := ProtocolOf(r), inIface := r.inIface, outIface := r.outIface,
             src := r.srcIP, dst := r.dstIP, sport := r.srcPort, dport := r.dstPort, target := r.action)
  }

  lemma TakeOpt(words: seq<string>, got: Option<Iptables.Command>, flag: string, value: string)
    returns (words': seq<string>, got': Option<Iptables.Command>)
    requires |words| % 2 == 0 && TakeAll(NOTHING, words) == got
    ensures words' == words + Opt(flag, value) && |words'| % 2 == 0 && TakeAll(NOTHING, words') == got'
    ensures got' == if value == "" || got.None? then got else Take(got.value, flag, value)
  {
    hide Take, TakeAll;
    words' := words + Opt(flag, value);
    got' := if value == "" || got.None? then got else Take(got.value, flag, value);
    if value == "" {
      assert words + [] == words;
    } else {
      TakeConcat(NOTHING, words, [flag, value]);
      if got.Some? {
        TakeOne(got.value, flag, value);
      }
    }
  }

  /** The words in front of the ports. */
  function Front(r: FirewallRule): seq<string> {
    ["-A", r.chain] + Opt("-p", ProtocolOf(r)) + Opt("-i", r.inIface) + Opt("-o", r.outIface)
    + Opt("-s", r.srcIP) + Opt("-d", r.dstIP)
  }

  lemma FrontTaken(r: FirewallRule)
    ensures |Front(r)| % 2 == 0
    ensures TakeAll(NOTHING, Front(r)) == Some(RuleFor(r).(sport := "", dport := "", target := ""))
  {
    hide Take, TakeAll, Opt;
    var c := NOTHING.(chain := r.chain);
    TakePlaces(NOTHING, r.chain);
    TakeOne(NOTHING, "-A", r.chain);
    var words, got := ["-A", r.chain], Some(c);
    words, got := TakeOpt(words, got, "-p", ProtocolOf(r));
    TakeMatches(c, ProtocolOf(r));
    c := c.(protocol := ProtocolOf(r));
    words, got := TakeOpt(words, got, "-i", r.inIface);
    TakePlaces(c, r.inIface);
    c := c.(inIface := r.inIface);
    words, got := TakeOpt(words, got, "-o", r.outIface);
    TakePlaces(c, r.outIface);
    c := c.(outIface := r.outIface);
    words, got := TakeOpt(words, got, "-s", r.srcIP);
    TakeMatches(c, r.srcIP);
    c := c.(src := r.srcIP);
    words, got := TakeOpt(words, got, "-d", r.dstIP);
    TakeMatches(c, r.dstIP);
  }

  lemma WordsTaken(r: FirewallRule)
    requires r.action != ""
    ensures TakeAll(NOTHING, CustomRules.Words(r)[1..]) == if PortsFit(r) then Some(RuleFor(r)) else None
  {
    hide Take, TakeAll, Opt, HasPorts, Front;
    FrontTaken(r);
    HasPortsName(r.protocol);
    var c := RuleFor(r).(sport := "", dport := "", target := "");
    var words, got := TakeOpt(Front(r), Some(c), "--sport", r.srcPort);
    TakeMatches(c, r.srcPort);
    c := c.(sport := r.srcPort);
    words, got := TakeOpt(words, got, "--dport", r.dstPort);
    TakeMatches(c, r.dstPort);
    c := c.(dport := r.dstPort);
    assert got == if PortsFit(r) then Some(c) else None;
    words, got := TakeOpt(words, got, "-j", r.action);
    TakeTargets(c, r.action);
    WordsAre(r);
  }

  lemma WordsAre(r: FirewallRule)
    ensures CustomRules.Words(r)[1..]
         == Front(r) + Opt("--sport", r.srcPort) + Opt("--dport", r.dstPort) + Opt("-j", r.action)
  {
    hide Opt;
    assert CustomRules.Words(r) == ["iptables"] + (Front(r) + Opt("--sport", r.srcPort)
                                                   + Opt("--dport", r.dstPort) + Opt("-j", r.action));
  }

  lemma HasPortsName(protocol: string)
    ensures HasPorts(protocol) ==> protocol != "all"
    ensures !HasPorts("")
  {
  }

  /** A packet from the router itself has no input interface, and one for it no output interface. */
  predicate IfacesFit(r: FirewallRule) {
    (r.chain == "OUTPUT" ==> r.inIface == "") && (r.chain == "INPUT" ==> r.outIface == "")
  }

  lemma CommandMeaning(r: FirewallRule)
    requires ValidRule(r)
    ensures Meaning(CustomRules.Command(r)) == if PortsFit(r) && IfacesFit(r) then Some(RuleFor(r)) else None
  {
    hide ShellWords, TakeAll, CustomRules.Command, CustomRules.Words, AddressText, CIDRText, ValidPort, ValidIface,
      ValidProtocol, PortsFit;
    WordsStart(r);
    CommandWords(r);
    WordsTaken(r);
    var words := CustomRules.Words(r)[1..];
    assert (["iptables"] + words)[1..] == words;
    SoundExact(r);
  }

  lemma SoundExact(r: FirewallRule)
    requires ValidChain(r.chain) && ValidAction(r.action)
    ensures Sound(RuleFor(r)) <==> IfacesFit(r)
  {
    hide Destination;
  }

  /** The packets that the rule is about, as its fields say. */
  predicate Concerns(r: FirewallRule, p: Packet, inside: (string, string) -> bool) {
    && (r.protocol == "" || r.protocol == "all" || r.protocol == p.protocol)
    && (r.inIface == "" || r.inIface == p.inIface) && (r.outIface == "" || r.outIface == p.outIface)
    && (r.srcIP == "" || inside(p.src, r.srcIP)) && (r.dstIP == "" || inside(p.dst, r.dstIP))
    && (r.srcPort == "" || InPorts(r.srcPort, p.sport)) && (r.dstPort == "" || InPorts(r.dstPort, p.dport))
  }

  /** The printed command appends one rule to the end of its chain, which decides for exactly the packets its
      fields are about and no older rule decides for; but iptables refuses it, and nothing changes, if it
      names a port without a protocol that has ports, or an interface that its chain does not have. */
  lemma CommandExact(fw: Firewall, r: FirewallRule, p: Packet, inside: (string, string) -> bool)
    requires ValidRule(r)
    ensures var fw' := Execute(fw, CustomRules.Command(r));
            var rules, rules' := Chain(fw, "filter", r.chain), Chain(fw', "filter", r.chain);
            var refused :=
              || ((r.srcPort != "" || r.dstPort != "") && r.protocol != "tcp" && r.protocol != "udp")
              || (r.chain == "OUTPUT" && r.inIface != "") || (r.chain == "INPUT" && r.outIface != "");
            && (refused ==> fw' == fw)
            && (!refused ==> |rules'| == |rules| + 1 && rules <= rules')
            && (!refused && Verdict(rules, p, inside) == None ==>
                  Verdict(rules', p, inside)
                  == if r.action != "LOG" && Concerns(r, p, inside) then Some(r.action) else None)
            && (Verdict(rules, p, inside).Some? ==> Verdict(rules', p, inside) == Verdict(rules, p, inside))
  {
    hide Meaning, CustomRules.Command, ValidRule, InPorts, Verdict;
    CommandMeaning(r);
    ActionIsGiven(r);
    var rules := Chain(fw, "filter", r.chain);
    VerdictBehind(rules, [RuleFor(r)], p, inside);
    OneVerdict(RuleFor(r), p, inside);
  }

  lemma ActionIsGiven(r: FirewallRule)
    requires ValidRule(r)
    ensures r.chain != "" && r.action != ""
  {
    hide AddressText, CIDRText, ValidPort, ValidIface, ValidProtocol;
  }

  lemma OneVerdict(c: Iptables.Command, p: Packet, inside: (string, string) -> bool)
    ensures Verdict([c], p, inside) == if Matches(c, p, inside) && c.target != "LOG" then Some(c.target) else None
  {
    hide Matches;
    assert [c][1..] == [];
  }

  /** A rule that the page accepts and displays, and iptables refuses: a port without a protocol. */
  lemma PortNeedsProtocol(fw: Firewall, port: string)
    requires ValidPort(port) && port != ""
    ensures var r := NoRule.(chain := "INPUT", dstPort := port, action := "ACCEPT");
            && ValidRule(r) && Listed(CustomRules.Command(r) + "\n") == [r]
            && Execute(fw, CustomRules.Command(r)) == fw
  {
    hide Meaning, CustomRules.Command, ValidPort, Listed;
    var r := NoRule.(chain := "INPUT", dstPort := port, action := "ACCEPT");
    CommandMeaning(r);
    AddLists("", r);
    NothingListed();
    assert Added("", r) == CustomRules.Command(r) + "\n" by {
      assert "" + CustomRules.Command(r) == CustomRules.Command(r);
    }
    assert [] + [Normal(r)] == [r];
  }

  lemma NothingListed()
    ensures Listed("") == []
  {
    SplitOne("", '\n');
    EmptyLineLists();
    assert [""][..0] == [];
  }
}
