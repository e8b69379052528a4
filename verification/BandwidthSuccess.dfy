/** What a reported success of the bandwidth script is worth: for any failed commands, when the status is
    success and when the kernel enforces the table. */
module BandwidthSuccess {
  import opened Options
  import opened BandwidthLimits
  import opened BandwidthKernel
  import opened BandwidthShell
  import opened BandwidthFailures

  // ----- the fixed commands with failures

  predicate AnyJump(rules: seq<Rule>) {
    exists r <- rules :: r.Jump?
  }

  /** The kernel after the first four commands behind the guard. */
  function Prologued(k: Kernel, iface: string, broken: set<nat>): Kernel {
    var post := if 1 in broken then k.postrouting else RemoveFirst(k.postrouting, Jump(iface));
    var flushed := if 2 !in broken && k.chain.Some? then Some([]) else k.chain;
    var deleted := if 3 !in broken && flushed == Some([]) && !AnyJump(post) then None else flushed;
    k.(postrouting := post, chain := if 4 !in broken && deleted.None? then Some([]) else deleted)
  }

  lemma PrologueBut(k: Kernel, iface: string, broken: set<nat>)
    ensures AfterPrologue(k, iface, broken) == Prologued(k, iface, broken)
  {
    hide RemoveFirst, Succeeds;
    var a, b, c, e := DeleteJump(iface), FlushChain, DeleteChain, NewChain;
    assert Prologue(iface)[1..] == ([a] + [b]) + ([c] + [e]);
    RunButConcat(k, [a] + [b], [c] + [e], broken, 1);
    RunButTwo(k, a, b, broken, 1);
    RunButTwo(RunBut(k, [a] + [b], broken, 1).0, c, e, broken, 3);
  }

  /** The queueing disciplines after the commands that build the tree. */
  function Planted(qdiscs: map<string, Qdisc>, iface: string, broken: set<nat>, at: nat): map<string, Qdisc> {
    var bare := if at + 1 in broken then qdiscs else qdiscs - {iface};
    var rooted := if at + 2 in broken || iface in bare then bare else bare[iface := Htb(DEFAULT_CLASS, map[], [])];
    if iface !in rooted || !rooted[iface].Htb? then rooted
    else
      var q := rooted[iface];
      var top := if at + 3 in broken then q else AddedClass(q, ROOT, TOP_CLASS, LINE_RATE);
      rooted[iface := if at + 4 in broken then top else AddedClass(top, TOP_CLASS, DEFAULT_CLASS, LINE_RATE)]
  }

  lemma ShapingBut(k: Kernel, iface: string, broken: set<nat>, at: nat)
    ensures RunBut(k, Shaping(iface), broken, at).0
         == k.(postrouting := k.postrouting + (if at !in broken && k.chain.Some? then [Jump(iface)] else []),
               qdiscs := Planted(k.qdiscs, iface, broken, at))
  {
    hide Succeeds, AddedClass, RunBut, Exec, Planted;
    var a, b := AppendJump(iface), DeleteQdisc(iface);
    var c, e := AddQdisc(iface, DEFAULT_CLASS), AddClass(iface, ROOT, TOP_CLASS, LINE_RATE);
    var f := AddClass(iface, TOP_CLASS, DEFAULT_CLASS, LINE_RATE);
    assert Shaping(iface) == ([a] + [b]) + (([c] + [e]) + [f]);
    RunButConcat(k, [a] + [b], ([c] + [e]) + [f], broken, at);
    RunButTwo(k, a, b, broken, at);
    var k2 := RunBut(k, [a] + [b], broken, at).0;
    RunButConcat(k2, [c] + [e], [f], broken, at + 2);
    RunButTwo(k2, c, e, broken, at + 2);
    var k4 := RunBut(k2, [c] + [e], broken, at + 2).0;
    RunButOne(k4, f, broken, at + 4);
    StartBut(k, iface, broken, at);
    PlantBut(k2, k, iface, broken, at);
  }

  lemma StartBut(k: Kernel, iface: string, broken: set<nat>, at: nat)
    ensures var k1 := if at in broken then k else Exec(k, AppendJump(iface));
            (if at + 1 in broken then k1 else Exec(k1, DeleteQdisc(iface)))
            == k.(postrouting := k.postrouting + (if at !in broken && k.chain.Some? then [Jump(iface)] else []),
                  qdiscs := if at + 1 in broken then k.qdiscs else k.qdiscs - {iface})
  {
    assert k.postrouting + [] == k.postrouting;
  }

  lemma PlantBut(k2: Kernel, k: Kernel, iface: string, broken: set<nat>, at: nat)
    requires k2.qdiscs == if at + 1 in broken then k.qdiscs else k.qdiscs - {iface}
    ensures var k3 := if at + 2 in broken then k2 else Exec(k2, AddQdisc(iface, DEFAULT_CLASS));
            var k4 := if at + 3 in broken then k3 else Exec(k3, AddClass(iface, ROOT, TOP_CLASS, LINE_RATE));
            (if at + 4 in broken then k4 else Exec(k4, AddClass(iface, TOP_CLASS, DEFAULT_CLASS, LINE_RATE)))
            == k2.(qdiscs := Planted(k.qdiscs, iface, broken, at))
  {
    hide AddedClass;
    var k3 := if at + 2 in broken then k2 else Exec(k2, AddQdisc(iface, DEFAULT_CLASS));
    if iface in k3.qdiscs {
      var q := k3.qdiscs[iface];
      assert k3.qdiscs[iface := q] == k3.qdiscs;
      if q.Htb? {
        var top := AddedClass(q, ROOT, TOP_CLASS, LINE_RATE);
        assert k3.qdiscs[iface := top][iface := AddedClass(top, TOP_CLASS, DEFAULT_CLASS, LINE_RATE)]
            == k3.qdiscs[iface := AddedClass(top, TOP_CLASS, DEFAULT_CLASS, LINE_RATE)];
      }
    }
  }

  // ----- the outcome in closed form

  /** The kernel and the status after the script for the devices `d`. */
  function Outcome(k: Kernel, iface: string, d: seq<string>, limits: map<string, int>, broken: set<nat>): (Kernel, bool)
    requires d != [] && forall m <- d :: m in limits
  {
    var p := Prologued(k, iface, broken);
    var chain := if p.chain.None? then None else Some(p.chain.value + SomeMarks(d, broken));
    var post := p.postrouting + (if ShapingAt(d) !in broken && chain.Some? then [Jump(iface)] else []);
    var qdiscs := Planted(k.qdiscs, iface, broken, ShapingAt(d));
    if iface in qdiscs && qdiscs[iface].Htb?
    then
      var tree := SomeTree(qdiscs[iface], d, limits, broken, ClassAt(d, 0));
      (k.(postrouting := post, chain := chain, qdiscs := qdiscs[iface := tree]),
       FilterAt(d, |d| - 1) !in broken && !HasFilter(qdiscs[iface], CLASS_ID_START + |d| - 1))
    else (k.(postrouting := post, chain := chain, qdiscs := qdiscs), false)
  }

  lemma ScriptOutcome(k: Kernel, iface: string, d: seq<string>, limits: map<string, int>, broken: set<nat>)
    requires iface in k.interfaces && d != [] && Devices(d, limits)
    ensures (forall m <- d :: m in limits)
    ensures RunBut(k, Program(iface, d, limits), broken, 0) == Outcome(k, iface, d, limits, broken)
  {
    hide RunBut, Program, Planted, Prologued, SomeTree, SomeMarks, Devices, HasFilter, Classes;
    DevicesListed(d, limits);
    Parts(k, iface, d, limits, broken);
    PrologueBut(k, iface, broken);
    MarksBut(AfterPrologue(k, iface, broken), d, broken);
    PrologueKeeps(k, iface, broken);
    ShapingBut(AfterMarks(k, iface, d, broken), iface, broken, ShapingAt(d));
    var s := AfterShaping(k, iface, d, broken);
    LastFilter(s, iface, d, limits, broken, ClassAt(d, 0));
    if iface in s.qdiscs && s.qdiscs[iface].Htb? {
      ClassesBut(s, iface, d, limits, broken, ClassAt(d, 0));
    } else {
      ClassesKind(iface, d, limits);
      NoTree(s, iface, Classes(iface, d, limits), broken, ClassAt(d, 0));
    }
  }

  lemma PrologueKeeps(k: Kernel, iface: string, broken: set<nat>)
    ensures Prologued(k, iface, broken).qdiscs == k.qdiscs && Prologued(k, iface, broken).interfaces == k.interfaces
  {
  }

  // ----- marks

  /** Every packet gets the mark of its device. */
  ghost predicate MarksRight(k: Kernel, iface: string, limits: map<string, int>) {
    forall mac: string :: MarkOf(k, Packet(iface, mac)) == WantedMark(limits, mac)
  }

  lemma {:induction false} NotTraversed(rules: seq<Rule>, chain: seq<MarkRule>, p: Packet, mark: int)
    requires Jump(p.out) !in rules
    ensures TraverseMark(rules, chain, p, mark) == mark
  {
    if rules != [] {
      assert rules[0] in rules && forall r <- rules[1..] :: r in rules;
      NotTraversed(rules[1..], chain, p, mark);
    }
  }

  lemma {:induction false} MarkedAgain(rules: seq<MarkRule>, mac: string, mark: int)
    ensures ChainMark(rules, mac, ChainMark(rules, mac, mark)) == ChainMark(rules, mac, mark)
  {
    if rules != [] && rules[|rules| - 1].mac != mac {
      MarkedAgain(rules[..|rules| - 1], mac, mark);
    }
  }

  lemma MarkIs(k: Kernel, iface: string, mac: string)
    ensures MarkOf(k, Packet(iface, mac))
         == if k.chain.Some? && Jump(iface) in k.postrouting then ChainMark(k.chain.value, mac, 0) else 0
  {
    hide TraverseMark, ChainMark;
    var chain := if k.chain.Some? then k.chain.value else [];
    assert ChainMark([], mac, 0) == 0 by {
      NoRuleMark(mac);
    }
    if Jump(iface) in k.postrouting {
      MarkedAgain(chain, mac, 0);
      TraverseJump(k.postrouting, chain, Packet(iface, mac), 0, ChainMark(chain, mac, 0));
    } else {
      NotTraversed(k.postrouting, chain, Packet(iface, mac), 0);
    }
  }

  lemma NoRuleMark(mac: string)
    ensures ChainMark([], mac, 0) == 0
  {
  }

  /** What the rules left over from earlier have to say, for the marks to be right. */
  ghost predicate OldRulesFit(rules: seq<MarkRule>, d: seq<string>, broken: set<nat>) {
    && (forall i | 0 <= i < |d| && MarkAt(i) in broken :: ChainMark(rules, d[i], 0) == CLASS_ID_START + i)
    && (forall mac: string | mac !in d :: ChainMark(rules, mac, 0) == 0)
  }

  lemma MarksRightIff(
    k: Kernel, iface: string, rules: seq<MarkRule>, d: seq<string>, limits: map<string, int>, broken: set<nat>)
    requires d != [] && Devices(d, limits)
    requires k.chain == Some(rules + SomeMarks(d, broken))
    ensures MarksRight(k, iface, limits) <==> Jump(iface) in k.postrouting && OldRulesFit(rules, d, broken)
  {
    hide MarkOf, ChainMark, SomeMarks, WantedMark, WantedRate;
    forall mac: string
      ensures MarkOf(k, Packet(iface, mac))
           == if Jump(iface) in k.postrouting then ChainMark(k.chain.value, mac, 0) else 0
    {
      MarkIs(k, iface, mac);
    }
    assert MarkOf(k, Packet(iface, d[0])) ==
             if Jump(iface) in k.postrouting then ChainMark(k.chain.value, d[0], 0) else 0;
    forall mac: string
      ensures mac !in d ==> ChainMark(k.chain.value, mac, 0) == ChainMark(rules, mac, 0)
      ensures forall i | 0 <= i < |d| && d[i] == mac ::
                ChainMark(k.chain.value, mac, 0)
                == if MarkAt(i) in broken then ChainMark(rules, mac, 0) else CLASS_ID_START + i
    {
      MarkBehind(rules, d, broken, mac, 0);
    }
    if MarksRight(k, iface, limits) {
      forall i | 0 <= i < |d| && MarkAt(i) in broken ensures ChainMark(rules, d[i], 0) == CLASS_ID_START + i {
        assert MarkOf(k, Packet(iface, d[i])) == WantedMark(limits, d[i]);
      }
      forall mac: string | mac !in d ensures ChainMark(rules, mac, 0) == 0 {
        assert MarkOf(k, Packet(iface, mac)) == WantedMark(limits, mac);
      }
    } else if Jump(iface) in k.postrouting && OldRulesFit(rules, d, broken) {
      forall mac: string ensures MarkOf(k, Packet(iface, mac)) == WantedMark(limits, mac) {
        if mac in d {
          var i :| 0 <= i < |d| && d[i] == mac;
        }
      }
    }
  }

  lemma NoChainNoMarks(k: Kernel, iface: string, d: seq<string>, limits: map<string, int>)
    requires d != [] && Devices(d, limits) && k.chain.None?
    ensures !MarksRight(k, iface, limits)
  {
    hide MarkOf, WantedMark, WantedRate;
    MarkIs(k, iface, d[0]);
    assert MarkOf(k, Packet(iface, d[0])) != WantedMark(limits, d[0]);
  }

  // ----- rates

  /** The rate of the class in which packets with a mark are queued. */
  function RateAt(q: Qdisc, mark: int): Option<int>
    requires q.Htb?
  {
    var flow := FlowOf(q.filters, mark, q.default);
    if flow in q.classes then Some(q.classes[flow].mbit) else None
  }

  /** A mark that packets can have when the marks are right, and the rate it stands for. */
  predicate UsedMark(d: seq<string>, mark: int) {
    mark == 0 || CLASS_ID_START <= mark < CLASS_ID_START + |d|
  }

  function RateFor(d: seq<string>, limits: map<string, int>, mark: int): int
    requires UsedMark(d, mark) && forall m <- d :: m in limits
  {
    if mark == 0 || mark == DEFAULT_CLASS then LINE_RATE else limits[d[mark - CLASS_ID_START]]
  }

  ghost predicate RatesRight(q: Qdisc, d: seq<string>, limits: map<string, int>)
    requires q.Htb? && forall m <- d :: m in limits
  {
    forall mark | UsedMark(d, mark) :: RateAt(q, mark) == Some(RateFor(d, limits, mark))
  }

  /** Some address is not listed. */
  lemma {:induction false} Unlisted(d: seq<string>) returns (mac: string)
    ensures mac !in d && forall m <- d :: |m| < |mac|
  {
    if d == [] {
      mac := "x";
    } else {
      var shorter := Unlisted(d[1..]);
      mac := shorter + d[0] + "x";
      assert d == [d[0]] + d[1..];
    }
  }

  lemma EnforcesSplit(k: Kernel, iface: string, d: seq<string>, limits: map<string, int>)
    requires Devices(d, limits)
    ensures (forall m <- d :: m in limits)
    ensures iface !in k.qdiscs || !k.qdiscs[iface].Htb? ==> !Enforces(k, iface, limits)
    ensures iface in k.qdiscs && k.qdiscs[iface].Htb? ==>
              (Enforces(k, iface, limits) <==> MarksRight(k, iface, limits) && RatesRight(k.qdiscs[iface], d, limits))
  {
    hide MarkOf, WantedMark, WantedRate, FlowOf, Ascending;
    DevicesListed(d, limits);
    var other := Unlisted(d);
    if Enforces(k, iface, limits) {
      assert RateOf(k, Packet(iface, other)) == Some(WantedRate(limits, other));
      forall mark | UsedMark(d, mark) ensures RateAt(k.qdiscs[iface], mark) == Some(RateFor(d, limits, mark)) {
        var mac := if mark == 0 then other else d[mark - CLASS_ID_START];
        assert MarkOf(k, Packet(iface, mac)) == WantedMark(limits, mac) == mark;
        assert RateOf(k, Packet(iface, mac)) == Some(WantedRate(limits, mac));
      }
    } else if iface in k.qdiscs && k.qdiscs[iface].Htb? && MarksRight(k, iface, limits)
              && RatesRight(k.qdiscs[iface], d, limits) {
      forall mac: string ensures RateOf(k, Packet(iface, mac)) == Some(WantedRate(limits, mac)) {
        var mark := WantedMark(limits, mac);
        assert MarkOf(k, Packet(iface, mac)) == mark;
        if mac in d {
          var i :| 0 <= i < |d| && d[i] == mac;
          assert UsedMark(d, CLASS_ID_START + i);
        } else {
          assert UsedMark(d, 0);
        }
      }
    }
  }

  /** Whether the class and filter commands make a tree give every mark its rate, seen before they run: the
      mark goes where an older filter says, else to its own class if its filter command works, else to the
      default class; and that class is an older one of the right rate, or a new one. */
  ghost predicate TreeFits(q: Qdisc, d: seq<string>, limits: map<string, int>, broken: set<nat>)
    requires q.Htb? && forall m <- d :: m in limits
  {
    var at := ClassAt(d, 0);
    forall mark | UsedMark(d, mark) ::
      var flow := FlowOf(q.filters, mark, if NewFilter(d, broken, at, mark) then mark else q.default);
      if flow in q.classes then q.classes[flow].mbit == RateFor(d, limits, mark)
      else NewClass(q, d, broken, at, flow) && limits[d[flow - CLASS_ID_START]] == RateFor(d, limits, mark)
  }

  lemma TreeFitsIff(q: Qdisc, d: seq<string>, limits: map<string, int>, broken: set<nat>)
    requires q.Htb? && forall m <- d :: m in limits
    ensures RatesRight(SomeTree(q, d, limits, broken, ClassAt(d, 0)), d, limits) <==> TreeFits(q, d, limits, broken)
  {
    hide SomeTree, FlowOf, NewFilter, NewClass, RateFor;
    var at := ClassAt(d, 0);
    var r := SomeTree(q, d, limits, broken, at);
    TreeClasses(q, d, limits, broken, at);
    TreeFilters(q, d, limits, broken, at);
    forall mark
      ensures FlowOf(r.filters, mark, r.default)
           == FlowOf(q.filters, mark, if NewFilter(d, broken, at, mark) then mark else q.default)
    {
    }
  }

  // ----- the exact conditions

  /** What has to hold before the script, for the kernel to enforce the table after it. */
  ghost predicate Fits(k: Kernel, iface: string, d: seq<string>, limits: map<string, int>, broken: set<nat>)
    requires forall m <- d :: m in limits
  {
    var p := Prologued(k, iface, broken);
    var qdiscs := Planted(k.qdiscs, iface, broken, ShapingAt(d));
    && p.chain.Some? && OldRulesFit(p.chain.value, d, broken)
    && (Jump(iface) in p.postrouting || ShapingAt(d) !in broken)
    && iface in qdiscs && qdiscs[iface].Htb? && TreeFits(qdiscs[iface], d, limits, broken)
  }

  /** When the status is success. */
  predicate Reported(k: Kernel, iface: string, d: seq<string>, broken: set<nat>)
    requires d != []
  {
    var qdiscs := Planted(k.qdiscs, iface, broken, ShapingAt(d));
    && iface in qdiscs && qdiscs[iface].Htb?
    && FilterAt(d, |d| - 1) !in broken && !HasFilter(qdiscs[iface], CLASS_ID_START + |d| - 1)
  }

  lemma DevicesExact(k: Kernel, iface: string, d: seq<string>, limits: map<string, int>, broken: set<nat>)
    requires iface in k.interfaces && d != [] && Devices(d, limits)
    ensures (forall m <- d :: m in limits)
    ensures var (k', ok) := RunBut(k, Program(iface, d, limits), broken, 0);
            && (ok <==> Reported(k, iface, d, broken))
            && (Enforces(k', iface, limits) <==> Fits(k, iface, d, limits, broken))
  {
    hide RunBut, Program, Planted, Prologued, SomeTree, SomeMarks, Devices, HasFilter, Enforces, MarksRight, RatesRight,
      TreeFits, OldRulesFit;
    ScriptOutcome(k, iface, d, limits, broken);
    var (k', ok) := Outcome(k, iface, d, limits, broken);
    EnforcesSplit(k', iface, d, limits);
    var p := Prologued(k, iface, broken);
    if p.chain.Some? {
      MarksRightIff(k', iface, p.chain.value, d, limits, broken);
    } else {
      NoChainNoMarks(k', iface, d, limits);
    }
    var qdiscs := Planted(k.qdiscs, iface, broken, ShapingAt(d));
    if iface in qdiscs && qdiscs[iface].Htb? {
      TreeFitsIff(qdiscs[iface], d, limits, broken);
    }
  }

  /** For every kernel, every table that is not empty and every set of failed commands: when the status is
      success, and when the kernel enforces the table. */
  lemma SuccessExact(k: Kernel, iface: string, macs: seq<string>, limits: map<string, int>, broken: set<nat>)
    requires iface in k.interfaces && SortedKeys(macs, limits) && macs != []
    ensures var (k', ok) := RunBut(k, Program(iface, macs, limits), broken, 0);
            var d := macs[..Served(macs)];
            && d != [] && (forall m <- d :: m in limits)
            && (ok <==> Reported(k, iface, d, broken))
            && (Enforces(k', iface, limits) <==> Fits(k, iface, d, limits, broken))
  {
    hide RunBut, Program, Devices, Enforces, Reported, Fits;
    ServedDevices(iface, macs, limits);
    DevicesExact(k, iface, macs[..Served(macs)], limits, broken);
  }
}
