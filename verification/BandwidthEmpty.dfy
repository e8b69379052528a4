/** The exact conditions of `BandwidthSuccess` for a table without devices, whose script ends in the command
    that adds the default class. */
module BandwidthEmpty {
  import opened Options
  import opened BandwidthLimits
  import opened BandwidthKernel
  import opened BandwidthShell
  import opened BandwidthFailures
  import opened BandwidthSuccess

  // ----- the status

  lemma {:induction false} SameFailures(k: Kernel, script: seq<Command>, a: set<nat>, b: set<nat>, at: nat)
    requires forall i | at <= i < at + |script| :: i in a <==> i in b
    ensures RunBut(k, script, a, at) == RunBut(k, script, b, at)
    decreases |script|
  {
    if script != [] {
      SameFailures(if at in a then k else Exec(k, script[0]), script[1..], a, b, at + 1);
    }
  }

  /** What the command that adds the default class finds. */
  function BeforeDefault(k: Kernel, iface: string, broken: set<nat>, at: nat): map<string, Qdisc> {
    Planted(k.qdiscs, iface, broken + {at + 4}, at)
  }

  predicate TakesDefault(qdiscs: map<string, Qdisc>, iface: string) {
    && iface in qdiscs && qdiscs[iface].Htb?
    && TOP_CLASS in qdiscs[iface].classes && DEFAULT_CLASS !in qdiscs[iface].classes
  }

  lemma ShapingStatus(k: Kernel, iface: string, broken: set<nat>, at: nat)
    ensures RunBut(k, Shaping(iface), broken, at).1
       <==> at + 4 !in broken && TakesDefault(BeforeDefault(k, iface, broken, at), iface)
  {
    hide RunBut, Exec, Planted;
    var s, last := Shaping(iface)[..4], AddClass(iface, TOP_CLASS, DEFAULT_CLASS, LINE_RATE);
    var without := broken + {at + 4};
    assert Shaping(iface) == s + [last];
    RunButConcat(k, s, [last], broken, at);
    RunButConcat(k, s, [last], without, at);
    RunButOne(RunBut(k, s, broken, at).0, last, broken, at + 4);
    RunButOne(RunBut(k, s, without, at).0, last, without, at + 4);
    SameFailures(k, s, broken, without, at);
    ShapingBut(k, iface, without, at);
  }

  // ----- the script

  lemma EmptyParts(k: Kernel, iface: string, limits: map<string, int>, broken: set<nat>)
    requires iface in k.interfaces
    ensures RunBut(k, Program(iface, [], limits), broken, 0)
         == RunBut(Prologued(k, iface, broken), Shaping(iface), broken, ShapingAt([]))
  {
    hide RunBut, Exec, Shaping, Prologued;
    var p, t := Prologue(iface)[1..], Shaping(iface);
    PrologueUnguarded(iface);
    ShapingSize(iface);
    EmptyGuarded(k, iface, limits, broken);
    RunButConcat(k, p, t, broken, 1);
    PrologueBut(k, iface, broken);
  }

  lemma ShapingSize(iface: string)
    ensures |Shaping(iface)| == 5
  {
  }

  lemma EmptyGuarded(k: Kernel, iface: string, limits: map<string, int>, broken: set<nat>)
    requires iface in k.interfaces
    ensures RunBut(k, Program(iface, [], limits), broken, 0)
         == RunBut(k, Prologue(iface)[1..] + Shaping(iface), broken, 1)
  {
    hide Shaping;
    var script := Program(iface, [], limits);
    assert script == Prologue(iface) + Shaping(iface);
    assert script[1..] == Prologue(iface)[1..] + Shaping(iface);
    assert script[0] == ExitUnlessInterface(iface) && Exec(k, ExitUnlessInterface(iface)) == k;
  }

  // ----- the exact conditions

  predicate EmptyReported(k: Kernel, iface: string, broken: set<nat>) {
    ShapingAt([]) + 4 !in broken && TakesDefault(BeforeDefault(k, iface, broken, ShapingAt([])), iface)
  }

  /** No older rule marks a packet that gets to it, and unmarked packets have the line rate. */
  ghost predicate EmptyFits(k: Kernel, iface: string, broken: set<nat>) {
    var p := Prologued(k, iface, broken);
    var qdiscs := Planted(k.qdiscs, iface, broken, ShapingAt([]));
    && (p.chain.Some? && (Jump(iface) in p.postrouting || ShapingAt([]) !in broken) ==>
          forall mac: string :: ChainMark(p.chain.value, mac, 0) == 0)
    && iface in qdiscs && qdiscs[iface].Htb? && RateAt(qdiscs[iface], 0) == Some(LINE_RATE)
  }

  lemma NothingWanted(mac: string)
    ensures WantedMark(map[], mac) == 0 && WantedRate(map[], mac) == LINE_RATE
  {
  }

  /** For every kernel and every set of failed commands: when the status is success, and when the kernel
      enforces the table that lists no device. */
  lemma EmptyTableExact(k: Kernel, iface: string, broken: set<nat>)
    requires iface in k.interfaces
    ensures var (k', ok) := RunBut(k, Program(iface, [], map[]), broken, 0);
            && (ok <==> EmptyReported(k, iface, broken))
            && (Enforces(k', iface, map[]) <==> EmptyFits(k, iface, broken))
  {
    hide RunBut, Program, Planted, Prologued, Shaping, WantedMark, WantedRate, MarkOf, ChainMark, FlowOf;
    var p := Prologued(k, iface, broken);
    EmptyParts(k, iface, map[], broken);
    PrologueKeeps(k, iface, broken);
    ShapingStatus(p, iface, broken, ShapingAt([]));
    ShapingBut(p, iface, broken, ShapingAt([]));
    var k' := RunBut(p, Shaping(iface), broken, ShapingAt([])).0;
    forall mac: string
      ensures MarkOf(k', Packet(iface, mac))
           == if k'.chain.Some? && Jump(iface) in k'.postrouting then ChainMark(k'.chain.value, mac, 0) else 0
      ensures WantedMark(map[], mac) == 0 && WantedRate(map[], mac) == LINE_RATE
    {
      MarkIs(k', iface, mac);
      NothingWanted(mac);
    }
    EmptyEnforces(k', iface);
  }

  lemma EmptyEnforces(k: Kernel, iface: string)
    ensures Enforces(k, iface, map[])
       <==> && (forall mac: string :: MarkOf(k, Packet(iface, mac)) == 0)
            && iface in k.qdiscs && k.qdiscs[iface].Htb? && RateAt(k.qdiscs[iface], 0) == Some(LINE_RATE)
  {
    hide WantedMark, WantedRate, MarkOf, FlowOf;
    forall mac: string ensures WantedMark(map[], mac) == 0 && WantedRate(map[], mac) == LINE_RATE {
      NothingWanted(mac);
    }
    if Enforces(k, iface, map[]) {
      assert MarkOf(k, Packet(iface, "")) == 0 && RateOf(k, Packet(iface, "")) == Some(LINE_RATE);
    }
  }
}
