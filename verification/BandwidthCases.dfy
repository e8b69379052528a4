/** The exact conditions of `BandwidthSuccess` spelled out: failures of the commands for the devices, and a
    failure of each single one of the other commands. */
module BandwidthCases {
  import opened Options
  import opened BandwidthLimits
  import opened BandwidthKernel
  import opened BandwidthShell
  import opened BandwidthFailures
  import opened BandwidthSuccess

  // ----- what the fixed commands leave

  lemma CleanPrologue(k: Kernel, iface: string, broken: set<nat>)
    requires forall b | 1 <= b <= 4 :: b !in broken
    ensures Prologued(k, iface, broken).chain == Some([])
    ensures Prologued(k, iface, broken).postrouting == RemoveFirst(k.postrouting, Jump(iface))
  {
    hide RemoveFirst;
    assert 1 !in broken && 2 !in broken && 3 !in broken && 4 !in broken;
  }

  lemma NoEarlierRules(d: seq<string>, broken: set<nat>)
    ensures OldRulesFit([], d, broken) <==> forall i | 0 <= i < |d| :: MarkAt(i) !in broken
  {
  }

  lemma CleanPlant(qdiscs: map<string, Qdisc>, iface: string, broken: set<nat>, at: nat)
    requires at + 1 !in broken && at + 2 !in broken && at + 3 !in broken && at + 4 !in broken
    ensures iface in Planted(qdiscs, iface, broken, at) && Planted(qdiscs, iface, broken, at)[iface] == EMPTY_HTB
    ensures forall mark :: !HasFilter(EMPTY_HTB, mark)
  {
    var q := Htb(DEFAULT_CLASS, map[], []);
    var top := AddedClass(q, ROOT, TOP_CLASS, LINE_RATE);
    assert top.classes == map[TOP_CLASS := Class(ROOT, LINE_RATE)];
    assert AddedClass(top, TOP_CLASS, DEFAULT_CLASS, LINE_RATE).classes == EMPTY_HTB.classes;
  }

  lemma NoFilters(mark: int, to: int)
    ensures FlowOf([], mark, to) == to
  {
  }

  // ----- failures of the commands for the devices

  /** The class and filter commands may fail for the device of id 30, which is in the default class anyway;
      any other device has to keep both, or to want the line rate if it loses its filter. */
  predicate TreeHarmless(d: seq<string>, limits: map<string, int>, broken: set<nat>)
    requires forall m <- d :: m in limits
  {
    forall i | 0 <= i < |d| && CLASS_ID_START + i != DEFAULT_CLASS ::
      if FilterAt(d, i) in broken then limits[d[i]] == LINE_RATE else ClassAt(d, i) !in broken
  }

  lemma FreshTreeFits(d: seq<string>, limits: map<string, int>, broken: set<nat>)
    requires forall m <- d :: m in limits
    ensures TreeFits(EMPTY_HTB, d, limits, broken) <==> TreeHarmless(d, limits, broken)
  {
    hide FlowOf;
    var at := ClassAt(d, 0);
    forall mark, to ensures FlowOf([], mark, to) == to {
      NoFilters(mark, to);
    }
    if TreeFits(EMPTY_HTB, d, limits, broken) {
      forall i | 0 <= i < |d| && CLASS_ID_START + i != DEFAULT_CLASS
        ensures if FilterAt(d, i) in broken then limits[d[i]] == LINE_RATE else ClassAt(d, i) !in broken
      {
        assert UsedMark(d, CLASS_ID_START + i);
        assert NewFilter(d, broken, at, CLASS_ID_START + i) <==> FilterAt(d, i) !in broken;
      }
    } else if TreeHarmless(d, limits, broken) {
      forall mark | UsedMark(d, mark)
        ensures var flow := FlowOf([], mark, if NewFilter(d, broken, at, mark) then mark else DEFAULT_CLASS);
                if flow in EMPTY_HTB.classes then EMPTY_HTB.classes[flow].mbit == RateFor(d, limits, mark)
                else
                  && NewClass(EMPTY_HTB, d, broken, at, flow)
                  && limits[d[flow - CLASS_ID_START]] == RateFor(d, limits, mark)
      {
        if mark != 0 && mark != DEFAULT_CLASS {
          var i := mark - CLASS_ID_START;
          assert NewFilter(d, broken, at, mark) <==> FilterAt(d, i) !in broken;
          assert ClassAt(d, i) == at + 2 * (mark - CLASS_ID_START);
        }
      }
    }
  }

  /** When the commands that build the tree work, the status is that of the last command. */
  lemma CleanTree(k: Kernel, iface: string, d: seq<string>, limits: map<string, int>, broken: set<nat>)
    requires d != [] && forall m <- d :: m in limits
    requires var at := ShapingAt(d);
             at + 1 !in broken && at + 2 !in broken && at + 3 !in broken && at + 4 !in broken
    ensures Reported(k, iface, d, broken) <==> FilterAt(d, |d| - 1) !in broken
    ensures Fits(k, iface, d, limits, broken) <==>
            var p := Prologued(k, iface, broken);
            && p.chain.Some? && OldRulesFit(p.chain.value, d, broken)
            && (Jump(iface) in p.postrouting || ShapingAt(d) !in broken) && TreeHarmless(d, limits, broken)
  {
    hide TreeFits, TreeHarmless, OldRulesFit, HasFilter, Prologued, Planted;
    CleanPlant(k.qdiscs, iface, broken, ShapingAt(d));
    FreshTreeFits(d, limits, broken);
    assert !HasFilter(EMPTY_HTB, CLASS_ID_START + |d| - 1);
  }

  /** A failure before the commands for the devices does not harm the tree by itself. */
  lemma EarlyIsHarmless(d: seq<string>, limits: map<string, int>, b: nat)
    requires (forall m <- d :: m in limits) && b <= ShapingAt(d) + 4
    ensures TreeHarmless(d, limits, {b})
  {
  }

  /** Any set of failures among the commands for the devices, the last one excepted: success is reported,
      and the kernel enforces the table if and only if no mark command failed and the tree is harmless. */
  lemma DeviceFailuresExact(k: Kernel, iface: string, macs: seq<string>, limits: map<string, int>, broken: set<nat>)
    requires iface in k.interfaces && SortedKeys(macs, limits) && macs != []
    requires var d := macs[..Served(macs)];
             && d != []
             && forall b <- broken :: MarkAt(0) <= b < ShapingAt(d) || ClassAt(d, 0) <= b < FilterAt(d, |d| - 1)
    ensures var (k', ok) := RunBut(k, Program(iface, macs, limits), broken, 0);
            var d := macs[..Served(macs)];
            && (forall m <- d :: m in limits)
            && ok
            && (Enforces(k', iface, limits)
                <==> (forall i | 0 <= i < |d| :: MarkAt(i) !in broken) && TreeHarmless(d, limits, broken))
  {
    hide RunBut, Program, Enforces, TreeHarmless, OldRulesFit, Prologued, Reported, Fits;
    var d := macs[..Served(macs)];
    SuccessExact(k, iface, macs, limits, broken);
    CleanPrologue(k, iface, broken);
    NoEarlierRules(d, broken);
    CleanTree(k, iface, d, limits, broken);
  }

  /** In particular for failures of mark commands: the kernel enforces the table if and only if there are
      none. */
  lemma MarkFailuresExact(k: Kernel, iface: string, macs: seq<string>, limits: map<string, int>, broken: set<nat>)
    requires iface in k.interfaces && SortedKeys(macs, limits) && macs != []
    requires forall b <- broken :: MarkAt(0) <= b < MarkAt(Served(macs))
    ensures var (k', ok) := RunBut(k, Program(iface, macs, limits), broken, 0);
            ok && (Enforces(k', iface, limits) <==> broken == {})
  {
    hide RunBut, Program, Enforces;
    ServedDevices(iface, macs, limits);
    DeviceFailuresExact(k, iface, macs, limits, broken);
    if broken != {} {
      var b :| b in broken;
      assert MarkAt(b - 5) in broken;
    }
  }

  /** The last command is the one whose failure is always reported. */
  lemma LastFailureReported(k: Kernel, iface: string, macs: seq<string>, limits: map<string, int>, broken: set<nat>)
    requires iface in k.interfaces && SortedKeys(macs, limits) && macs != []
    requires var d := macs[..Served(macs)]; d != [] && FilterAt(d, |d| - 1) in broken
    ensures !RunBut(k, Program(iface, macs, limits), broken, 0).1
  {
    hide RunBut, Program, Fits, Enforces, Planted, HasFilter;
    SuccessExact(k, iface, macs, limits, broken);
  }

  // ----- a failure of one fixed command

  lemma HarmlessPrologue(k: Kernel, iface: string, b: nat)
    requires b in {0, 1, 3}
    ensures Prologued(k, iface, {b}).chain == Some([])
  {
    hide RemoveFirst;
  }

  lemma UnflushedPrologue(k: Kernel, iface: string)
    ensures Prologued(k, iface, {2}).chain == Some(if k.chain.Some? then k.chain.value else [])
  {
    hide RemoveFirst;
  }

  lemma UnflushedRules(rules: seq<MarkRule>, d: seq<string>)
    ensures OldRulesFit(rules, d, {2}) <==> forall mac: string | mac !in d :: ChainMark(rules, mac, 0) == 0
  {
    hide ChainMark;
  }

  lemma UncreatedPrologue(k: Kernel, iface: string)
    ensures var post := RemoveFirst(k.postrouting, Jump(iface));
            Prologued(k, iface, {4}).chain == if k.chain.Some? && AnyJump(post) then Some([]) else None
  {
    hide RemoveFirst, AnyJump;
  }

  /** Neither the test for the interface nor the removal of the old jump nor that of the old chain matter. */
  lemma HarmlessFailure(k: Kernel, iface: string, macs: seq<string>, limits: map<string, int>, b: nat)
    requires iface in k.interfaces && SortedKeys(macs, limits) && macs != [] && b in {0, 1, 3}
    ensures var (k', ok) := RunBut(k, Program(iface, macs, limits), {b}, 0); ok && Enforces(k', iface, limits)
  {
    hide RunBut, Program, Enforces, TreeHarmless, OldRulesFit, Prologued, Reported, Fits;
    var d := macs[..Served(macs)];
    SuccessExact(k, iface, macs, limits, {b});
    HarmlessPrologue(k, iface, b);
    NoEarlierRules(d, {b});
    CleanTree(k, iface, d, limits, {b});
    EarlyIsHarmless(d, limits, b);
  }

  /** Without the flush, marks of devices that are no longer listed stay. */
  lemma FlushFailure(k: Kernel, iface: string, macs: seq<string>, limits: map<string, int>)
    requires iface in k.interfaces && SortedKeys(macs, limits) && macs != []
    ensures var (k', ok) := RunBut(k, Program(iface, macs, limits), {2}, 0);
            var d := macs[..Served(macs)];
            && ok
            && (Enforces(k', iface, limits)
                <==> k.chain.None? || forall mac: string | mac !in d :: ChainMark(k.chain.value, mac, 0) == 0)
  {
    hide RunBut, Program, Enforces, TreeHarmless, OldRulesFit, Prologued, Reported, Fits, ChainMark;
    var d := macs[..Served(macs)];
    SuccessExact(k, iface, macs, limits, {2});
    UnflushedPrologue(k, iface);
    UnflushedRules(if k.chain.Some? then k.chain.value else [], d);
    CleanTree(k, iface, d, limits, {2});
    EarlyIsHarmless(d, limits, 2);
    forall mac ensures ChainMark([], mac, 0) == 0 {
      NoRuleMark(mac);
    }
  }

  /** Without the creation of the chain there is none, unless a jump of another interface kept the old one. */
  lemma CreationFailure(k: Kernel, iface: string, macs: seq<string>, limits: map<string, int>)
    requires iface in k.interfaces && SortedKeys(macs, limits) && macs != []
    ensures var (k', ok) := RunBut(k, Program(iface, macs, limits), {4}, 0);
            && ok
            && (Enforces(k', iface, limits)
                <==> k.chain.Some? && AnyJump(RemoveFirst(k.postrouting, Jump(iface))))
  {
    hide RunBut, Program, Enforces, TreeHarmless, OldRulesFit, Prologued, Reported, Fits, AnyJump, RemoveFirst;
    var d := macs[..Served(macs)];
    SuccessExact(k, iface, macs, limits, {4});
    UncreatedPrologue(k, iface);
    NoEarlierRules(d, {4});
    CleanTree(k, iface, d, limits, {4});
    EarlyIsHarmless(d, limits, 4);
  }

  /** Without the new jump, one of several old ones has to be left. */
  lemma JumpFailure(k: Kernel, iface: string, macs: seq<string>, limits: map<string, int>)
    requires iface in k.interfaces && SortedKeys(macs, limits) && macs != []
    ensures var d := macs[..Served(macs)];
            var (k', ok) := RunBut(k, Program(iface, macs, limits), {ShapingAt(d)}, 0);
            && ok
            && (Enforces(k', iface, limits) <==> Jump(iface) in RemoveFirst(k.postrouting, Jump(iface)))
  {
    hide RunBut, Program, Enforces, TreeHarmless, OldRulesFit, Prologued, Reported, Fits, RemoveFirst;
    var d := macs[..Served(macs)];
    var broken := {ShapingAt(d)};
    SuccessExact(k, iface, macs, limits, broken);
    CleanPrologue(k, iface, broken);
    NoEarlierRules(d, broken);
    CleanTree(k, iface, d, limits, broken);
    EarlyIsHarmless(d, limits, ShapingAt(d));
  }

  /** When the old discipline stays: a discipline that is no tree is reported; an old tree is reported if it
      has a filter for the last device, and otherwise the kernel enforces the table exactly when the old
      classes and filters fit. */
  lemma RemovalFailure(k: Kernel, iface: string, macs: seq<string>, limits: map<string, int>)
    requires iface in k.interfaces && SortedKeys(macs, limits) && macs != []
    ensures var d := macs[..Served(macs)];
            var broken := {ShapingAt(d) + 1};
            var (k', ok) := RunBut(k, Program(iface, macs, limits), broken, 0);
            && (forall m <- d :: m in limits)
            && (iface !in k.qdiscs ==> ok && Enforces(k', iface, limits))
            && (iface in k.qdiscs && !k.qdiscs[iface].Htb? ==> !ok && !Enforces(k', iface, limits))
            && (iface in k.qdiscs && k.qdiscs[iface].Htb? ==>
                  && (ok <==> !HasFilter(k.qdiscs[iface], CLASS_ID_START + |d| - 1))
                  && (Enforces(k', iface, limits) <==> TreeFits(Patched(k.qdiscs[iface]), d, limits, broken)))
  {
    hide RunBut, Program, Enforces, TreeFits, HasFilter, EMPTY_HTB, RemoveFirst, OldRulesFit, Prologued;
    var d := macs[..Served(macs)];
    var broken := {ShapingAt(d) + 1};
    SuccessExact(k, iface, macs, limits, broken);
    CleanPrologue(k, iface, broken);
    NoEarlierRules(d, broken);
    if iface in k.qdiscs {
      if k.qdiscs[iface].Htb? {
        PatchedFilters(k.qdiscs[iface], CLASS_ID_START + |d| - 1);
      }
    } else {
      assert k.qdiscs - {iface} == k.qdiscs;
      CleanPlant(k.qdiscs, iface, {}, ShapingAt(d));
      assert Planted(k.qdiscs, iface, broken, ShapingAt(d)) == Planted(k.qdiscs, iface, {}, ShapingAt(d));
      FreshTreeFits(d, limits, broken);
    }
  }

  /** An old tree with the two fixed classes added where they are missing. */
  function Patched(q: Qdisc): (r: Qdisc)
    requires q.Htb?
    ensures r.Htb?
  {
    AddedClass(AddedClass(q, ROOT, TOP_CLASS, LINE_RATE), TOP_CLASS, DEFAULT_CLASS, LINE_RATE)
  }

  lemma PatchedFilters(q: Qdisc, mark: int)
    requires q.Htb?
    ensures HasFilter(Patched(q), mark) == HasFilter(q, mark)
  {
  }

  /** Without the discipline no class and no filter can be added, and that is reported. */
  lemma DisciplineFailure(k: Kernel, iface: string, macs: seq<string>, limits: map<string, int>)
    requires iface in k.interfaces && SortedKeys(macs, limits) && macs != []
    ensures var d := macs[..Served(macs)];
            var (k', ok) := RunBut(k, Program(iface, macs, limits), {ShapingAt(d) + 2}, 0);
            !ok && !Enforces(k', iface, limits)
  {
    hide RunBut, Program, Enforces, TreeFits, HasFilter, OldRulesFit, Prologued;
    SuccessExact(k, iface, macs, limits, {ShapingAt(macs[..Served(macs)]) + 2});
  }

  /** Without the top class there are no classes at all, and success is reported. */
  lemma TopClassFailure(k: Kernel, iface: string, macs: seq<string>, limits: map<string, int>)
    requires iface in k.interfaces && SortedKeys(macs, limits) && macs != []
    ensures var d := macs[..Served(macs)];
            var (k', ok) := RunBut(k, Program(iface, macs, limits), {ShapingAt(d) + 3}, 0);
            ok && !Enforces(k', iface, limits)
  {
    hide RunBut, Program, Enforces, TreeFits, OldRulesFit, Prologued;
    var d := macs[..Served(macs)];
    SuccessExact(k, iface, macs, limits, {ShapingAt(d) + 3});
    BareTree(d, limits, {ShapingAt(d) + 3});
  }

  lemma BareTree(d: seq<string>, limits: map<string, int>, broken: set<nat>)
    requires forall m <- d :: m in limits
    ensures !TreeFits(Htb(DEFAULT_CLASS, map[], []), d, limits, broken)
  {
    assert UsedMark(d, 0);
  }

  /** Without the default class the traffic of unlisted devices has none, unless the device of rank 20 made
      one of the line rate. */
  lemma DefaultClassFailure(k: Kernel, iface: string, macs: seq<string>, limits: map<string, int>)
    requires iface in k.interfaces && SortedKeys(macs, limits) && macs != []
    ensures var d := macs[..Served(macs)];
            var (k', ok) := RunBut(k, Program(iface, macs, limits), {ShapingAt(d) + 4}, 0);
            && (forall m <- d :: m in limits)
            && ok && (Enforces(k', iface, limits) <==> |d| > 20 && limits[d[20]] == LINE_RATE)
  {
    hide RunBut, Program, Enforces, TreeFits, OldRulesFit, Prologued;
    var d := macs[..Served(macs)];
    var broken := {ShapingAt(d) + 4};
    SuccessExact(k, iface, macs, limits, broken);
    CleanPrologue(k, iface, broken);
    NoEarlierRules(d, broken);
    TopOnly(d, limits, broken);
    assert map[][TOP_CLASS := Class(ROOT, LINE_RATE)] == map[TOP_CLASS := Class(ROOT, LINE_RATE)];
  }

  lemma TopOnly(d: seq<string>, limits: map<string, int>, broken: set<nat>)
    requires (forall m <- d :: m in limits) && broken == {ShapingAt(d) + 4}
    ensures TreeFits(Htb(DEFAULT_CLASS, map[TOP_CLASS := Class(ROOT, LINE_RATE)], []), d, limits, broken)
       <==> |d| > 20 && limits[d[20]] == LINE_RATE
  {
    hide FlowOf;
    var q := Htb(DEFAULT_CLASS, map[TOP_CLASS := Class(ROOT, LINE_RATE)], []);
    forall mark, to ensures FlowOf([], mark, to) == to {
      NoFilters(mark, to);
    }
    assert UsedMark(d, 0);
    assert !NewFilter(d, broken, ClassAt(d, 0), 0);
  }

  // ----- an example

  /** If marking the device with the greatest MAC address fails, the status still reports success, and the
      device keeps the line rate. */
  lemma UnnoticedFailure(k: Kernel, iface: string, macs: seq<string>, limits: map<string, int>)
    requires iface in k.interfaces && SortedKeys(macs, limits) && 0 < |macs| <= CLASS_ID_MAX - CLASS_ID_START + 1
    ensures var (k', ok) := RunBut(k, Program(iface, macs, limits), {MarkAt(|macs| - 1)}, 0);
            ok && !Enforces(k', iface, limits) && RateOf(k', Packet(iface, macs[|macs| - 1])) == Some(LINE_RATE)
  {
    hide RunBut, Program, Enforces, Outcome, SomeTree, MarkOf, RatesRight;
    var broken := {MarkAt(|macs| - 1)};
    assert macs[..|macs|] == macs;
    ServedDevices(iface, macs, limits);
    MarkFailuresExact(k, iface, macs, limits, broken);
    ScriptOutcome(k, iface, macs, limits, broken);
    LastUnmarked(k, iface, macs, limits);
    CleanRates(k, iface, macs, limits, broken);
    ZeroRate(Outcome(k, iface, macs, limits, broken).0, iface, macs, limits, macs[|macs| - 1]);
  }

  lemma LastUnmarked(k: Kernel, iface: string, d: seq<string>, limits: map<string, int>)
    requires d != [] && Ascending(d) && forall m <- d :: m in limits
    ensures MarkOf(Outcome(k, iface, d, limits, {MarkAt(|d| - 1)}).0, Packet(iface, d[|d| - 1])) == 0
  {
    hide Prologued, Planted, SomeTree, SomeMarks, MarkOf, ChainMark, HasFilter;
    var broken := {MarkAt(|d| - 1)};
    var mac := d[|d| - 1];
    CleanPrologue(k, iface, broken);
    MarkIs(Outcome(k, iface, d, limits, broken).0, iface, mac);
    MarkBehind([], d, broken, mac, 0);
    assert [] + SomeMarks(d, broken) == SomeMarks(d, broken);
    NoRuleMark(mac);
  }

  lemma CleanRates(k: Kernel, iface: string, d: seq<string>, limits: map<string, int>, broken: set<nat>)
    requires d != [] && (forall m <- d :: m in limits) && forall b <- broken :: b < ShapingAt(d)
    ensures var (k', ok) := Outcome(k, iface, d, limits, broken);
            iface in k'.qdiscs && k'.qdiscs[iface].Htb? && RatesRight(k'.qdiscs[iface], d, limits)
  {
    hide TreeFits, TreeHarmless, Prologued, Planted, SomeTree, SomeMarks, HasFilter, RatesRight;
    CleanPlant(k.qdiscs, iface, broken, ShapingAt(d));
    FreshTreeFits(d, limits, broken);
    LateIsHarmless(d, limits, broken);
    TreeFitsIff(EMPTY_HTB, d, limits, broken);
  }

  lemma LateIsHarmless(d: seq<string>, limits: map<string, int>, broken: set<nat>)
    requires (forall m <- d :: m in limits) && forall b <- broken :: b < ShapingAt(d)
    ensures TreeHarmless(d, limits, broken)
  {
  }

  lemma ZeroRate(k: Kernel, iface: string, d: seq<string>, limits: map<string, int>, mac: string)
    requires (forall m <- d :: m in limits) && iface in k.qdiscs && k.qdiscs[iface].Htb?
    requires RatesRight(k.qdiscs[iface], d, limits) && MarkOf(k, Packet(iface, mac)) == 0
    ensures RateOf(k, Packet(iface, mac)) == Some(LINE_RATE)
  {
    hide MarkOf, FlowOf;
    assert UsedMark(d, 0);
  }
}
