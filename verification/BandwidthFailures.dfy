/** Commands of the bandwidth script that fail for reasons outside the kernel: for which of them reported
    success still means that the kernel enforces the table. */
module BandwidthFailures {
  import opened Options
  import opened BandwidthLimits
  import opened BandwidthKernel
  import opened BandwidthShell

  // ----- the served devices

  /** The devices that get an id, in order, and what the table asks for them and for all others. */
  ghost predicate Devices(d: seq<string>, limits: map<string, int>) {
    && |d| <= CLASS_ID_MAX - CLASS_ID_START + 1 && Ascending(d)
    && (forall i | 0 <= i < |d| ::
          && d[i] in limits && WantedMark(limits, d[i]) == CLASS_ID_START + i
          && WantedRate(limits, d[i]) == if CLASS_ID_START + i == DEFAULT_CLASS then LINE_RATE else limits[d[i]])
    && (forall mac: string | mac !in d :: WantedMark(limits, mac) == 0 && WantedRate(limits, mac) == LINE_RATE)
  }

  lemma ServedDevices(iface: string, macs: seq<string>, limits: map<string, int>)
    requires SortedKeys(macs, limits)
    ensures var d := macs[..Served(macs)];
            && Devices(d, limits) && (macs != [] ==> d != [])
            && Program(iface, macs, limits) == Program(iface, d, limits)
  {
    hide Rank, Marks, Classes, Ascending;
    var n := Served(macs);
    var d := macs[..n];
    MarksCapped(macs, n);
    ClassesCapped(iface, macs, limits, n);
    forall i | 0 <= i < |d|
      ensures d[i] in limits && WantedMark(limits, d[i]) == CLASS_ID_START + i
      ensures WantedRate(limits, d[i]) == if CLASS_ID_START + i == DEFAULT_CLASS then LINE_RATE else limits[d[i]]
    {
      assert macs[i] in macs;
      RankIsIndex(macs, limits, i);
    }
    forall mac: string | mac !in d ensures !Marked(limits, mac) {
      MarkedIsServed(macs, limits, mac);
    }
    PrefixAscends(macs, n);
  }

  lemma MarkedIsServed(macs: seq<string>, limits: map<string, int>, mac: string)
    requires SortedKeys(macs, limits)
    ensures Marked(limits, mac) ==> mac in macs[..Served(macs)]
  {
    ServedExactly(macs, limits, mac);
    if Marked(limits, mac) {
      assert macs[..Served(macs)][Rank(limits, mac)] == mac;
    }
  }

  lemma PrefixAscends(macs: seq<string>, n: nat)
    requires Ascending(macs) && n <= |macs|
    ensures Ascending(macs[..n])
  {
  }

  // ----- the positions of the commands

  function MarkAt(i: nat): nat {
    5 + i
  }

  /** Where the five fixed commands between the loops begin. */
  function ShapingAt(d: seq<string>): nat {
    5 + |d|
  }

  function ClassAt(d: seq<string>, i: nat): nat {
    10 + |d| + 2 * i
  }

  function FilterAt(d: seq<string>, i: nat): nat {
    11 + |d| + 2 * i
  }

  // ----- the two loops

  /** The rules of the mark commands that do not fail. */
  function SomeMarks(d: seq<string>, broken: set<nat>): seq<MarkRule> {
    if d == [] then []
    else
      var rank := |d| - 1;
      SomeMarks(d[..rank], broken)
      + if MarkAt(rank) in broken then [] else [MarkRule(d[rank], CLASS_ID_START + rank)]
  }

  lemma MarksSnoc(d: seq<string>)
    requires d != [] && |d| <= CLASS_ID_MAX - CLASS_ID_START + 1
    ensures var rank := |d| - 1;
            Marks(d) == Marks(d[..rank]) + [AppendMark(d[rank], CLASS_ID_START + rank)] && |Marks(d[..rank])| == rank
  {
    MarksSize(d[..|d| - 1]);
  }

  lemma RunButOne(k: Kernel, c: Command, broken: set<nat>, at: nat)
    requires !c.ExitUnlessInterface?
    ensures RunBut(k, [c], broken, at) == (if at in broken then k else Exec(k, c), at !in broken && Succeeds(k, c))
  {
  }

  lemma {:induction false} MarksBut(k: Kernel, d: seq<string>, broken: set<nat>)
    requires |d| <= CLASS_ID_MAX - CLASS_ID_START + 1
    ensures RunBut(k, Marks(d), broken, MarkAt(0)).0
         == if k.chain.None? then k else k.(chain := Some(k.chain.value + SomeMarks(d, broken)))
  {
    hide Marks, RunBut, SomeMarks, Succeeds;
    if d == [] {
      NoMarksBut(k, broken);
    } else {
      var rank := |d| - 1;
      var c := AppendMark(d[rank], CLASS_ID_START + rank);
      MarksSnoc(d);
      MarksUnguarded(d[..rank]);
      MarksBut(k, d[..rank], broken);
      RunButConcat(k, Marks(d[..rank]), [c], broken, MarkAt(0));
      RunButOne(RunBut(k, Marks(d[..rank]), broken, MarkAt(0)).0, c, broken, MarkAt(rank));
      if k.chain.Some? {
        var before := k.chain.value + SomeMarks(d[..rank], broken);
        SomeMarksSnoc(k.chain.value, d, broken);
        assert before + [] == before;
      }
    }
  }

  lemma NoMarksBut(k: Kernel, broken: set<nat>)
    ensures RunBut(k, Marks([]), broken, MarkAt(0)).0 == k && SomeMarks([], broken) == []
    ensures k.chain.Some? ==> k.chain.value + SomeMarks([], broken) == k.chain.value
  {
  }

  lemma SomeMarksSnoc(earlier: seq<MarkRule>, d: seq<string>, broken: set<nat>)
    requires d != []
    ensures var rank := |d| - 1;
            earlier + SomeMarks(d, broken)
            == (earlier + SomeMarks(d[..rank], broken))
               + if MarkAt(rank) in broken then [] else [MarkRule(d[rank], CLASS_ID_START + rank)]
  {
  }

  lemma ChainMarkSnoc(rules: seq<MarkRule>, last: MarkRule, mac: string, mark: int)
    ensures ChainMark(rules + [last], mac, mark) == if last.mac == mac then last.mark else ChainMark(rules, mac, mark)
  {
    assert (rules + [last])[..|rules|] == rules;
  }

  /** The mark of a device behind older rules: its own unless its command failed. */
  lemma {:induction false} MarkBehind(earlier: seq<MarkRule>, d: seq<string>, broken: set<nat>, mac: string, mark: int)
    requires Ascending(d)
    ensures mac !in d ==> ChainMark(earlier + SomeMarks(d, broken), mac, mark) == ChainMark(earlier, mac, mark)
    ensures forall i | 0 <= i < |d| && d[i] == mac ::
              ChainMark(earlier + SomeMarks(d, broken), mac, mark)
              == if MarkAt(i) in broken then ChainMark(earlier, mac, mark) else CLASS_ID_START + i
  {
    hide ChainMark;
    if d == [] {
      assert earlier + [] == earlier;
    } else {
      var rank := |d| - 1;
      var init, last := d[..rank], MarkRule(d[rank], CLASS_ID_START + rank);
      PrefixAscends(d, rank);
      LastIsNew(d);
      MarkBehind(earlier, init, broken, mac, mark);
      ChainMarkSnoc(earlier + SomeMarks(init, broken), last, mac, mark);
      assert earlier + (SomeMarks(init, broken) + []) == earlier + SomeMarks(init, broken);
      assert earlier + (SomeMarks(init, broken) + [last]) == earlier + SomeMarks(init, broken) + [last];
    }
  }

  lemma LastIsNew(d: seq<string>)
    requires Ascending(d) && d != []
    ensures forall i | 0 <= i < |d| - 1 :: d[i] != d[|d| - 1]
  {
    LessTotal(d[|d| - 1], d[|d| - 1]);
  }

  /** The tree after the class and filter commands that do not fail. */
  function SomeTree(q: Qdisc, d: seq<string>, limits: map<string, int>, broken: set<nat>, at: nat): (r: Qdisc)
    requires q.Htb? && forall m <- d :: m in limits
    ensures r.Htb?
  {
    if d == [] then q
    else
      var rank := |d| - 1;
      var id := CLASS_ID_START + rank;
      var before := SomeTree(q, d[..rank], limits, broken, at);
      var classed := if at + 2 * rank in broken then before else AddedClass(before, TOP_CLASS, id, limits[d[rank]]);
      if at + 2 * rank + 1 in broken then classed else AddedFilter(classed, id, id)
  }

  lemma ClassesSnoc(iface: string, d: seq<string>, limits: map<string, int>)
    requires d != [] && |d| <= CLASS_ID_MAX - CLASS_ID_START + 1 && forall m <- d :: m in limits
    ensures var rank := |d| - 1;
            var id := CLASS_ID_START + rank;
            Classes(iface, d, limits) == Classes(iface, d[..rank], limits)
                                         + ([AddClass(iface, TOP_CLASS, id, limits[d[rank]])]
                                            + [AddFilter(iface, id, id)])
  {
  }

  lemma {:induction false} ClassesSize(iface: string, d: seq<string>, limits: map<string, int>)
    requires |d| <= CLASS_ID_MAX - CLASS_ID_START + 1 && forall m <- d :: m in limits
    ensures |Classes(iface, d, limits)| == 2 * |d|
  {
    if d != [] {
      ClassesSize(iface, d[..|d| - 1], limits);
    }
  }

  lemma RunButTwo(k: Kernel, c: Command, e: Command, broken: set<nat>, at: nat)
    requires !c.ExitUnlessInterface? && !e.ExitUnlessInterface?
    ensures var k1 := if at in broken then k else Exec(k, c);
            RunBut(k, [c] + [e], broken, at) ==
            (if at + 1 in broken then k1 else Exec(k1, e), at + 1 !in broken && Succeeds(k1, e))
  {
    hide Exec, Succeeds;
    assert ([c] + [e])[1..] == [e];
  }

  lemma {:induction false} ClassesBut(
    k: Kernel, iface: string, d: seq<string>, limits: map<string, int>, broken: set<nat>, at: nat)
    requires |d| <= CLASS_ID_MAX - CLASS_ID_START + 1 && forall m <- d :: m in limits
    requires iface in k.qdiscs && k.qdiscs[iface].Htb?
    ensures RunBut(k, Classes(iface, d, limits), broken, at).0
         == k.(qdiscs := k.qdiscs[iface := SomeTree(k.qdiscs[iface], d, limits, broken, at)])
  {
    hide Classes, RunBut, Exec, AddedClass, AddedFilter, Succeeds;
    if d == [] {
      NoClassesBut(k, iface, limits, broken, at);
    } else {
      var rank := |d| - 1;
      var id := CLASS_ID_START + rank;
      var c, e := AddClass(iface, TOP_CLASS, id, limits[d[rank]]), AddFilter(iface, id, id);
      var init := Classes(iface, d[..rank], limits);
      ClassesSnoc(iface, d, limits);
      ClassesSize(iface, d[..rank], limits);
      ClassesUnguarded(iface, d[..rank], limits);
      ClassesBut(k, iface, d[..rank], limits, broken, at);
      RunButConcat(k, init, [c] + [e], broken, at);
      var k1 := RunBut(k, init, broken, at).0;
      RunButTwo(k1, c, e, broken, at + 2 * rank);
      ExecPair(k, iface, SomeTree(k.qdiscs[iface], d[..rank], limits, broken, at), id, limits[d[rank]]);
    }
  }

  lemma NoClassesBut(k: Kernel, iface: string, limits: map<string, int>, broken: set<nat>, at: nat)
    requires iface in k.qdiscs && k.qdiscs[iface].Htb?
    ensures RunBut(k, Classes(iface, [], limits), broken, at).0
         == k.(qdiscs := k.qdiscs[iface := SomeTree(k.qdiscs[iface], [], limits, broken, at)])
  {
    assert k.qdiscs[iface := k.qdiscs[iface]] == k.qdiscs;
  }

  /** The effect of the two commands for a device, apart and together. */
  lemma ExecPair(k: Kernel, iface: string, q: Qdisc, id: int, mbit: int)
    requires q.Htb?
    ensures var k' := k.(qdiscs := k.qdiscs[iface := q]);
            && Exec(k', AddClass(iface, TOP_CLASS, id, mbit))
               == k.(qdiscs := k.qdiscs[iface := AddedClass(q, TOP_CLASS, id, mbit)])
            && Exec(k', AddFilter(iface, id, id)) == k.(qdiscs := k.qdiscs[iface := AddedFilter(q, id, id)])
            && Exec(k.(qdiscs := k.qdiscs[iface := AddedClass(q, TOP_CLASS, id, mbit)]), AddFilter(iface, id, id))
               == k.(qdiscs := k.qdiscs[iface := AddedFilter(AddedClass(q, TOP_CLASS, id, mbit), id, id)])
  {
    hide AddedClass, AddedFilter;
    var q1 := AddedClass(q, TOP_CLASS, id, mbit);
    assert k.qdiscs[iface := q][iface := q1] == k.qdiscs[iface := q1];
    assert k.qdiscs[iface := q][iface := AddedFilter(q, id, id)] == k.qdiscs[iface := AddedFilter(q, id, id)];
    assert k.qdiscs[iface := q1][iface := AddedFilter(q1, id, id)] == k.qdiscs[iface := AddedFilter(q1, id, id)];
  }

  // ----- what the tree says

  predicate NewClass(q: Qdisc, d: seq<string>, broken: set<nat>, at: nat, id: int)
    requires q.Htb?
  {
    && TOP_CLASS in q.classes && CLASS_ID_START <= id < CLASS_ID_START + |d|
    && at + 2 * (id - CLASS_ID_START) !in broken
  }

  predicate NewFilter(d: seq<string>, broken: set<nat>, at: nat, mark: int) {
    && CLASS_ID_START <= mark < CLASS_ID_START + |d|
    && at + 2 * (mark - CLASS_ID_START) + 1 !in broken
  }

  /** The classes: those that were there keep their rates, and the others have those of the table. */
  ghost predicate ClassesOf(r: Qdisc, q: Qdisc, d: seq<string>, limits: map<string, int>, broken: set<nat>, at: nat)
    requires q.Htb? && r.Htb? && forall m <- d :: m in limits
  {
    && r.default == q.default
    && (forall id :: id in r.classes <==> id in q.classes || NewClass(q, d, broken, at, id))
    && (forall id <- q.classes :: r.classes[id] == q.classes[id])
    && (forall id | NewClass(q, d, broken, at, id) && id !in q.classes ::
          r.classes[id].mbit == limits[d[id - CLASS_ID_START]])
  }

  /** The filters: those that were there come first. */
  ghost predicate FiltersOf(r: Qdisc, q: Qdisc, d: seq<string>, broken: set<nat>, at: nat)
    requires q.Htb? && r.Htb?
  {
    && (forall m, to :: FlowOf(r.filters, m, to) == FlowOf(q.filters, m, if NewFilter(d, broken, at, m) then m else to))
    && (forall m :: HasFilter(r, m) <==> HasFilter(q, m) || NewFilter(d, broken, at, m))
  }

  predicate HasFilter(q: Qdisc, mark: int)
    requires q.Htb?
  {
    exists f <- q.filters :: f.mark == mark
  }

  lemma {:induction false} TreeClasses(q: Qdisc, d: seq<string>, limits: map<string, int>, broken: set<nat>, at: nat)
    requires q.Htb? && forall m <- d :: m in limits
    ensures ClassesOf(SomeTree(q, d, limits, broken, at), q, d, limits, broken, at)
  {
    if d != [] {
      hide AddedFilter, ClassesOf, AddedClass;
      var rank := |d| - 1;
      TreeClasses(q, d[..rank], limits, broken, at);
      var before := SomeTree(q, d[..rank], limits, broken, at);
      AddedFilterKeeps(before, rank, limits[d[rank]]);
      ClassesGrow(before, q, d, limits, broken, at);
      SameClasses(SomeTree(q, d, limits, broken, at), if at + 2 * rank in broken then before
                  else AddedClass(before, TOP_CLASS, CLASS_ID_START + rank, limits[d[rank]]), q, d, limits, broken, at);
    } else {
      NoClassesGrow(q, limits, broken, at);
    }
  }

  lemma NoClassesGrow(q: Qdisc, limits: map<string, int>, broken: set<nat>, at: nat)
    requires q.Htb?
    ensures ClassesOf(q, q, [], limits, broken, at)
  {
  }

  lemma SameClasses(r: Qdisc, r': Qdisc, q: Qdisc, d: seq<string>, limits: map<string, int>, broken: set<nat>, at: nat)
    requires q.Htb? && r.Htb? && r'.Htb? && forall m <- d :: m in limits
    requires r.classes == r'.classes && r.default == r'.default
    ensures ClassesOf(r, q, d, limits, broken, at) == ClassesOf(r', q, d, limits, broken, at)
  {
  }

  lemma ClassesGrow(r: Qdisc, q: Qdisc, d: seq<string>, limits: map<string, int>, broken: set<nat>, at: nat)
    requires d != [] && q.Htb? && r.Htb? && forall m <- d :: m in limits
    requires ClassesOf(r, q, d[..|d| - 1], limits, broken, at)
    ensures var rank := |d| - 1;
            ClassesOf(
              if at + 2 * rank in broken then r
              else AddedClass(r, TOP_CLASS, CLASS_ID_START + rank, limits[d[rank]]),
              q, d, limits, broken, at)
  {
  }

  lemma {:induction false} TreeFilters(q: Qdisc, d: seq<string>, limits: map<string, int>, broken: set<nat>, at: nat)
    requires q.Htb? && forall m <- d :: m in limits
    ensures FiltersOf(SomeTree(q, d, limits, broken, at), q, d, broken, at)
  {
    if d != [] {
      hide AddedFilter, FiltersOf, AddedClass;
      var rank := |d| - 1;
      var id := CLASS_ID_START + rank;
      TreeFilters(q, d[..rank], limits, broken, at);
      var before := SomeTree(q, d[..rank], limits, broken, at);
      var classed := if at + 2 * rank in broken then before else AddedClass(before, TOP_CLASS, id, limits[d[rank]]);
      AddedClassKeeps(before, id, limits[d[rank]]);
      SameFilters(classed, before, q, d[..rank], broken, at);
      FiltersGrow(classed, q, d, broken, at);
    } else {
      NoFiltersGrow(q, broken, at);
    }
  }

  lemma NoFiltersGrow(q: Qdisc, broken: set<nat>, at: nat)
    requires q.Htb?
    ensures FiltersOf(q, q, [], broken, at)
  {
  }

  lemma AddedClassKeeps(q: Qdisc, id: int, mbit: int)
    requires q.Htb?
    ensures AddedClass(q, TOP_CLASS, id, mbit).filters == q.filters
  {
  }

  lemma SameFilters(r: Qdisc, r': Qdisc, q: Qdisc, d: seq<string>, broken: set<nat>, at: nat)
    requires q.Htb? && r.Htb? && r'.Htb? && r.filters == r'.filters
    ensures FiltersOf(r, q, d, broken, at) == FiltersOf(r', q, d, broken, at)
  {
  }

  /** Where a filter sends its mark. */
  lemma {:induction false} FlowOfHas(filters: seq<FwFilter>, mark: int, to: int, to': int)
    ensures (forall f <- filters :: f.mark != mark) ==> FlowOf(filters, mark, to) == to
    ensures (exists f <- filters :: f.mark == mark) ==> FlowOf(filters, mark, to) == FlowOf(filters, mark, to')
  {
    if filters != [] {
      FlowOfHas(filters[1..], mark, to, to');
      assert filters == [filters[0]] + filters[1..];
    }
  }

  lemma AddedFilterSays(q: Qdisc, id: int, m: int, to: int)
    requires q.Htb?
    ensures FlowOf(AddedFilter(q, id, id).filters, m, to) == FlowOf(q.filters, m, if m == id then id else to)
    ensures HasFilter(AddedFilter(q, id, id), m) <==> HasFilter(q, m) || m == id
  {
    var f := FwFilter(id, id);
    FlowOfConcat(q.filters, [f], m, to);
    assert FlowOf([f], m, to) == if m == id then id else to;
    FlowOfHas(q.filters, m, to, id);
    if HasFilter(q, id) {
    } else {
      assert f in q.filters + [f];
    }
  }

  lemma NewFilterSnoc(d: seq<string>, broken: set<nat>, at: nat, m: int)
    requires d != []
    ensures var rank := |d| - 1;
            NewFilter(d, broken, at, m)
            <==> NewFilter(d[..rank], broken, at, m) || (m == CLASS_ID_START + rank && at + 2 * rank + 1 !in broken)
  {
  }

  lemma FiltersGrow(r: Qdisc, q: Qdisc, d: seq<string>, broken: set<nat>, at: nat)
    requires d != [] && q.Htb? && r.Htb? && FiltersOf(r, q, d[..|d| - 1], broken, at)
    ensures var rank := |d| - 1;
            var id := CLASS_ID_START + rank;
            FiltersOf(if at + 2 * rank + 1 in broken then r else AddedFilter(r, id, id), q, d, broken, at)
  {
    hide AddedFilter, FlowOf, HasFilter, NewFilter;
    var rank := |d| - 1;
    var id := CLASS_ID_START + rank;
    var r' := if at + 2 * rank + 1 in broken then r else AddedFilter(r, id, id);
    forall m, to
      ensures FlowOf(r'.filters, m, to) == FlowOf(q.filters, m, if NewFilter(d, broken, at, m) then m else to)
    {
      AddedFilterSays(r, id, m, to);
      NewFilterSnoc(d, broken, at, m);
      assert FlowOf(r.filters, m, if m == id then id else to)
          == FlowOf(q.filters, m, if NewFilter(d[..rank], broken, at, m) then m else if m == id then id else to);
      assert FlowOf(r.filters, m, to) == FlowOf(q.filters, m, if NewFilter(d[..rank], broken, at, m) then m else to);
    }
    forall m ensures HasFilter(r', m) <==> HasFilter(q, m) || NewFilter(d, broken, at, m) {
      AddedFilterSays(r, id, m, m);
      NewFilterSnoc(d, broken, at, m);
    }
  }

  lemma AddedFilterKeeps(q: Qdisc, rank: nat, mbit: int)
    requires q.Htb?
    ensures var id := CLASS_ID_START + rank;
            && AddedFilter(q, id, id).classes == q.classes && AddedFilter(q, id, id).default == q.default
            && var c := AddedClass(q, TOP_CLASS, id, mbit);
               AddedFilter(c, id, id).classes == c.classes && AddedFilter(c, id, id).default == c.default
  {
  }

  // ----- the script in four parts

  /** The kernel after each part of the script. */
  function AfterPrologue(k: Kernel, iface: string, broken: set<nat>): Kernel {
    RunBut(k, Prologue(iface)[1..], broken, 1).0
  }

  function AfterMarks(k: Kernel, iface: string, d: seq<string>, broken: set<nat>): Kernel {
    RunBut(AfterPrologue(k, iface, broken), Marks(d), broken, MarkAt(0)).0
  }

  function AfterShaping(k: Kernel, iface: string, d: seq<string>, broken: set<nat>): Kernel {
    RunBut(AfterMarks(k, iface, d, broken), Shaping(iface), broken, ShapingAt(d)).0
  }

  lemma Parts(k: Kernel, iface: string, d: seq<string>, limits: map<string, int>, broken: set<nat>)
    requires iface in k.interfaces && d != [] && Devices(d, limits)
    ensures RunBut(k, Program(iface, d, limits), broken, 0)
         == RunBut(AfterShaping(k, iface, d, broken), Classes(iface, d, limits), broken, ClassAt(d, 0))
  {
    hide RunBut, Prologue, Marks, Shaping, Classes, Exec, Devices;
    DevicesListed(d, limits);
    PrologueUnguarded(iface);
    var p, m, t, c := Prologue(iface)[1..], Marks(d), Shaping(iface), Classes(iface, d, limits);
    Guarded(k, iface, d, limits, broken);
    PrologueSize(iface);
    MarksSize(d);
    ClassesSize(iface, d, limits);
    MarksUnguarded(d);
    ShapingUnguarded(iface);
    assert Body(iface, d, limits) == p + (m + (t + c));
    RunButConcat(k, p, m + (t + c), broken, 1);
    RunButConcat(AfterPrologue(k, iface, broken), m, t + c, broken, MarkAt(0));
    RunButConcat(AfterMarks(k, iface, d, broken), t, c, broken, ShapingAt(d));
  }

  lemma PrologueUnguarded(iface: string)
    ensures |Prologue(iface)| == 5 && Unguarded(Prologue(iface)[1..])
  {
  }

  lemma DevicesListed(d: seq<string>, limits: map<string, int>)
    requires Devices(d, limits)
    ensures |d| <= CLASS_ID_MAX - CLASS_ID_START + 1 && Ascending(d) && forall m <- d :: m in limits
  {
  }

  /** The status is the success of the last filter command. */
  lemma LastFilter(k: Kernel, iface: string, d: seq<string>, limits: map<string, int>, broken: set<nat>, at: nat)
    requires d != [] && |d| <= CLASS_ID_MAX - CLASS_ID_START + 1 && forall m <- d :: m in limits
    ensures iface !in k.qdiscs || !k.qdiscs[iface].Htb? ==> !RunBut(k, Classes(iface, d, limits), broken, at).1
    ensures iface in k.qdiscs && k.qdiscs[iface].Htb? ==>
              (RunBut(k, Classes(iface, d, limits), broken, at).1
               <==> at + 2 * |d| - 1 !in broken && !HasFilter(k.qdiscs[iface], CLASS_ID_START + |d| - 1))
  {
    hide RunBut, Classes, Exec, AddedClass, AddedFilter, HasFilter, Succeeds;
    var rank := |d| - 1;
    var id := CLASS_ID_START + rank;
    var c, e := AddClass(iface, TOP_CLASS, id, limits[d[rank]]), AddFilter(iface, id, id);
    var init := Classes(iface, d[..rank], limits);
    ClassesSnoc(iface, d, limits);
    ClassesSize(iface, d[..rank], limits);
    ClassesUnguarded(iface, d[..rank], limits);
    RunButConcat(k, init, [c] + [e], broken, at);
    var k1 := RunBut(k, init, broken, at).0;
    RunButTwo(k1, c, e, broken, at + 2 * rank);
    if iface in k.qdiscs && k.qdiscs[iface].Htb? {
      var q := k.qdiscs[iface];
      ClassesBut(k, iface, d[..rank], limits, broken, at);
      TreeFilters(q, d[..rank], limits, broken, at);
      var q1 := SomeTree(q, d[..rank], limits, broken, at);
      ExecPair(k, iface, q1, id, limits[d[rank]]);
      FilterSucceeds(k1, iface, q1, id);
      AddedClassKeeps(q1, id, limits[d[rank]]);
      FilterSucceeds(Exec(k1, c), iface, AddedClass(q1, TOP_CLASS, id, limits[d[rank]]), id);
      LastIsNoFilter(q1, q, d, broken, at);
      SameHas(q1, AddedClass(q1, TOP_CLASS, id, limits[d[rank]]), id);
    } else {
      ClassesKind(iface, d[..rank], limits);
      NoTree(k, iface, init, broken, at);
      NoTreeCommand(k1, iface, c, e);
    }
  }

  lemma SameHas(q: Qdisc, r: Qdisc, id: int)
    requires q.Htb? && r.Htb? && q.filters == r.filters
    ensures HasFilter(q, id) == HasFilter(r, id)
  {
  }

  lemma LastIsNoFilter(r: Qdisc, q: Qdisc, d: seq<string>, broken: set<nat>, at: nat)
    requires d != [] && q.Htb? && r.Htb? && FiltersOf(r, q, d[..|d| - 1], broken, at)
    ensures HasFilter(r, CLASS_ID_START + |d| - 1) == HasFilter(q, CLASS_ID_START + |d| - 1)
  {
    hide HasFilter;
  }

  lemma FilterSucceeds(k: Kernel, iface: string, q: Qdisc, id: int)
    requires q.Htb? && iface in k.qdiscs && k.qdiscs[iface] == q
    ensures Succeeds(k, AddFilter(iface, id, id)) == !HasFilter(q, id)
  {
  }

  /** Without a tree no class or filter command does anything. */
  lemma {:induction false} NoTree(k: Kernel, iface: string, script: seq<Command>, broken: set<nat>, at: nat)
    requires iface !in k.qdiscs || !k.qdiscs[iface].Htb?
    requires forall c <- script :: (c.AddClass? || c.AddFilter?) && c.iface == iface
    ensures RunBut(k, script, broken, at).0 == k
    decreases |script|
  {
    if script != [] {
      assert (script[0].AddClass? || script[0].AddFilter?) && script[0].iface == iface;
      NoTree(k, iface, script[1..], broken, at + 1);
    }
  }

  lemma {:induction false} ClassesKind(iface: string, d: seq<string>, limits: map<string, int>)
    requires forall m <- d :: m in limits
    ensures forall c <- Classes(iface, d, limits) :: (c.AddClass? || c.AddFilter?) && c.iface == iface
  {
    if d != [] {
      ClassesKind(iface, d[..|d| - 1], limits);
    }
  }

  lemma NoTreeCommand(k: Kernel, iface: string, c: Command, e: Command)
    requires iface !in k.qdiscs || !k.qdiscs[iface].Htb?
    requires c.AddClass? && e.AddFilter? && c.iface == iface && e.iface == iface
    ensures Exec(k, c) == k && !Succeeds(k, e)
  {
  }
}
