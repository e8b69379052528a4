/** What the compiled bandwidth script does to the kernel, and that every packet is classified as
    the table says. The semantics interprets the mangle and tc commands the way the comment on
    `generateBandwidthScript` intends them (internal/system/bandwidth_limits.go). */
module BandwidthKernel {
  import opened Options
  import opened Seqs
  import opened BandwidthLimits

  // ----- kernel state

  /** A rule of mangle POSTROUTING: a jump to BWLIMIT for one interface, or any other rule. */
  datatype Rule = Jump(iface: string) | Other(text: string)

  datatype MarkRule = MarkRule(mac: string, mark: int)

  datatype Class = Class(parent: int, mbit: int)

  datatype FwFilter = FwFilter(mark: int, flow: int)

  datatype Qdisc = Htb(default: int, classes: map<int, Class>, filters: seq<FwFilter>) | OtherQdisc

  datatype Kernel = Kernel(
    interfaces: set<string>, postrouting: seq<Rule>, chain: Option<seq<MarkRule>>, qdiscs: map<string, Qdisc>)

  function RemoveFirst(rules: seq<Rule>, r: Rule): seq<Rule> {
    if rules == [] then []
    else if rules[0] == r then rules[1..]
    else [rules[0]] + RemoveFirst(rules[1..], r)
  }

  /** One command; a command that fails changes nothing. */
  function Exec(k: Kernel, c: Command): Kernel {
    match c
    case ExitUnlessInterface(_) => k
    case DeleteJump(iface) => k.(postrouting := RemoveFirst(k.postrouting, Jump(iface)))
    case FlushChain => if k.chain.Some? then k.(chain := Some([])) else k
    case DeleteChain =>
      if k.chain == Some([]) && !(exists r <- k.postrouting :: r.Jump?) then k.(chain := None) else k
    case NewChain => if k.chain.None? then k.(chain := Some([])) else k
    case AppendMark(mac, mark) =>
      if k.chain.Some? then k.(chain := Some(k.chain.value + [MarkRule(mac, mark)])) else k
    case AppendJump(iface) =>
      if k.chain.Some? then k.(postrouting := k.postrouting + [Jump(iface)]) else k
    case DeleteQdisc(iface) => k.(qdiscs := k.qdiscs - {iface})
    case AddQdisc(iface, default) =>
      if iface in k.qdiscs then k else k.(qdiscs := k.qdiscs[iface := Htb(default, map[], [])])
    case AddClass(iface, parent, id, mbit) =>
      if iface in k.qdiscs && k.qdiscs[iface].Htb?
      then k.(qdiscs := k.qdiscs[iface := AddedClass(k.qdiscs[iface], parent, id, mbit)])
      else k
    case AddFilter(iface, mark, flow) =>
      if iface in k.qdiscs && k.qdiscs[iface].Htb?
      then k.(qdiscs := k.qdiscs[iface := AddedFilter(k.qdiscs[iface], mark, flow)])
      else k
  }

  /** Adding a class fails when the parent is missing or the class exists. */
  function AddedClass(q: Qdisc, parent: int, id: int, mbit: int): (r: Qdisc)
    requires q.Htb?
    ensures r.Htb?
  {
    if (parent == ROOT || parent in q.classes) && id !in q.classes
    then q.(classes := q.classes[id := Class(parent, mbit)])
    else q
  }

  function AddedFilter(q: Qdisc, mark: int, flow: int): (r: Qdisc)
    requires q.Htb?
    ensures r.Htb?
  {
    if exists f <- q.filters :: f.mark == mark then q else q.(filters := q.filters + [FwFilter(mark, flow)])
  }

  function Run(k: Kernel, script: seq<Command>): Kernel
    decreases |script|
  {
    if script == [] then k
    else if script[0].ExitUnlessInterface? && script[0].iface !in k.interfaces then k
    else Run(Exec(k, script[0]), script[1..])
  }

  // ----- what happens to a packet

  datatype Packet = Packet(out: string, mac: string)

  /** MARK does not end the traversal, so the last matching rule wins. */
  function ChainMark(rules: seq<MarkRule>, mac: string, mark: int): int {
    if rules == [] then mark
    else
      var last := rules[|rules| - 1];
      if last.mac == mac then last.mark else ChainMark(rules[..|rules| - 1], mac, mark)
  }

  function TraverseMark(rules: seq<Rule>, chain: seq<MarkRule>, p: Packet, mark: int): int {
    if rules == [] then mark
    else
      TraverseMark(rules[1..], chain, p,
                   if rules[0] == Jump(p.out) then ChainMark(chain, p.mac, mark) else mark)
  }

  /** The mark of a packet that enters POSTROUTING unmarked. */
  function MarkOf(k: Kernel, p: Packet): int {
    TraverseMark(k.postrouting, if k.chain.Some? then k.chain.value else [], p, 0)
  }

  function FlowOf(filters: seq<FwFilter>, mark: int, default: int): int {
    if filters == [] then default
    else if filters[0].mark == mark then filters[0].flow
    else FlowOf(filters[1..], mark, default)
  }

  /** The rate in Mbit/s of the class a packet is queued in. */
  function RateOf(k: Kernel, p: Packet): Option<int> {
    if p.out !in k.qdiscs || !k.qdiscs[p.out].Htb? then None
    else
      var q := k.qdiscs[p.out];
      var flow := FlowOf(q.filters, MarkOf(k, p), q.default);
      if flow in q.classes then Some(q.classes[flow].mbit) else None
  }

  // ----- what the table asks for

  /** A device's rank is the number of listed devices before it in string order. */
  function Rank(limits: map<string, int>, mac: string): nat {
    |set m | m in limits && Less(m, mac)|
  }

  predicate Marked(limits: map<string, int>, mac: string) {
    mac in limits && CLASS_ID_START + Rank(limits, mac) <= CLASS_ID_MAX
  }

  /** The class of rank 20 is the default class, which keeps the line rate. */
  predicate Shaped(limits: map<string, int>, mac: string) {
    Marked(limits, mac) && CLASS_ID_START + Rank(limits, mac) != DEFAULT_CLASS
  }

  function WantedMark(limits: map<string, int>, mac: string): int {
    if Marked(limits, mac) then CLASS_ID_START + Rank(limits, mac) else 0
  }

  function WantedRate(limits: map<string, int>, mac: string): int {
    if Shaped(limits, mac) then limits[mac] else LINE_RATE
  }

  // ----- running the compiled script

  predicate Unguarded(script: seq<Command>) {
    forall c <- script :: !c.ExitUnlessInterface?
  }

  lemma {:induction false} RunConcat(k: Kernel, a: seq<Command>, b: seq<Command>)
    requires Unguarded(a)
    ensures Run(k, a + b) == Run(Run(k, a), b)
    decreases |a|
  {
    if a == [] {
      assert a + b == b;
    } else {
      assert (a + b)[1..] == a[1..] + b;
      assert !a[0].ExitUnlessInterface?;
      RunConcat(Exec(k, a[0]), a[1..], b);
    }
  }

  lemma RunOne(k: Kernel, c: Command)
    requires !c.ExitUnlessInterface?
    ensures Run(k, [c]) == Exec(k, c)
  {
    assert [c][1..] == [];
  }

  function MarkRules(macs: seq<string>): seq<MarkRule> {
    if macs == [] then []
    else
      var rank := |macs| - 1;
      MarkRules(macs[..rank])
      + if CLASS_ID_START + rank > CLASS_ID_MAX then [] else [MarkRule(macs[rank], CLASS_ID_START + rank)]
  }

  lemma {:induction false} MarksUnguarded(macs: seq<string>)
    ensures Unguarded(Marks(macs))
  {
    if macs != [] {
      MarksUnguarded(macs[..|macs| - 1]);
    }
  }

  lemma {:induction false} RunMarks(k: Kernel, macs: seq<string>)
    requires k.chain == Some([])
    ensures Run(k, Marks(macs)) == k.(chain := Some(MarkRules(macs)))
  {
    if macs != [] {
      var rank := |macs| - 1;
      RunMarks(k, macs[..rank]);
      if CLASS_ID_START + rank <= CLASS_ID_MAX {
        var c := AppendMark(macs[rank], CLASS_ID_START + rank);
        MarksUnguarded(macs[..rank]);
        RunConcat(k, Marks(macs[..rank]), [c]);
        RunOne(Run(k, Marks(macs[..rank])), c);
      } else {
        assert Marks(macs[..rank]) + [] == Marks(macs[..rank]);
        assert MarkRules(macs[..rank]) + [] == MarkRules(macs[..rank]);
      }
    }
  }

  const EMPTY_HTB: Qdisc := Htb(
    DEFAULT_CLASS, map[TOP_CLASS := Class(ROOT, LINE_RATE), DEFAULT_CLASS := Class(TOP_CLASS, LINE_RATE)], [])

  /** The queueing discipline after the commands of the second loop. */
  function Shaper(macs: seq<string>, limits: map<string, int>): (q: Qdisc)
    requires forall m <- macs :: m in limits
    ensures q.Htb?
  {
    if macs == [] then EMPTY_HTB
    else
      var rank := |macs| - 1;
      var id := CLASS_ID_START + rank;
      var q := Shaper(macs[..rank], limits);
      if id > CLASS_ID_MAX then q else AddedFilter(AddedClass(q, TOP_CLASS, id, limits[macs[rank]]), id, id)
  }

  lemma {:induction false} ClassesUnguarded(iface: string, macs: seq<string>, limits: map<string, int>)
    requires forall m <- macs :: m in limits
    ensures Unguarded(Classes(iface, macs, limits))
  {
    if macs != [] {
      ClassesUnguarded(iface, macs[..|macs| - 1], limits);
    }
  }

  lemma ExecDevice(k: Kernel, iface: string, q: Qdisc, id: int, mbit: int)
    requires q.Htb?
    ensures var k' := k.(qdiscs := k.qdiscs[iface := q]);
            Exec(Exec(k', AddClass(iface, TOP_CLASS, id, mbit)), AddFilter(iface, id, id))
            == k.(qdiscs := k.qdiscs[iface := AddedFilter(AddedClass(q, TOP_CLASS, id, mbit), id, id)])
  {
    hide AddedClass, AddedFilter;
    var q1 := AddedClass(q, TOP_CLASS, id, mbit);
    assert k.qdiscs[iface := q][iface := q1] == k.qdiscs[iface := q1];
    assert k.qdiscs[iface := q1][iface := AddedFilter(q1, id, id)] == k.qdiscs[iface := AddedFilter(q1, id, id)];
  }

  lemma RunThenTwo(k: Kernel, before: seq<Command>, c: Command, d: Command)
    requires Unguarded(before) && !c.ExitUnlessInterface? && !d.ExitUnlessInterface?
    ensures Run(k, before + [c, d]) == Exec(Exec(Run(k, before), c), d)
  {
    hide Run, Exec;
    RunConcat(k, before, [c, d]);
    RunTwo(Run(k, before), c, d);
  }

  lemma {:induction false} RunClasses(k: Kernel, iface: string, macs: seq<string>, limits: map<string, int>)
    requires forall m <- macs :: m in limits
    requires iface in k.qdiscs && k.qdiscs[iface] == EMPTY_HTB
    ensures Run(k, Classes(iface, macs, limits)) == k.(qdiscs := k.qdiscs[iface := Shaper(macs, limits)])
  {
    hide AddedClass, AddedFilter, Run, Exec, Classes, Shaper;
    if macs == [] {
      RunNoClasses(k, iface, limits);
    } else {
      RunClasses(k, iface, macs[..|macs| - 1], limits);
      RunOneMoreClass(k, iface, macs, limits);
    }
  }

  lemma RunNoClasses(k: Kernel, iface: string, limits: map<string, int>)
    requires iface in k.qdiscs && k.qdiscs[iface] == EMPTY_HTB
    ensures Run(k, Classes(iface, [], limits)) == k.(qdiscs := k.qdiscs[iface := Shaper([], limits)])
  {
    assert k.qdiscs[iface := EMPTY_HTB] == k.qdiscs;
  }

  lemma RunOneMoreClass(k: Kernel, iface: string, macs: seq<string>, limits: map<string, int>)
    requires macs != [] && forall m <- macs :: m in limits
    requires var init := macs[..|macs| - 1];
             Run(k, Classes(iface, init, limits)) == k.(qdiscs := k.qdiscs[iface := Shaper(init, limits)])
    ensures Run(k, Classes(iface, macs, limits)) == k.(qdiscs := k.qdiscs[iface := Shaper(macs, limits)])
  {
    hide AddedClass, AddedFilter, Run, Exec;
    var rank := |macs| - 1;
    var init := macs[..rank];
    var id, mbit := CLASS_ID_START + rank, limits[macs[rank]];
    if id <= CLASS_ID_MAX {
      ClassesUnguarded(iface, init, limits);
      RunThenTwo(k, Classes(iface, init, limits), AddClass(iface, TOP_CLASS, id, mbit), AddFilter(iface, id, id));
      ExecDevice(k, iface, Shaper(init, limits), id, mbit);
    } else {
      assert Classes(iface, init, limits) + [] == Classes(iface, init, limits);
    }
  }

  lemma RunTwo(k: Kernel, c: Command, d: Command)
    requires !c.ExitUnlessInterface? && !d.ExitUnlessInterface?
    ensures Run(k, [c, d]) == Exec(Exec(k, c), d)
  {
    assert [c, d] == [c] + [d];
    RunConcat(k, [c], [d]);
    RunOne(k, c);
    RunOne(Exec(k, c), d);
  }

  /** From any kernel state whatsoever, the chain ends up empty and one jump to it is gone. */
  lemma RunPrologue(k: Kernel, iface: string)
    requires iface in k.interfaces
    ensures Run(k, Prologue(iface)) == k.(postrouting := RemoveFirst(k.postrouting, Jump(iface)), chain := Some([]))
  {
    var p := Prologue(iface);
    assert p[1..] == [DeleteJump(iface), FlushChain] + [DeleteChain, NewChain];
    RunConcat(k, [DeleteJump(iface), FlushChain], [DeleteChain, NewChain]);
    RunTwo(k, DeleteJump(iface), FlushChain);
    RunTwo(Run(k, [DeleteJump(iface), FlushChain]), DeleteChain, NewChain);
  }

  lemma ExecQdisc(k: Kernel, iface: string)
    requires iface !in k.qdiscs
    ensures Exec(k, AddQdisc(iface, DEFAULT_CLASS)) == k.(qdiscs := k.qdiscs[iface := Htb(DEFAULT_CLASS, map[], [])])
  {
  }

  lemma ExecClass(k: Kernel, iface: string, q: Qdisc, parent: int, id: int, mbit: int)
    requires iface in k.qdiscs && k.qdiscs[iface] == q && q.Htb?
    requires (parent == ROOT || parent in q.classes) && id !in q.classes
    ensures Exec(k, AddClass(iface, parent, id, mbit))
         == k.(qdiscs := k.qdiscs[iface := q.(classes := q.classes[id := Class(parent, mbit)])])
  {
  }

  lemma ExecTree(k: Kernel, iface: string)
    requires iface !in k.qdiscs
    ensures var k1 := Exec(k, AddQdisc(iface, DEFAULT_CLASS));
            var k2 := Exec(k1, AddClass(iface, ROOT, TOP_CLASS, LINE_RATE));
            Exec(k2, AddClass(iface, TOP_CLASS, DEFAULT_CLASS, LINE_RATE)) == k.(qdiscs := k.qdiscs[iface := EMPTY_HTB])
  {
    hide Exec;
    var q0 := Htb(DEFAULT_CLASS, map[], []);
    var q1 := q0.(classes := map[TOP_CLASS := Class(ROOT, LINE_RATE)]);
    ExecQdisc(k, iface);
    var k1 := Exec(k, AddQdisc(iface, DEFAULT_CLASS));
    ExecClass(k1, iface, q0, ROOT, TOP_CLASS, LINE_RATE);
    var k2 := Exec(k1, AddClass(iface, ROOT, TOP_CLASS, LINE_RATE));
    assert q0.classes[TOP_CLASS := Class(ROOT, LINE_RATE)] == q1.classes;
    ExecClass(k2, iface, q1, TOP_CLASS, DEFAULT_CLASS, LINE_RATE);
    assert EMPTY_HTB.classes == q1.classes[DEFAULT_CLASS := Class(TOP_CLASS, LINE_RATE)];
    assert k.qdiscs[iface := q0][iface := q1][iface := EMPTY_HTB] == k.qdiscs[iface := EMPTY_HTB];
  }

  lemma RunShaping(k: Kernel, iface: string)
    requires k.chain.Some?
    ensures Run(k, Shaping(iface)) ==
            k.(postrouting := k.postrouting + [Jump(iface)], qdiscs := k.qdiscs[iface := EMPTY_HTB])
  {
    hide Run, Exec;
    var jump, del := AppendJump(iface), DeleteQdisc(iface);
    var add, top := AddQdisc(iface, DEFAULT_CLASS), AddClass(iface, ROOT, TOP_CLASS, LINE_RATE);
    var default := AddClass(iface, TOP_CLASS, DEFAULT_CLASS, LINE_RATE);
    assert Shaping(iface) == [jump, del] + ([add, top] + [default]);
    RunTwo(k, jump, del);
    ExecStart(k, iface);
    var k1 := k.(postrouting := k.postrouting + [Jump(iface)], qdiscs := k.qdiscs - {iface});
    RunConcat(k, [jump, del], [add, top] + [default]);
    RunTree(k1, add, top, default);
    ExecTree(k1, iface);
    assert (k.qdiscs - {iface})[iface := EMPTY_HTB] == k.qdiscs[iface := EMPTY_HTB];
  }

  lemma ExecStart(k: Kernel, iface: string)
    requires k.chain.Some?
    ensures Exec(Exec(k, AppendJump(iface)), DeleteQdisc(iface))
         == k.(postrouting := k.postrouting + [Jump(iface)], qdiscs := k.qdiscs - {iface})
  {
  }

  lemma RunTree(k: Kernel, c: Command, d: Command, e: Command)
    requires Unguarded([c, d, e])
    ensures Run(k, [c, d] + [e]) == Exec(Exec(Exec(k, c), d), e)
  {
    assert [c, d, e][0] == c && [c, d, e][1] == d && [c, d, e][2] == e;
    RunConcat(k, [c, d], [e]);
    RunTwo(k, c, d);
    RunOne(Exec(Exec(k, c), d), e);
  }

  /** The kernel after the script, in closed form. */
  function Compiled(k: Kernel, iface: string, macs: seq<string>, limits: map<string, int>): Kernel
    requires forall m <- macs :: m in limits
  {
    k.(postrouting := RemoveFirst(k.postrouting, Jump(iface)) + [Jump(iface)],
       chain := Some(MarkRules(macs)),
       qdiscs := k.qdiscs[iface := Shaper(macs, limits)])
  }

  /** The script with its two loops over lists of their own. */
  lemma RunParts(k: Kernel, iface: string, marked: seq<string>, macs: seq<string>, limits: map<string, int>)
    requires iface in k.interfaces && forall m <- macs :: m in limits
    ensures Run(k, Prologue(iface) + Marks(marked) + Shaping(iface) + Classes(iface, macs, limits))
         == k.(postrouting := RemoveFirst(k.postrouting, Jump(iface)) + [Jump(iface)],
               chain := Some(MarkRules(marked)),
               qdiscs := k.qdiscs[iface := Shaper(macs, limits)])
  {
    hide Run, Marks, Classes, Prologue, Shaping, Shaper, MarkRules, Exec, RemoveFirst;
    var tail := Marks(marked) + (Shaping(iface) + Classes(iface, macs, limits));
    assert Prologue(iface) + Marks(marked) + Shaping(iface) + Classes(iface, macs, limits) == Prologue(iface) + tail;
    RunPrologue(k, iface);
    RunAfterPrologue(k, iface, tail);
    var k1 := Run(k, Prologue(iface));
    MarksUnguarded(marked);
    RunConcat(k1, Marks(marked), Shaping(iface) + Classes(iface, macs, limits));
    RunMarks(k1, marked);
    var k2 := Run(k1, Marks(marked));
    ShapingUnguarded(iface);
    RunConcat(k2, Shaping(iface), Classes(iface, macs, limits));
    RunShaping(k2, iface);
    RunClasses(Run(k2, Shaping(iface)), iface, macs, limits);
  }

  lemma RunProgram(k: Kernel, iface: string, macs: seq<string>, limits: map<string, int>)
    requires iface in k.interfaces && forall m <- macs :: m in limits
    ensures Run(k, Program(iface, macs, limits)) == Compiled(k, iface, macs, limits)
  {
    hide Run, Marks, Classes, Prologue, Shaping, Shaper, MarkRules, RemoveFirst;
    RunParts(k, iface, macs, macs, limits);
  }

  lemma ShapingUnguarded(iface: string)
    ensures Unguarded(Shaping(iface))
  {
  }

  lemma RunAfterPrologue(k: Kernel, iface: string, tail: seq<Command>)
    requires iface in k.interfaces
    ensures Run(k, Prologue(iface) + tail) == Run(Run(k, Prologue(iface)), tail)
  {
    var p := Prologue(iface);
    assert (p + tail)[1..] == p[1..] + tail;
    RunConcat(k, p[1..], tail);
  }

  // ----- classification

  /** In an ascending enumeration of the table a device's rank is its index. */
  lemma RankIsIndex(macs: seq<string>, limits: map<string, int>, i: nat)
    requires SortedKeys(macs, limits) && i < |macs|
    ensures Rank(limits, macs[i]) == i
  {
    var smaller := set m | m in limits && Less(m, macs[i]);
    forall m ensures m in smaller <==> m in macs[..i] {
      if m in macs {
        var j :| 0 <= j < |macs| && macs[j] == m;
        LessTotal(macs[j], macs[i]);
        assert m in macs[..i] ==> Less(m, macs[i]);
        assert j < i ==> macs[..i][j] == m;
      }
    }
    assert smaller == set m | m in macs[..i];
    AscendingSize(macs[..i]);
  }

  lemma {:induction false} AscendingSize(s: seq<string>)
    requires Ascending(s)
    ensures |set m | m in s| == |s|
  {
    if s != [] {
      var init, last := s[..|s| - 1], s[|s| - 1];
      AscendingSize(init);
      assert last !in init by {
        forall m <- init ensures m != last {
          LessTotal(m, m);
          assert Less(m, last);
        }
      }
      assert (set m | m in s) == (set m | m in init) + {last};
    }
  }

  /** The chain gives the i-th device the mark 10 + i, as long as that id is allowed. */
  lemma {:induction false} ChainMarkOf(macs: seq<string>, i: nat, mark: int)
    requires Ascending(macs) && i < |macs|
    ensures ChainMark(MarkRules(macs), macs[i], mark)
         == if CLASS_ID_START + i <= CLASS_ID_MAX then CLASS_ID_START + i else mark
  {
    var rank := |macs| - 1;
    var init := macs[..rank];
    var rules := MarkRules(init);
    if i < rank {
      LessTotal(macs[i], macs[i]);
      assert init[i] == macs[i] && macs[rank] != macs[i];
      ChainMarkOf(init, i, mark);
      assert (rules + [MarkRule(macs[rank], CLASS_ID_START + rank)])[..|rules|] == rules;
      assert rules + [] == rules;
    } else if CLASS_ID_START + rank > CLASS_ID_MAX {
      forall j | 0 <= j < |init| ensures init[j] != macs[i] {
        LessTotal(macs[i], macs[i]);
      }
      ChainMarkUnlisted(init, macs[i], mark);
      assert rules + [] == rules;
    }
  }

  lemma {:induction false} ChainMarkUnlisted(macs: seq<string>, mac: string, mark: int)
    requires mac !in macs
    ensures ChainMark(MarkRules(macs), mac, mark) == mark
  {
    if macs != [] {
      var rank := |macs| - 1;
      var rules := MarkRules(macs[..rank]);
      ChainMarkUnlisted(macs[..rank], mac, mark);
      assert (rules + [MarkRule(macs[rank], CLASS_ID_START + rank)])[..|rules|] == rules;
      assert rules + [] == rules;
    }
  }

  /** A chain that decides a packet's mark can be entered any number of times. */
  lemma {:induction false} TraverseJump(rules: seq<Rule>, chain: seq<MarkRule>, p: Packet, mark: int, want: int)
    requires ChainMark(chain, p.mac, 0) == want && ChainMark(chain, p.mac, want) == want
    requires (mark == 0 && Jump(p.out) in rules) || mark == want
    ensures TraverseMark(rules, chain, p, mark) == want
  {
    if rules != [] {
      var next := if rules[0] == Jump(p.out) then ChainMark(chain, p.mac, mark) else mark;
      assert rules == [rules[0]] + rules[1..];
      TraverseJump(rules[1..], chain, p, next, want);
    }
  }

  lemma MarkInChain(macs: seq<string>, limits: map<string, int>, mac: string, mark: int)
    requires SortedKeys(macs, limits)
    ensures ChainMark(MarkRules(macs), mac, mark) == if Marked(limits, mac) then WantedMark(limits, mac) else mark
  {
    if mac in macs {
      var i :| 0 <= i < |macs| && macs[i] == mac;
      RankIsIndex(macs, limits, i);
      ChainMarkOf(macs, i, mark);
    } else {
      ChainMarkUnlisted(macs, mac, mark);
    }
  }

  /** Every packet leaving through the interface gets the mark of its device; a packet to a device
      that is not listed, or whose rank is past the last id, stays unmarked. */
  lemma MarksAsWanted(k: Kernel, iface: string, macs: seq<string>, limits: map<string, int>, mac: string)
    requires SortedKeys(macs, limits)
    ensures MarkOf(Compiled(k, iface, macs, limits), Packet(iface, mac)) == WantedMark(limits, mac)
  {
    var k' := Compiled(k, iface, macs, limits);
    MarkInChain(macs, limits, mac, 0);
    MarkInChain(macs, limits, mac, WantedMark(limits, mac));
    assert k'.postrouting[|k'.postrouting| - 1] == Jump(iface);
    TraverseJump(k'.postrouting, MarkRules(macs), Packet(iface, mac), 0, WantedMark(limits, mac));
  }

  /** How many devices get an id of their own. */
  function Served(macs: seq<string>): (n: nat)
    ensures n <= |macs|
  {
    if CLASS_ID_START + |macs| - 1 <= CLASS_ID_MAX then |macs| else CLASS_ID_MAX - CLASS_ID_START + 1
  }

  function Filters(n: nat): seq<FwFilter> {
    if n == 0 then [] else Filters(n - 1) + [FwFilter(CLASS_ID_START + n - 1, CLASS_ID_START + n - 1)]
  }

  lemma {:induction false} FiltersHave(n: nat, mark: int, default: int)
    ensures (exists f <- Filters(n) :: f.mark == mark) <==> CLASS_ID_START <= mark < CLASS_ID_START + n
    ensures FlowOf(Filters(n), mark, default) == if CLASS_ID_START <= mark < CLASS_ID_START + n then mark else default
  {
    if n > 0 {
      var id := CLASS_ID_START + n - 1;
      FiltersHave(n - 1, mark, default);
      FiltersHave(n - 1, mark, FlowOf([FwFilter(id, id)], mark, default));
      FlowOfConcat(Filters(n - 1), [FwFilter(id, id)], mark, default);
      if mark == id {
        assert FwFilter(id, id) in Filters(n);
      }
    }
  }

  lemma {:induction false} FlowOfConcat(a: seq<FwFilter>, b: seq<FwFilter>, mark: int, default: int)
    ensures FlowOf(a + b, mark, default) == FlowOf(a, mark, FlowOf(b, mark, default))
  {
    if a == [] {
      assert a + b == b;
    } else {
      assert (a + b)[1..] == a[1..] + b;
      FlowOfConcat(a[1..], b, mark, default);
    }
  }

  /** The class tree: the line-rate class, the default class, and one class and one filter for each
      served device, except that the class of the device with id 30 is the default class. */
  lemma {:induction false} ShaperIs(macs: seq<string>, limits: map<string, int>)
    requires forall m <- macs :: m in limits
    ensures TreeIs(Shaper(macs, limits), macs, limits)
  {
    if macs != [] {
      hide TreeIs, AddedClass, AddedFilter;
      var init := macs[..|macs| - 1];
      ShaperIs(init, limits);
      TreeGrows(Shaper(init, limits), macs, limits);
    }
  }

  ghost predicate TreeIs(q: Qdisc, macs: seq<string>, limits: map<string, int>) {
    q.Htb? && (forall m <- macs :: m in limits) &&
    var n := Served(macs);
    && q.default == DEFAULT_CLASS
    && (forall id :: id in q.classes <==> id in {TOP_CLASS, DEFAULT_CLASS} || CLASS_ID_START <= id < CLASS_ID_START + n)
    && q.classes[DEFAULT_CLASS].mbit == LINE_RATE
    && (forall i | 0 <= i < n && CLASS_ID_START + i != DEFAULT_CLASS ::
          q.classes[CLASS_ID_START + i].mbit == limits[macs[i]])
    && q.filters == Filters(n)
  }

  /** What adding a class and its filter does to a tree that has no such filter. */
  lemma AddedDevice(q: Qdisc, id: int, mbit: int)
    requires q.Htb? && TOP_CLASS in q.classes && !(exists f <- q.filters :: f.mark == id)
    ensures var r := AddedFilter(AddedClass(q, TOP_CLASS, id, mbit), id, id);
            && r.default == q.default && r.filters == q.filters + [FwFilter(id, id)]
            && (forall k :: k in r.classes <==> k in q.classes || k == id)
            && (forall k <- q.classes :: r.classes[k] == q.classes[k])
            && (id !in q.classes ==> r.classes[id].mbit == mbit)
  {
  }

  lemma TreeGrows(q: Qdisc, macs: seq<string>, limits: map<string, int>)
    requires macs != [] && TreeIs(q, macs[..|macs| - 1], limits) && macs[|macs| - 1] in limits
    ensures var rank := |macs| - 1;
            var id := CLASS_ID_START + rank;
            TreeIs(
              if id > CLASS_ID_MAX then q else AddedFilter(AddedClass(q, TOP_CLASS, id, limits[macs[rank]]), id, id),
              macs, limits)
  {
    hide FlowOf, AddedClass, AddedFilter;
    var init := macs[..|macs| - 1];
    var id := CLASS_ID_START + |init|;
    assert macs == init + [macs[|macs| - 1]];
    if id <= CLASS_ID_MAX {
      FiltersHave(|init|, id, DEFAULT_CLASS);
      assert Served(init) == |init| && Served(macs) == |macs|;
      AddedDevice(q, id, limits[macs[|macs| - 1]]);
    }
  }

  lemma ServedExactly(macs: seq<string>, limits: map<string, int>, mac: string)
    requires SortedKeys(macs, limits)
    ensures Marked(limits, mac) <==> mac in macs && Rank(limits, mac) < Served(macs)
    ensures Marked(limits, mac) ==> macs[Rank(limits, mac)] == mac
  {
    if mac in macs {
      var i :| 0 <= i < |macs| && macs[i] == mac;
      RankIsIndex(macs, limits, i);
    }
  }

  /** Every packet is queued in a class of the rate the table asks for. */
  lemma RatesAsWanted(k: Kernel, iface: string, macs: seq<string>, limits: map<string, int>, mac: string)
    requires SortedKeys(macs, limits)
    ensures RateOf(Compiled(k, iface, macs, limits), Packet(iface, mac)) == Some(WantedRate(limits, mac))
  {
    hide Shaper, MarkOf, FlowOf;
    MarksAsWanted(k, iface, macs, limits, mac);
    ServedExactly(macs, limits, mac);
    ShaperIs(macs, limits);
    FiltersHave(Served(macs), WantedMark(limits, mac), DEFAULT_CLASS);
  }

  function NotJump(iface: string): Rule -> bool {
    r => r != Jump(iface)
  }

  lemma {:induction false} RemoveFirstKeeps(rules: seq<Rule>, iface: string)
    ensures Filter(NotJump(iface), RemoveFirst(rules, Jump(iface))) == Filter(NotJump(iface), rules)
  {
    if rules != [] {
      assert rules == [rules[0]] + rules[1..];
      FilterConcat(NotJump(iface), [rules[0]], rules[1..]);
      if rules[0] == Jump(iface) {
        assert [rules[0]][..0] == [];
      } else {
        RemoveFirstKeeps(rules[1..], iface);
        FilterConcat(NotJump(iface), [rules[0]], RemoveFirst(rules[1..], Jump(iface)));
      }
    }
  }

  /** The kernel enforces the table on the interface. */
  ghost predicate Enforces(k: Kernel, iface: string, limits: map<string, int>) {
    forall mac: string ::
      && MarkOf(k, Packet(iface, mac)) == WantedMark(limits, mac)
      && RateOf(k, Packet(iface, mac)) == Some(WantedRate(limits, mac))
  }

  /** Compiler correctness: run on any kernel that has the interface, the script for a table makes the
      kernel classify every packet as the table asks, whatever marks, chains and classes were there
      before. The other POSTROUTING rules and the other interfaces are not touched. */
  lemma ScriptEnforces(k: Kernel, iface: string, macs: seq<string>, limits: map<string, int>)
    requires iface in k.interfaces && SortedKeys(macs, limits)
    ensures var k' := Run(k, Program(iface, macs, limits));
            && Enforces(k', iface, limits)
            && Filter(NotJump(iface), k'.postrouting) == Filter(NotJump(iface), k.postrouting)
            && k'.qdiscs - {iface} == k.qdiscs - {iface}
            && k'.interfaces == k.interfaces
  {
    hide Run, Program, MarkOf, RateOf, WantedMark, WantedRate, Filter, RemoveFirst;
    RunProgram(k, iface, macs, limits);
    forall mac: string
      ensures MarkOf(Compiled(k, iface, macs, limits), Packet(iface, mac)) == WantedMark(limits, mac)
      ensures RateOf(Compiled(k, iface, macs, limits), Packet(iface, mac)) == Some(WantedRate(limits, mac))
    {
      MarksAsWanted(k, iface, macs, limits, mac);
      RatesAsWanted(k, iface, macs, limits, mac);
    }
    RemoveFirstKeeps(k.postrouting, iface);
    FilterConcat(NotJump(iface), RemoveFirst(k.postrouting, Jump(iface)), [Jump(iface)]);
    FilterNone(NotJump(iface), [Jump(iface)]);
  }

  /** A listed device gets the rate the table says exactly when it is among the first 236 in string
      order and not the one with rank 20, or its limit is the line rate anyway. */
  lemma LimitHonoured(k: Kernel, iface: string, macs: seq<string>, limits: map<string, int>, mac: string)
    requires iface in k.interfaces && SortedKeys(macs, limits) && mac in limits
    ensures RateOf(Run(k, Program(iface, macs, limits)), Packet(iface, mac)) == Some(limits[mac])
       <==> (Rank(limits, mac) <= 235 && Rank(limits, mac) != 20) || limits[mac] == LINE_RATE
  {
    hide Run, Program, RateOf;
    ScriptEnforces(k, iface, macs, limits);
  }

  /** In every table with more than 20 devices the device of rank 20 is not limited, whatever its row
      says, and the default class stands in for it. */
  lemma TwentyFirstUnlimited(k: Kernel, iface: string, macs: seq<string>, limits: map<string, int>)
    requires iface in k.interfaces && SortedKeys(macs, limits) && |macs| > 20
    ensures RateOf(Run(k, Program(iface, macs, limits)), Packet(iface, macs[20])) == Some(LINE_RATE)
  {
    hide Run, Program, RateOf;
    ScriptEnforces(k, iface, macs, limits);
    RankIsIndex(macs, limits, 20);
  }

  /** In numbers: the marks are 10 plus the rank, up to 245, and whoever is not limited has 1000 Mbit/s. */
  lemma DeviceGets(k: Kernel, iface: string, macs: seq<string>, limits: map<string, int>, mac: string)
    requires iface in k.interfaces && SortedKeys(macs, limits)
    ensures var k' := Run(k, Program(iface, macs, limits));
            && MarkOf(k', Packet(iface, mac))
               == (if mac in limits && Rank(limits, mac) <= 235 then 10 + Rank(limits, mac) else 0)
            && RateOf(k', Packet(iface, mac))
               == Some(if mac in limits && Rank(limits, mac) <= 235 && Rank(limits, mac) != 20
                       then limits[mac] else 1000)
  {
    hide Run, Program, RateOf, MarkOf, Rank;
    ScriptEnforces(k, iface, macs, limits);
  }

  /** In every table with more than 236 devices the later ones are not limited. */
  lemma LateUnlimited(k: Kernel, iface: string, macs: seq<string>, limits: map<string, int>, i: nat)
    requires iface in k.interfaces && SortedKeys(macs, limits) && 236 <= i < |macs|
    ensures RateOf(Run(k, Program(iface, macs, limits)), Packet(iface, macs[i])) == Some(LINE_RATE)
  {
    hide Run, Program, RateOf;
    ScriptEnforces(k, iface, macs, limits);
    RankIsIndex(macs, limits, i);
  }

  /** Tables of any such size exist: addresses that differ in their last two octets, each limited to
      10 Mbit/s. */
  lemma TableOf(n: nat) returns (macs: seq<string>, limits: map<string, int>)
    requires n <= 10000
    ensures SortedKeys(macs, limits) && |macs| == n && forall m <- macs :: limits[m] == 10
  {
    macs := seq(n, i requires 0 <= i < n => Address(i));
    limits := map m | m in macs :: 10;
    forall i, j | 0 <= i < j < |macs| ensures Less(macs[i], macs[j]) {
      LessAddress(i, j);
    }
  }

  function Address(i: nat): string
    requires i < 10000
  {
    "02:00:00:00:" + (Octet(i / 100) + (":" + Octet(i % 100)))
  }

  function Octet(i: nat): string
    requires i < 100
  {
    [('0' as int + i / 10) as char, ('0' as int + i % 10) as char]
  }

  lemma LessOctet(i: nat, j: nat)
    requires i < j < 100
    ensures Less(Octet(i), Octet(j))
  {
  }

  lemma LessAddress(i: nat, j: nat)
    requires i < j < 10000
    ensures Less(Address(i), Address(j))
  {
    var x, y := Octet(i / 100) + (":" + Octet(i % 100)), Octet(j / 100) + (":" + Octet(j % 100));
    if i / 100 == j / 100 {
      LessOctet(i % 100, j % 100);
      LessBehind(":", Octet(i % 100), Octet(j % 100));
      LessBehind(Octet(i / 100), ":" + Octet(i % 100), ":" + Octet(j % 100));
    } else {
      LessOctet(i / 100, j / 100);
      LessBefore(Octet(i / 100), Octet(j / 100), ":" + Octet(i % 100), ":" + Octet(j % 100));
    }
    LessBehind("02:00:00:00:", x, y);
  }

  lemma {:induction false} LessBefore(a: string, b: string, x: string, y: string)
    requires Less(a, b) && |a| == |b|
    ensures Less(a + x, b + y)
  {
    assert (a + x)[1..] == a[1..] + x && (b + y)[1..] == b[1..] + y;
    if a[0] == b[0] {
      LessBefore(a[1..], b[1..], x, y);
    }
  }

  lemma {:induction false} LessBehind(p: string, a: string, b: string)
    requires Less(a, b)
    ensures Less(p + a, p + b)
  {
    if p == "" {
      assert p + a == a && p + b == b;
    } else {
      assert (p + a)[1..] == p[1..] + a && (p + b)[1..] == p[1..] + b;
      LessBehind(p[1..], a, b);
    }
  }

  // ----- stability

  /** The order in which the table's rows come out of the map does not matter. */
  lemma ScriptIsDetermined(iface: string, macs: seq<string>, macs': seq<string>, limits: map<string, int>)
    requires SortedKeys(macs, limits) && SortedKeys(macs', limits)
    ensures Program(iface, macs, limits) == Program(iface, macs', limits)
  {
    AscendingUnique(macs, macs');
  }

  /** Ids grow strictly with the MAC address, and depend only on which devices are listed. */
  lemma RankIsStable(limits: map<string, int>, limits': map<string, int>, a: string, b: string)
    requires limits.Keys == limits'.Keys && a in limits && b in limits
    ensures Rank(limits, a) == Rank(limits', a)
    ensures Rank(limits, a) < Rank(limits, b) <==> Less(a, b)
  {
    assert (set m | m in limits && Less(m, a)) == (set m | m in limits' && Less(m, a));
    LessTotal(a, b);
    if Less(a, b) {
      RankGrows(limits, a, b);
    } else if Less(b, a) {
      RankGrows(limits, b, a);
    }
  }

  lemma RankGrows(limits: map<string, int>, a: string, b: string)
    requires a in limits && b in limits && Less(a, b)
    ensures Rank(limits, a) < Rank(limits, b)
  {
    var belowA, belowB := set m | m in limits && Less(m, a), set m | m in limits && Less(m, b);
    forall m <- belowA ensures m in belowB {
      LessTrans(m, a, b);
    }
    LessTotal(a, a);
    assert a in belowB && a !in belowA;
    SubsetSize(belowA, belowB - {a});
    assert |belowB - {a}| == |belowB| - 1;
  }

  function Jumps(rules: seq<Rule>, iface: string): nat {
    if rules == [] then 0 else (if rules[0] == Jump(iface) then 1 else 0) + Jumps(rules[1..], iface)
  }

  lemma {:induction false} RemoveLastJump(rules: seq<Rule>, iface: string)
    requires Jumps(rules, iface) == 0
    ensures RemoveFirst(rules + [Jump(iface)], Jump(iface)) == rules
    ensures RemoveFirst(rules, Jump(iface)) == rules
    ensures Jumps(rules + [Jump(iface)], iface) == 1
  {
    var all := rules + [Jump(iface)];
    if rules == [] {
      assert all[1..] == [];
    } else {
      assert all[1..] == rules[1..] + [Jump(iface)];
      RemoveLastJump(rules[1..], iface);
    }
  }

  lemma {:induction false} NoJumpLeft(rules: seq<Rule>, iface: string)
    requires Jumps(rules, iface) <= 1
    ensures Jumps(RemoveFirst(rules, Jump(iface)), iface) == 0
  {
    if rules != [] && rules[0] != Jump(iface) {
      NoJumpLeft(rules[1..], iface);
    }
  }

  /** Nothing but jumps to the chain follows the first one. */
  predicate JumpsLast(rules: seq<Rule>, iface: string) {
    forall i, j | 0 <= i < j < |rules| && rules[i] == Jump(iface) :: rules[j] == Jump(iface)
  }

  lemma {:induction false} RemoveMoved(rules: seq<Rule>, iface: string)
    ensures RemoveFirst(rules + [Jump(iface)], Jump(iface)) == rules <==> JumpsLast(rules, iface)
  {
    var jump := Jump(iface);
    var all := rules + [jump];
    if rules == [] {
      assert all[1..] == [];
    } else {
      assert all[1..] == rules[1..] + [jump] && rules == [rules[0]] + rules[1..];
      if rules[0] == jump {
        JumpsFirst(rules, iface);
      } else {
        RemoveMoved(rules[1..], iface);
        JumpsBehind(rules, iface);
      }
    }
  }

  lemma JumpsBehind(rules: seq<Rule>, iface: string)
    requires rules != [] && rules[0] != Jump(iface)
    ensures JumpsLast(rules, iface) <==> JumpsLast(rules[1..], iface)
  {
    var rest := rules[1..];
    if JumpsLast(rest, iface) {
      forall i, j | 0 <= i < j < |rules| && rules[i] == Jump(iface) ensures rules[j] == Jump(iface) {
        assert rest[i - 1] == rules[i] && rest[j - 1] == rules[j];
      }
    }
    if JumpsLast(rules, iface) {
      forall i, j | 0 <= i < j < |rest| && rest[i] == Jump(iface) ensures rest[j] == Jump(iface) {
        assert rest[i] == rules[i + 1] && rest[j] == rules[j + 1];
      }
    }
  }

  /** A list that begins with the jump is the list with the jump moved to its end exactly when it holds
      nothing else. */
  lemma JumpsFirst(rules: seq<Rule>, iface: string)
    requires rules != [] && rules[0] == Jump(iface)
    ensures rules[1..] + [Jump(iface)] == rules <==> JumpsLast(rules, iface)
  {
    var moved := rules[1..] + [Jump(iface)];
    assert |moved| == |rules|;
    if JumpsLast(rules, iface) {
      assert forall j | 0 <= j < |rules| :: rules[j] == Jump(iface);
    } else if moved == rules {
      OnlyJumps(rules, iface, 0);
    }
  }

  lemma {:induction false} OnlyJumps(rules: seq<Rule>, iface: string, n: nat)
    requires rules != [] && rules[0] == Jump(iface) && rules[1..] + [Jump(iface)] == rules && n < |rules|
    ensures forall j | n <= j < |rules| :: rules[j] == Jump(iface)
    decreases |rules| - n
  {
    var moved := rules[1..] + [Jump(iface)];
    if n + 1 < |rules| {
      OnlyJumps(rules, iface, n + 1);
      assert moved[n] == rules[n + 1];
    }
  }

  /** Running the script twice is running it once exactly when, after the removal of the first jump, the
      rules that are left have all other jumps at their end. */
  lemma RunTwiceExact(k: Kernel, iface: string, macs: seq<string>, limits: map<string, int>)
    requires iface in k.interfaces && forall m <- macs :: m in limits
    ensures var k' := Run(k, Program(iface, macs, limits));
            (Run(k', Program(iface, macs, limits)) == k'
             <==> JumpsLast(RemoveFirst(k.postrouting, Jump(iface)), iface))
  {
    hide Run, Program, Shaper, RemoveFirst, JumpsLast;
    var k' := Run(k, Program(iface, macs, limits));
    RunProgram(k, iface, macs, limits);
    RunProgram(k', iface, macs, limits);
    var rules := RemoveFirst(k.postrouting, Jump(iface));
    RemoveMoved(rules, iface);
    assert k'.qdiscs[iface := Shaper(macs, limits)] == k'.qdiscs;
    SameInit(RemoveFirst(rules + [Jump(iface)], Jump(iface)), rules, Jump(iface));
  }

  lemma SameInit(a: seq<Rule>, b: seq<Rule>, last: Rule)
    ensures a + [last] == b + [last] <==> a == b
  {
    if a + [last] == b + [last] {
      assert a == (a + [last])[..|a|] && b == (b + [last])[..|b|];
    }
  }

  /** For instance with two jumps in front of another rule, the second run moves one behind it. */
  lemma RunTwiceDiffers(k: Kernel, iface: string, macs: seq<string>, limits: map<string, int>, rule: string)
    requires iface in k.interfaces && forall m <- macs :: m in limits
    requires k.postrouting == [Jump(iface), Jump(iface), Other(rule)]
    ensures var k' := Run(k, Program(iface, macs, limits)); Run(k', Program(iface, macs, limits)) != k'
  {
    hide Run, Program;
    RunTwiceExact(k, iface, macs, limits);
    var rules := [Jump(iface), Other(rule)];
    assert k.postrouting[1..] == rules && rules[0] == Jump(iface) && rules[1] != Jump(iface);
  }

  /** In particular from a clean kernel and from every kernel an earlier run has left behind. */
  lemma RunTwiceIsOnce(k: Kernel, iface: string, macs: seq<string>, limits: map<string, int>)
    requires iface in k.interfaces && forall m <- macs :: m in limits
    requires Jumps(k.postrouting, iface) <= 1
    ensures var k' := Run(k, Program(iface, macs, limits));
            Run(k', Program(iface, macs, limits)) == k' && Jumps(k'.postrouting, iface) == 1
  {
    hide Run, Program, Shaper;
    var k' := Run(k, Program(iface, macs, limits));
    RunProgram(k, iface, macs, limits);
    RunProgram(k', iface, macs, limits);
    NoJumpLeft(k.postrouting, iface);
    RemoveLastJump(RemoveFirst(k.postrouting, Jump(iface)), iface);
    assert k'.qdiscs[iface := Shaper(macs, limits)] == k'.qdiscs;
  }
}
