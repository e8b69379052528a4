/** Running the bandwidth script with `sh -c` (internal/system/bandwidth_limits.go): the shell goes on
    after a command that fails, and its exit status is that of the last command. The operations on the
    table of limits see nothing but this status. */
module BandwidthShell {
  import opened Options
  import opened BandwidthLimits
  import opened BandwidthKernel

  // ----- the shell

  /** Whether a command succeeds in a kernel. */
  predicate Succeeds(k: Kernel, c: Command) {
    match c
    case ExitUnlessInterface(_) => true
    case DeleteJump(iface) => Jump(iface) in k.postrouting
    case FlushChain => k.chain.Some?
    case DeleteChain => k.chain == Some([]) && !(exists r <- k.postrouting :: r.Jump?)
    case NewChain => k.chain.None?
    case AppendMark(_, _) => k.chain.Some?
    case AppendJump(_) => k.chain.Some?
    case DeleteQdisc(_) => true
    case AddQdisc(iface, _) => iface !in k.qdiscs
    case AddClass(iface, parent, id, _) =>
      && iface in k.qdiscs && k.qdiscs[iface].Htb?
      && (parent == ROOT || parent in k.qdiscs[iface].classes) && id !in k.qdiscs[iface].classes
    case AddFilter(iface, mark, _) =>
      && iface in k.qdiscs && k.qdiscs[iface].Htb?
      && !(exists f <- k.qdiscs[iface].filters :: f.mark == mark)
  }

  /** The kernel after a script some of whose commands fail for reasons outside the kernel (`broken`
      holds their positions, counted from `at`), and whether the exit status reports success. */
  function RunBut(k: Kernel, script: seq<Command>, broken: set<nat>, at: nat): (Kernel, bool)
    decreases |script|
  {
    if script == [] then (k, true)
    else
      var c := script[0];
      if c.ExitUnlessInterface? && c.iface !in k.interfaces then (k, true)
      else
        var k' := if at in broken then k else Exec(k, c);
        if |script| == 1 then (k', at !in broken && Succeeds(k, c))
        else RunBut(k', script[1..], broken, at + 1)
  }

  lemma {:induction false} RunButConcat(k: Kernel, a: seq<Command>, b: seq<Command>, broken: set<nat>, at: nat)
    requires Unguarded(a) && b != []
    ensures RunBut(k, a + b, broken, at) == RunBut(RunBut(k, a, broken, at).0, b, broken, at + |a|)
    decreases |a|
  {
    if a == [] {
      assert a + b == b;
    } else {
      assert (a + b)[1..] == a[1..] + b && !a[0].ExitUnlessInterface?;
      var k' := if at in broken then k else Exec(k, a[0]);
      RunButConcat(k', a[1..], b, broken, at + 1);
      assert |a| == 1 ==> a[1..] == [];
    }
  }

  /** Without failures from outside, the shell does what the commands do. */
  lemma {:induction false} UnbrokenRun(k: Kernel, script: seq<Command>, broken: set<nat>, at: nat)
    requires forall i | at <= i < at + |script| :: i !in broken
    ensures RunBut(k, script, broken, at).0 == Run(k, script)
    decreases |script|
  {
    if script != [] {
      UnbrokenRun(Exec(k, script[0]), script[1..], broken, at + 1);
      if |script| == 1 {
        assert script[1..] == [];
      }
    }
  }

  /** One failing command is a command less. */
  lemma SkippedCommand(k: Kernel, a: seq<Command>, c: Command, b: seq<Command>)
    requires Unguarded(a) && !c.ExitUnlessInterface? && b != []
    ensures RunBut(k, a + [c] + b, {|a|}, 0).0 == Run(k, a + b)
    ensures RunBut(k, a + [c] + b, {|a|}, 0).1 == RunBut(Run(k, a), b, {}, 0).1
  {
    hide Run, Exec, Succeeds;
    RunButConcat(k, a, [c] + b, {|a|}, 0);
    assert a + [c] + b == a + ([c] + b);
    UnbrokenRun(k, a, {|a|}, 0);
    assert ([c] + b)[1..] == b;
    UnbrokenRun(Run(k, a), b, {|a|}, |a| + 1);
    RunConcat(k, a, b);
    SameStatus(Run(k, a), b, {|a|}, |a| + 1);
  }

  lemma {:induction false} SameStatus(k: Kernel, script: seq<Command>, broken: set<nat>, at: nat)
    requires forall i | at <= i < at + |script| :: i !in broken
    ensures RunBut(k, script, broken, at).1 == RunBut(k, script, {}, 0).1
    decreases |script|
  {
    SameStatusFrom(k, script, broken, at, 0);
  }

  lemma {:induction false} SameStatusFrom(k: Kernel, script: seq<Command>, broken: set<nat>, at: nat, at': nat)
    requires forall i | at <= i < at + |script| :: i !in broken
    ensures RunBut(k, script, broken, at).1 == RunBut(k, script, {}, at').1
    decreases |script|
  {
    if |script| > 1 {
      SameStatusFrom(Exec(k, script[0]), script[1..], broken, at + 1, at' + 1);
    }
  }

  // ----- the exit status of the script

  /** The status is the success of the last command. */
  lemma LastStatus(k: Kernel, a: seq<Command>, c: Command)
    requires Unguarded(a) && !c.ExitUnlessInterface?
    ensures RunBut(k, a + [c], {}, 0).1 == Succeeds(Run(k, a), c)
  {
    hide Run, Exec, Succeeds;
    RunButConcat(k, a, [c], {}, 0);
    UnbrokenRun(k, a, {}, 0);
  }

  /** The script behind its first line. */
  function Body(iface: string, macs: seq<string>, limits: map<string, int>): seq<Command>
    requires forall m <- macs :: m in limits
  {
    Prologue(iface)[1..] + Marks(macs) + Shaping(iface) + Classes(iface, macs, limits)
  }

  lemma Guarded(k: Kernel, iface: string, macs: seq<string>, limits: map<string, int>, broken: set<nat>)
    requires iface in k.interfaces && forall m <- macs :: m in limits
    ensures Program(iface, macs, limits) == [ExitUnlessInterface(iface)] + Body(iface, macs, limits)
    ensures RunBut(k, Program(iface, macs, limits), broken, 0) == RunBut(k, Body(iface, macs, limits), broken, 1)
    ensures Run(k, Program(iface, macs, limits)) == Run(k, Body(iface, macs, limits))
    ensures Unguarded(Body(iface, macs, limits))
  {
    hide Marks, Classes;
    var all := Program(iface, macs, limits);
    MarksUnguarded(macs);
    ClassesUnguarded(iface, macs, limits);
    assert all[1..] == Body(iface, macs, limits);
    assert all == [all[0]] + all[1..];
  }

  /** With no device listed the last command adds the default class. */
  lemma EmptyTableStatus(k: Kernel, iface: string, limits: map<string, int>)
    requires iface in k.interfaces
    ensures RunBut(k, Body(iface, [], limits), {}, 0).1
  {
    hide Run, Exec, RemoveFirst, RunBut;
    var p := Prologue(iface)[1..];
    var start := [AppendJump(iface), DeleteQdisc(iface)];
    var tree := [AddQdisc(iface, DEFAULT_CLASS), AddClass(iface, ROOT, TOP_CLASS, LINE_RATE)];
    var last := AddClass(iface, TOP_CLASS, DEFAULT_CLASS, LINE_RATE);
    assert Body(iface, [], limits) == p + start + tree + [last];
    Guarded(k, iface, [], limits, {});
    RunPrologue(k, iface);
    RunConcat(k, p + start, tree);
    RunConcat(k, p, start);
    var k1 := Run(k, p);
    RunTwo(k1, AppendJump(iface), DeleteQdisc(iface));
    var k2 := Run(k, p + start);
    StartSays(k1, iface);
    RunTwo(k2, tree[0], tree[1]);
    ExecQdisc(k2, iface);
    ExecClass(Exec(k2, tree[0]), iface, Htb(DEFAULT_CLASS, map[], []), ROOT, TOP_CLASS, LINE_RATE);
    LastStatus(k, p + start + tree, last);
  }

  lemma StartSays(k: Kernel, iface: string)
    ensures iface !in Exec(Exec(k, AppendJump(iface)), DeleteQdisc(iface)).qdiscs
  {
  }

  /** With devices it adds the filter of the last served one, whose mark no filter has yet. */
  lemma LastFilterStatus(k: Kernel, iface: string, macs: seq<string>, limits: map<string, int>)
    requires iface in k.interfaces && macs != [] && forall m <- macs :: m in limits
    ensures RunBut(k, Body(iface, macs, limits), {}, 0).1
  {
    hide Run, Exec, Classes, Marks, RunBut, Shaper, MarkRules, RemoveFirst, Shaping, Prologue;
    var rank := Served(macs) - 1;
    var init := macs[..rank];
    var id := CLASS_ID_START + rank;
    var add, last := AddClass(iface, TOP_CLASS, id, limits[macs[rank]]), AddFilter(iface, id, id);
    PrologueSize(iface);
    ClassesCapped(iface, macs, limits, rank + 1);
    ClassesNext(iface, macs, limits, rank);
    var a := Prologue(iface)[1..] + Marks(macs) + Shaping(iface) + Classes(iface, init, limits);
    assert Body(iface, macs, limits) == a + [add] + [last];
    PartsBody(k, iface, macs, init, limits);
    RunConcat(k, a, [add]);
    RunOne(Run(k, a), add);
    FilterIsNew(Run(k, a), iface, init, limits, add, last);
    LastStatus(k, a + [add], last);
  }

  lemma PartsBody(k: Kernel, iface: string, marked: seq<string>, macs: seq<string>, limits: map<string, int>)
    requires iface in k.interfaces && forall m <- macs :: m in limits
    ensures var a := Prologue(iface)[1..] + Marks(marked) + Shaping(iface) + Classes(iface, macs, limits);
            && Unguarded(a)
            && Run(k, a) == k.(postrouting := RemoveFirst(k.postrouting, Jump(iface)) + [Jump(iface)],
                               chain := Some(MarkRules(marked)),
                               qdiscs := k.qdiscs[iface := Shaper(macs, limits)])
  {
    hide Marks, Classes, Shaping, Shaper, MarkRules, RemoveFirst, Exec;
    var all := Prologue(iface) + Marks(marked) + Shaping(iface) + Classes(iface, macs, limits);
    MarksUnguarded(marked);
    ShapingUnguarded(iface);
    ClassesUnguarded(iface, macs, limits);
    RunParts(k, iface, marked, macs, limits);
    assert all[1..] == Prologue(iface)[1..] + Marks(marked) + Shaping(iface) + Classes(iface, macs, limits);
    assert Exec(k, all[0]) == k by {
      GuardDoesNothing(k, iface);
    }
  }

  lemma GuardDoesNothing(k: Kernel, iface: string)
    ensures Exec(k, ExitUnlessInterface(iface)) == k
  {
  }

  lemma FilterIsNew(k: Kernel, iface: string, macs: seq<string>, limits: map<string, int>, add: Command, last: Command)
    requires forall m <- macs :: m in limits
    requires iface in k.qdiscs && k.qdiscs[iface] == Shaper(macs, limits)
    requires CLASS_ID_START + |macs| <= CLASS_ID_MAX
    requires var id := CLASS_ID_START + |macs|; add.AddClass? && add.iface == iface && last == AddFilter(iface, id, id)
    ensures Succeeds(Exec(k, add), last)
  {
    hide Shaper, FlowOf, Filters;
    ShaperIs(macs, limits);
    FiltersHave(|macs|, CLASS_ID_START + |macs|, DEFAULT_CLASS);
  }

  lemma {:induction false} MarksSize(macs: seq<string>)
    requires CLASS_ID_START + |macs| - 1 <= CLASS_ID_MAX
    ensures |Marks(macs)| == |macs|
  {
    if macs != [] {
      MarksSize(macs[..|macs| - 1]);
    }
  }

  lemma PrologueSize(iface: string)
    ensures |Prologue(iface)| == 5 && |Shaping(iface)| == 5
  {
  }

  /** When nothing fails from outside, the script reports success. */
  lemma CleanStatus(k: Kernel, iface: string, macs: seq<string>, limits: map<string, int>)
    requires forall m <- macs :: m in limits
    ensures RunBut(k, Program(iface, macs, limits), {}, 0).1
  {
    hide Exec, Classes, Marks, Shaping, Body;
    if iface in k.interfaces {
      Guarded(k, iface, macs, limits, {});
      SameStatus(k, Body(iface, macs, limits), {}, 1);
      if macs == [] {
        EmptyTableStatus(k, iface, limits);
      } else {
        LastFilterStatus(k, iface, macs, limits);
      }
    }
  }

  // ----- the table and its two operations

  /** What the outside world does during one operation; `broken` are the positions of the commands of the
      script that fail for reasons outside the kernel. */
  datatype World = World(dbOk: bool, listOk: bool, devMode: bool, writeOk: bool, broken: set<nat>)

  class Limiter {
    var table: map<string, int>
    var bootScript: seq<Command>
    var kernel: Kernel

    constructor (kernel: Kernel)
      ensures table == map[] && bootScript == [] && this.kernel == kernel
    {
      table, bootScript, this.kernel := map[], [], kernel;
    }

    /** `ApplyAllBandwidthLimits`. When the shell was started the kernel is what the script with its failed
        commands leaves, whatever is reported; the report is the status of the shell. Without failed
        commands it is success, and the kernel enforces the table. Failures before the shell leave the
        kernel alone. */
    method ApplyAll(iface: string, w: World) returns (ok: bool)
      modifies this`bootScript, this`kernel
      ensures !w.listOk || w.devMode ==> bootScript == old(bootScript)
      ensures !w.listOk || w.devMode || !w.writeOk ==> kernel == old(kernel) && ok == (w.listOk && w.devMode)
      ensures w.listOk && !w.devMode && w.writeOk ==>
                && ScriptFor(bootScript, iface, table)
                && (kernel, ok) == RunBut(old(kernel), bootScript, w.broken, 0)
      ensures w.listOk && !w.devMode && w.writeOk && w.broken == {} ==>
                ok && (iface in old(kernel).interfaces ==> Enforces(kernel, iface, table))
    {
      hide Program, Enforces, RunBut;
      if !w.listOk {
        return false;
      }
      var script := GenerateBandwidthScript(iface, table);
      if w.devMode {
        return true;
      }
      if !w.writeOk {
        return false;
      }
      bootScript := script;
      ghost var macs :| SortedKeys(macs, table) && script == Program(iface, macs, table);
      if w.broken == {} {
        CleanStatus(kernel, iface, macs, table);
        UnbrokenRun(kernel, script, {}, 0);
        if iface in kernel.interfaces {
          ScriptEnforces(kernel, iface, macs, table);
        }
      }
      var result := RunBut(kernel, script, w.broken, 0);
      kernel := result.0;
      return result.1;
    }

    method SetBandwidthLimit(mac: string, mbps: int, w: World) returns (ok: bool)
      modifies this
      ensures table == if w.dbOk then old(table)[mac := mbps] else old(table)
      ensures w.dbOk && w.listOk && !w.devMode && w.writeOk ==>
                && ScriptFor(bootScript, "lan", table)
                && (kernel, ok) == RunBut(old(kernel), bootScript, w.broken, 0)
      ensures w.dbOk && w.listOk && !w.devMode && w.writeOk && w.broken == {} && "lan" in old(kernel).interfaces ==>
                ok && mac in table && Enforces(kernel, "lan", table)
      ensures !w.dbOk || !w.listOk || w.devMode || !w.writeOk ==>
                kernel == old(kernel) && ok == (w.dbOk && w.listOk && w.devMode)
    {
      hide RunBut, Enforces, ScriptFor;
      if !w.dbOk {
        return false;
      }
      table := table[mac := mbps];
      ok := ApplyAll("lan", w);
    }

    method DeleteBandwidthLimit(mac: string, w: World) returns (ok: bool)
      modifies this
      ensures table == if w.dbOk then old(table) - {mac} else old(table)
      ensures w.dbOk && w.listOk && !w.devMode && w.writeOk ==>
                && ScriptFor(bootScript, "lan", table)
                && (kernel, ok) == RunBut(old(kernel), bootScript, w.broken, 0)
      ensures w.dbOk && w.listOk && !w.devMode && w.writeOk && w.broken == {} && "lan" in old(kernel).interfaces ==>
                && ok && Enforces(kernel, "lan", table)
                && RateOf(kernel, Packet("lan", mac)) == Some(LINE_RATE)
      ensures !w.dbOk || !w.listOk || w.devMode || !w.writeOk ==>
                kernel == old(kernel) && ok == (w.dbOk && w.listOk && w.devMode)
    {
      hide RunBut, ScriptFor, RateOf, MarkOf;
      if !w.dbOk {
        return false;
      }
      table := table - {mac};
      ok := ApplyAll("lan", w);
    }
  }
}
