/** The per-device download limits (internal/system/bandwidth_limits.go): a table from MAC address
    to Mbps is compiled into iptables and tc commands. The commands are given a small kernel
    semantics; a shell script goes on after a command that fails. */
module BandwidthLimits {

  // ----- string order, as in `sort.Strings`

  predicate Less(a: string, b: string) {
    if b == "" then false
    else if a == "" then true
    else a[0] < b[0] || (a[0] == b[0] && Less(a[1..], b[1..]))
  }

  lemma {:induction false} LessTotal(a: string, b: string)
    ensures Less(a, b) || Less(b, a) || a == b
    ensures !(Less(a, b) && Less(b, a))
    ensures !Less(a, a)
  {
    if a != "" && b != "" {
      LessTotal(a[1..], b[1..]);
      assert a == [a[0]] + a[1..] && b == [b[0]] + b[1..];
    }
    if a != "" {
      LessTotal(a[1..], a[1..]);
    }
  }

  lemma {:induction false} LessTrans(a: string, b: string, c: string)
    requires Less(a, b) && Less(b, c)
    ensures Less(a, c)
  {
    if a != "" && a[0] == b[0] == c[0] {
      LessTrans(a[1..], b[1..], c[1..]);
    }
  }

  predicate Ascending(s: seq<string>) {
    forall i, j | 0 <= i < j < |s| :: Less(s[i], s[j])
  }

  /** A set has at most one ascending enumeration. */
  lemma {:induction false} AscendingUnique(s: seq<string>, t: seq<string>)
    requires Ascending(s) && Ascending(t)
    requires forall x :: x in s <==> x in t
    ensures s == t
  {
    assert t == [] || t[0] in t;
    if s != [] {
      assert s[0] in t;
      var j :| 0 <= j < |t| && t[j] == s[0];
      assert t[0] in s;
      var i :| 0 <= i < |s| && s[i] == t[0];
      LessTotal(s[0], t[0]);
      assert s[0] == t[0];
      forall x ensures x in s[1..] <==> x in t[1..] {
        LessTotal(s[0], s[0]);
        assert x in s[1..] ==> x in s && x != s[0];
        assert x in t[1..] ==> x in t && x != t[0];
        assert s == [s[0]] + s[1..] && t == [t[0]] + t[1..];
      }
      AscendingUnique(s[1..], t[1..]);
      assert s == [s[0]] + s[1..] && t == [t[0]] + t[1..];
    }
  }

  // ----- commands

  datatype Command =
    | ExitUnlessInterface(iface: string)
    | DeleteJump(iface: string)
    | FlushChain
    | DeleteChain
    | NewChain
    | AppendMark(mac: string, mark: int)
    | AppendJump(iface: string)
    | DeleteQdisc(iface: string)
    | AddQdisc(iface: string, default: int)
    | AddClass(iface: string, parent: int, id: int, mbit: int)
    | AddFilter(iface: string, mark: int, flow: int)

  const CLASS_ID_START := 10
  const CLASS_ID_MAX := 245
  const ROOT := 0
  const TOP_CLASS := 1
  const DEFAULT_CLASS := 30
  const LINE_RATE := 1000

  function Prologue(iface: string): seq<Command> {
    [ExitUnlessInterface(iface), DeleteJump(iface), FlushChain, DeleteChain, NewChain]
  }

  function Marks(macs: seq<string>): seq<Command> {
    if macs == [] then []
    else
      var rank := |macs| - 1;
      Marks(macs[..rank])
      + if CLASS_ID_START + rank > CLASS_ID_MAX then [] else [AppendMark(macs[rank], CLASS_ID_START + rank)]
  }

  function Shaping(iface: string): seq<Command> {
    [AppendJump(iface), DeleteQdisc(iface), AddQdisc(iface, DEFAULT_CLASS),
     AddClass(iface, ROOT, TOP_CLASS, LINE_RATE), AddClass(iface, TOP_CLASS, DEFAULT_CLASS, LINE_RATE)]
  }

  function Classes(iface: string, macs: seq<string>, limits: map<string, int>): seq<Command>
    requires forall m <- macs :: m in limits
  {
    if macs == [] then []
    else
      var rank := |macs| - 1;
      var id := CLASS_ID_START + rank;
      Classes(iface, macs[..rank], limits)
      + if id > CLASS_ID_MAX then []
        else [AddClass(iface, TOP_CLASS, id, limits[macs[rank]]), AddFilter(iface, id, id)]
  }

  function Program(iface: string, macs: seq<string>, limits: map<string, int>): seq<Command>
    requires forall m <- macs :: m in limits
  {
    Prologue(iface) + Marks(macs) + Shaping(iface) + Classes(iface, macs, limits)
  }

  /** `macs` is the table's key set in the order in which `sort.Strings` puts it. */
  ghost predicate SortedKeys(macs: seq<string>, limits: map<string, int>) {
    Ascending(macs) && forall m :: m in macs <==> m in limits
  }

  ghost predicate ScriptFor(script: seq<Command>, iface: string, limits: map<string, int>) {
    exists macs :: SortedKeys(macs, limits) && script == Program(iface, macs, limits)
  }

  method InsertSorted(sorted: seq<string>, mac: string) returns (r: seq<string>)
    requires Ascending(sorted) && mac !in sorted
    ensures Ascending(r) && forall m :: m in r <==> m in sorted || m == mac
  {
    hide Less;
    var i := 0;
    while i < |sorted| && Less(sorted[i], mac)
      invariant 0 <= i <= |sorted|
      invariant forall j | 0 <= j < i :: Less(sorted[j], mac)
    {
      i := i + 1;
    }
    r := sorted[..i] + [mac] + sorted[i..];
    forall j | i <= j < |sorted| ensures Less(mac, sorted[j]) {
      LessTotal(mac, sorted[i]);
      if i < j {
        LessTrans(mac, sorted[i], sorted[j]);
      }
    }
    Inserted(sorted, i, mac);
  }

  lemma Inserted(s: seq<string>, i: nat, x: string)
    requires i <= |s| && Ascending(s)
    requires (forall j | 0 <= j < i :: Less(s[j], x)) && forall j | i <= j < |s| :: Less(x, s[j])
    ensures var r := s[..i] + [x] + s[i..];
            Ascending(r) && forall y :: y in r <==> y in s || y == x
  {
    hide Less;
    assert s == s[..i] + s[i..];
  }

  /** The keys come out of the map in any order; sorting makes the order irrelevant. */
  method SortKeys(limits: map<string, int>) returns (macs: seq<string>)
    ensures SortedKeys(macs, limits)
  {
    var left := limits.Keys;
    macs := [];
    while left != {}
      invariant left <= limits.Keys
      invariant Ascending(macs) && forall m :: m in macs <==> m in limits && m !in left
      decreases left
    {
      var mac :| mac in left;
      macs := InsertSorted(macs, mac);
      left := left - {mac};
    }
  }

  /** `generateBandwidthScript`, as the list of the commands it writes. */
  method GenerateBandwidthScript(iface: string, limits: map<string, int>) returns (script: seq<Command>)
    ensures ScriptFor(script, iface, limits)
  {
    hide Marks, Classes;
    var macs := SortKeys(limits);
    NothingYet(iface, limits);
    script := [ExitUnlessInterface(iface), DeleteJump(iface), FlushChain, DeleteChain, NewChain];
    var classID := CLASS_ID_START;
    var i := 0;
    while i < |macs|
      invariant 0 <= i <= |macs| && classID == CLASS_ID_START + i
      invariant script == Prologue(iface) + Marks(macs[..i])
    {
      if classID > CLASS_ID_MAX {
        break;
      }
      script := script + [AppendMark(macs[i], classID)];
      MarksNext(macs, i);
      classID := classID + 1;
      i := i + 1;
    }
    MarksCapped(macs, i);
    assert script == Prologue(iface) + Marks(macs);
    script := script + [AppendJump(iface), DeleteQdisc(iface), AddQdisc(iface, 30),
                        AddClass(iface, ROOT, 1, 1000), AddClass(iface, 1, 30, 1000)];
    classID := CLASS_ID_START;
    i := 0;
    while i < |macs|
      invariant 0 <= i <= |macs| && classID == CLASS_ID_START + i
      invariant script == Prologue(iface) + Marks(macs) + Shaping(iface) + Classes(iface, macs[..i], limits)
    {
      if classID > CLASS_ID_MAX {
        break;
      }
      var mbps := limits[macs[i]];
      script := script + [AddClass(iface, 1, classID, mbps)];
      script := script + [AddFilter(iface, classID, classID)];
      ClassesNext(iface, macs, limits, i);
      classID := classID + 1;
      i := i + 1;
    }
    ClassesCapped(iface, macs, limits, i);
  }

  lemma NothingYet(iface: string, limits: map<string, int>)
    ensures Marks([]) == [] && Classes(iface, [], limits) == []
  {
  }

  lemma MarksNext(macs: seq<string>, i: nat)
    requires i < |macs| && CLASS_ID_START + i <= CLASS_ID_MAX
    ensures Marks(macs[..i + 1]) == Marks(macs[..i]) + [AppendMark(macs[i], CLASS_ID_START + i)]
  {
    assert macs[..i + 1][..i] == macs[..i];
  }

  lemma ClassesNext(iface: string, macs: seq<string>, limits: map<string, int>, i: nat)
    requires forall m <- macs :: m in limits
    requires i < |macs| && CLASS_ID_START + i <= CLASS_ID_MAX
    ensures Classes(iface, macs[..i + 1], limits)
         == Classes(iface, macs[..i], limits)
            + [AddClass(iface, TOP_CLASS, CLASS_ID_START + i, limits[macs[i]])]
            + [AddFilter(iface, CLASS_ID_START + i, CLASS_ID_START + i)]
  {
    assert macs[..i + 1][..i] == macs[..i];
  }

  lemma {:induction false} MarksCapped(macs: seq<string>, n: nat)
    requires n <= |macs| && (n == |macs| || CLASS_ID_START + n > CLASS_ID_MAX)
    ensures Marks(macs) == Marks(macs[..n])
  {
    if n < |macs| {
      var init := macs[..|macs| - 1];
      assert init[..n] == macs[..n];
      MarksCapped(init, n);
    } else {
      assert macs[..n] == macs;
    }
  }

  lemma {:induction false} ClassesCapped(iface: string, macs: seq<string>, limits: map<string, int>, n: nat)
    requires forall m <- macs :: m in limits
    requires n <= |macs| && (n == |macs| || CLASS_ID_START + n > CLASS_ID_MAX)
    ensures Classes(iface, macs, limits) == Classes(iface, macs[..n], limits)
  {
    if n < |macs| {
      var init := macs[..|macs| - 1];
      assert init[..n] == macs[..n];
      ClassesCapped(iface, init, limits, n);
    } else {
      assert macs[..n] == macs;
    }
  }
}
