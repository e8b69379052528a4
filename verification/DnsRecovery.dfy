/** The plain upstream servers can always be recovered: over any sequence of switch operations and
    page edits, each of which may stop after any of its writes. */
module DnsRecovery {
  import opened Seqs
  import opened Text
  import opened DnsmasqConf
  import opened DnsmasqViews
  import opened EncryptedDns

  // ----- the stash is a faithful encoding

  /** An address the comma-separated stash can carry. */
  predicate Plain(addr: string) {
    addr != "" && Trimmed(addr) && ',' !in addr
  }

  lemma {:induction false} PartsAreRestored(parts: seq<string>)
    requires forall p <- parts :: Plain(p)
    ensures FlatMap(PartOf, parts) == parts
  {
    if parts != [] {
      var init, last := parts[..|parts| - 1], parts[|parts| - 1];
      PartsAreRestored(init);
      assert Plain(last);
      TrimmedStays(last);
    }
  }

  lemma RestoredIsPlain(stashed: string)
    ensures Restore(stashed) != [] && forall a <- Restore(stashed) :: Plain(a)
  {
    var parts := Split(stashed, ',');
    SplitParts(stashed, ',');
    FlatMapFrom(PartOf, parts);
    forall a <- FlatMap(PartOf, parts) ensures Plain(a) {
      var p :| p in parts && a in PartOf(p);
      TrimIsTrimmed(p);
      TrimWithin(p);
    }
    DefaultsArePlain();
  }

  lemma DefaultsArePlain()
    ensures forall a <- DEFAULT_UPSTREAMS :: Plain(a)
  {
    assert Plain("1.1.1.1") && Plain("8.8.8.8");
  }

  /** Restoring a fresh stash gives back the non-stub servers exactly when every one of them is
      trimmed, non-empty and free of commas. Without any it gives what the old stash gave. */
  lemma StashRoundTrip(current: seq<string>, previous: string)
    ensures Filter(NotStub, current) != [] ==>
              (Restore(Stash(current, previous)) == Filter(NotStub, current)
               <==> forall a <- Filter(NotStub, current) :: Plain(a))
    ensures Filter(NotStub, current) == [] ==> Restore(Stash(current, previous)) == Restore(previous)
  {
    var addrs := Filter(NotStub, current);
    RestoredIsPlain(Stash(current, previous));
    if addrs != [] && forall a <- addrs :: Plain(a) {
      SplitJoin(addrs, ',');
      PartsAreRestored(addrs);
    }
  }

  // ----- runs

  predicate Upstream(addr: string) {
    Plain(addr) && NotStub(addr) && OneLine(addr)
  }

  predicate Upstreams(p: seq<string>) {
    p != [] && forall a <- p :: Upstream(a)
  }

  /** One request of the user interface. `cut` is the number of writes that take effect. */
  datatype Action =
    | ToggleOn(f: Form, readOk: bool, stubby: bool, dnscrypt: bool, cut: nat)
    | ToggleOff(cut: nat)
    | Configure(f: Form, readOk: bool, stubby: bool, dnscrypt: bool, cut: nat)
    | PageEdit(e: Edit)

  function Step(s: State, a: Action): State {
    match a
    case ToggleOn(f, readOk, stubby, dnscrypt, cut) =>
      if MayToggleOn(f, stubby, dnscrypt)
      then After(s, EnablePlan(s, FormConfig(f, false, ""), readOk, stubby, dnscrypt), cut)
      else s
    case ToggleOff(cut) => After(s, DisablePlan(s), cut)
    case Configure(f, readOk, stubby, dnscrypt, cut) =>
      var cfg := FormConfig(f, s.row.enabled, s.row.stashedUpstreams);
      if s.row.enabled then After(s, EnablePlan(s, cfg, readOk, stubby, dnscrypt), cut)
      else if cut > 0 then s.(row := cfg) else s
    case PageEdit(e) => s.(conf := Do(s.conf, e))
  }

  /** The upstreams the user last chose. */
  function Chosen(p: seq<string>, a: Action): seq<string> {
    if a.PageEdit? && a.e.SetServers? then a.e.servers else p
  }

  predicate InFile(p: seq<string>, s: State) {
    Filter(NotStub, Servers(s.conf)) == p
  }

  predicate InStash(p: seq<string>, s: State) {
    Restore(s.row.stashedUpstreams) == p
  }

  /** Nothing the user chose is lost: the upstreams are in the file or in the stash. */
  predicate Recoverable(p: seq<string>, s: State) {
    InFile(p, s) || InStash(p, s)
  }

  /** While encryption is on, the file holds the chosen upstreams beside the stubs, or none and the stash
      holds them; while it is off they are exactly the servers of the file. */
  predicate Kept(p: seq<string>, s: State) {
    && Terminated(s.conf)
    && Upstreams(p)
    && if s.row.enabled
       then InFile(p, s) || (Filter(NotStub, Servers(s.conf)) == [] && InStash(p, s))
       else Servers(s.conf) == p
  }

  /** The stash is up to date as well. */
  predicate Inv(p: seq<string>, s: State) {
    Kept(p, s) && (s.row.enabled ==> InStash(p, s))
  }

  /** What keeps the chosen upstreams: a switch-on has to find them in the file, a re-apply in the file or
      in the stash, a switch-off in the stash. The pages may edit anything at any time; the DNS page does
      not ask whether encryption is on. */
  predicate Safe(p: seq<string>, s: State, a: Action) {
    match a
    case ToggleOn(_, readOk, _, _, _) => (readOk && InFile(p, s)) || p == DEFAULT_UPSTREAMS
    case ToggleOff(_) => InStash(p, s)
    case Configure(_, readOk, _, _, _) => s.row.enabled ==> (readOk && InFile(p, s)) || InStash(p, s)
    case PageEdit(e) => ValidEdit(e) && !e.SetStrict? && (e.SetServers? ==> Upstreams(e.servers))
  }

  lemma UpstreamsUnfiltered(p: seq<string>)
    requires Upstreams(p)
    ensures Filter(NotStub, p) == p
  {
    FilterAll(NotStub, p);
  }

  lemma KeptIsRecoverable(p: seq<string>, s: State)
    requires Kept(p, s)
    ensures Recoverable(p, s)
    ensures !s.row.enabled ==> InFile(p, s)
  {
    if !s.row.enabled {
      UpstreamsUnfiltered(p);
    }
  }

  lemma NonStubsOfEncrypted(cfg: DoHConfig, stubby: bool, dnscrypt: bool)
    requires Filter(NotStub, Restore(cfg.stashedUpstreams)) == Restore(cfg.stashedUpstreams)
    ensures Filter(NotStub, EncryptedServers(cfg, stubby, dnscrypt))
         == if cfg.fallbackToPlain then Restore(cfg.stashedUpstreams) else []
  {
    hide Restore, Filter;
    var stubs := (if stubby then [STUBBY_LISTEN] else []) + (if dnscrypt then [DNSCRYPT_LISTEN] else []);
    var plain := if cfg.fallbackToPlain then Restore(cfg.stashedUpstreams) else [];
    FilterConcat(NotStub, stubs, plain);
    FilterNone(NotStub, stubs);
    assert EncryptedServers(cfg, stubby, dnscrypt) == stubs + plain;
  }

  lemma EncryptedAreValues(cfg: DoHConfig, stubby: bool, dnscrypt: bool)
    requires forall a <- Restore(cfg.stashedUpstreams) :: Value(a)
    ensures ValidEdit(SetServers(EncryptedServers(cfg, stubby, dnscrypt)))
  {
    assert Value(STUBBY_LISTEN) && Value(DNSCRYPT_LISTEN);
  }

  /** The two file writes of switching on leave exactly the encrypted servers and strict order. */
  lemma EnabledFile(conf: string, servers: seq<string>)
    requires ValidEdit(SetServers(servers))
    ensures var conf1 := WithServers(conf, servers);
            && ViewOf(conf1) == ViewOf(conf).(servers := servers) && Terminated(conf1)
            && ViewOf(WithStrict(conf1, true)) == ViewOf(conf).(servers := servers, strict := true)
            && Terminated(WithStrict(conf1, true))
  {
    var conf1 := Do(conf, SetServers(servers));
    EditRefines(conf, SetServers(servers));
    EditRefines(conf1, SetStrict(true));
  }

  lemma DisabledFile(conf: string, servers: seq<string>)
    requires ValidEdit(SetServers(servers))
    ensures var conf1 := WithStrict(conf, false);
            && ViewOf(conf1) == ViewOf(conf).(strict := false) && Terminated(conf1)
            && ViewOf(WithServers(conf1, servers)) == ViewOf(conf).(servers := servers, strict := false)
            && Terminated(WithServers(conf1, servers))
  {
    var conf1 := Do(conf, SetStrict(false));
    EditRefines(conf, SetStrict(false));
    EditRefines(conf1, SetServers(servers));
  }

  /** The switch shares the file with the other pages and leaves their fields alone. */
  predicate Untouched(before: string, after: string) {
    var v, v' := ViewOf(before), ViewOf(after);
    v'.entries == v.entries && v'.dhcp == v.dhcp && v'.rest == v.rest
  }

  /** Where a completed switch-on leads: first DNS over TLS, then DNS over HTTPS, then the plain
      upstreams if the user wants the fallback, asked in that order. */
  predicate EncryptedState(p: seq<string>, cfg: DoHConfig, stubby: bool, dnscrypt: bool, s: State) {
    && s.row.enabled && StrictOrder(s.conf)
    && Servers(s.conf) == (if stubby then [STUBBY_LISTEN] else []) + (if dnscrypt then [DNSCRYPT_LISTEN] else [])
                          + (if cfg.fallbackToPlain then p else [])
  }

  /** Applying a configuration whose stash will decode to `p` keeps the upstreams at every cut, and once
      the row is written the stash is up to date. */
  lemma EnableKeeps(p: seq<string>, s: State, cfg: DoHConfig, readOk: bool, stubby: bool, dnscrypt: bool, cut: nat)
    requires Kept(p, s)
    requires Restore(Stash(if readOk then Servers(s.conf) else [], cfg.stashedUpstreams)) == p
    ensures Kept(p, After(s, EnablePlan(s, cfg, readOk, stubby, dnscrypt), cut))
    ensures cut >= 1 || Inv(p, s) ==> Inv(p, After(s, EnablePlan(s, cfg, readOk, stubby, dnscrypt), cut))
    ensures Untouched(s.conf, After(s, EnablePlan(s, cfg, readOk, stubby, dnscrypt), cut).conf)
    ensures cut >= 3 ==>
              EncryptedState(p, cfg, stubby, dnscrypt, After(s, EnablePlan(s, cfg, readOk, stubby, dnscrypt), cut))
  {
    hide Filter, FlatMap, Split, WithServers, WithStrict, Stash, Restore, ScanLines, After;
    var plan := EnablePlan(s, cfg, readOk, stubby, dnscrypt);
    AfterThree(s, plan);
    var row := plan[0].row;
    EncryptedAreValues(row, stubby, dnscrypt);
    EnabledFile(s.conf, EncryptedServers(row, stubby, dnscrypt));
    UpstreamsUnfiltered(p);
    NonStubsOfEncrypted(row, stubby, dnscrypt);
  }

  /** What a switch-on or a re-apply is about to stash. */
  lemma StashesChosen(p: seq<string>, s: State, readOk: bool, previous: string)
    requires Upstreams(p)
    ensures readOk && InFile(p, s) ==> Restore(Stash(if readOk then Servers(s.conf) else [], previous)) == p
    ensures !readOk || InFile([], s) ==> Stash(if readOk then Servers(s.conf) else [], previous) == previous
  {
    if readOk && InFile(p, s) {
      StashRoundTrip(Servers(s.conf), previous);
    }
  }

  lemma DisableKeeps(p: seq<string>, s: State, cut: nat)
    requires Kept(p, s) && InStash(p, s)
    ensures Kept(p, After(s, DisablePlan(s), cut)) && InStash(p, After(s, DisablePlan(s), cut))
    ensures Untouched(s.conf, After(s, DisablePlan(s), cut).conf)
    ensures cut >= 3 ==>
              var s' := After(s, DisablePlan(s), cut);
              !s'.row.enabled && Servers(s'.conf) == p && !StrictOrder(s'.conf)
  {
    hide Filter, FlatMap, Split, WithServers, WithStrict, Restore, ScanLines, After;
    AfterThree(s, DisablePlan(s));
    DisabledFile(s.conf, p);
    UpstreamsUnfiltered(p);
  }

  lemma SafeEnable(p: seq<string>, s: State, f: Form, readOk: bool)
    requires Kept(p, s) && ((readOk && InFile(p, s)) || p == DEFAULT_UPSTREAMS)
    ensures Restore(Stash(if readOk then Servers(s.conf) else [], "")) == p
  {
    hide Restore, Stash, Servers, Filter;
    StashesChosen(p, s, readOk, "");
    KeptIsRecoverable(p, s);
    RestoreNothing();
  }

  lemma SafeReapply(p: seq<string>, s: State, readOk: bool)
    requires Kept(p, s) && s.row.enabled && ((readOk && InFile(p, s)) || InStash(p, s))
    ensures Restore(Stash(if readOk then Servers(s.conf) else [], s.row.stashedUpstreams)) == p
  {
    hide Restore, Stash, Servers, Filter;
    StashesChosen(p, s, readOk, s.row.stashedUpstreams);
  }

  /** Every safe request, stopped after any number of its writes, keeps the upstreams; and it keeps the
      stash up to date unless the DNS page replaces the upstreams behind it. */
  lemma StepKeeps(p: seq<string>, s: State, a: Action)
    requires Kept(p, s) && Safe(p, s, a)
    ensures Kept(Chosen(p, a), Step(s, a))
    ensures Inv(p, s) && !(a.PageEdit? && a.e.SetServers? && s.row.enabled) ==> Inv(Chosen(p, a), Step(s, a))
    ensures !a.PageEdit? ==> Untouched(s.conf, Step(s, a).conf)
  {
    hide Filter, FlatMap, Servers, Restore, Stash, After, EnablePlan, DisablePlan, Do;
    match a
    case ToggleOn(f, readOk, stubby, dnscrypt, cut) =>
      SafeEnable(p, s, f, readOk);
      EnableKeeps(p, s, FormConfig(f, false, ""), readOk, stubby, dnscrypt, cut);
    case ToggleOff(cut) =>
      DisableKeeps(p, s, cut);
    case Configure(f, readOk, stubby, dnscrypt, cut) =>
      if s.row.enabled {
        SafeReapply(p, s, readOk);
        EnableKeeps(p, s, FormConfig(f, true, s.row.stashedUpstreams), readOk, stubby, dnscrypt, cut);
      }
    case PageEdit(e) =>
      PageKeeps(p, s, e);
  }

  lemma PageKeeps(p: seq<string>, s: State, e: Edit)
    requires Kept(p, s) && Safe(p, s, PageEdit(e))
    ensures Kept(Chosen(p, PageEdit(e)), Step(s, PageEdit(e)))
    ensures Inv(p, s) && !(e.SetServers? && s.row.enabled) ==> Inv(Chosen(p, PageEdit(e)), Step(s, PageEdit(e)))
  {
    hide Filter, FlatMap, Servers, Restore, Do;
    EditRefines(s.conf, e);
    if e.SetServers? {
      UpstreamsUnfiltered(e.servers);
    }
  }

  function Run(s: State, actions: seq<Action>): State {
    if actions == [] then s else Step(Run(s, actions[..|actions| - 1]), actions[|actions| - 1])
  }

  function ChosenAfter(p: seq<string>, actions: seq<Action>): seq<string> {
    if actions == [] then p
    else Chosen(ChosenAfter(p, actions[..|actions| - 1]), actions[|actions| - 1])
  }

  predicate SafeRun(p: seq<string>, s: State, actions: seq<Action>) {
    forall i | 0 <= i < |actions| :: Safe(ChosenAfter(p, actions[..i]), Run(s, actions[..i]), actions[i])
  }

  lemma SafeRunInit(p: seq<string>, s: State, actions: seq<Action>)
    requires SafeRun(p, s, actions) && actions != []
    ensures var init := actions[..|actions| - 1];
            SafeRun(p, s, init) && Safe(ChosenAfter(p, init), Run(s, init), actions[|actions| - 1])
  {
    hide Safe, Run, ChosenAfter;
    var init := actions[..|actions| - 1];
    assert forall i | 0 <= i < |init| :: init[..i] == actions[..i];
  }

  /** In every state that can be reached from plain upstreams by safe requests, each of them allowed to
      stop after any of its writes, the upstreams the user last chose are recoverable; and while
      encryption is off they are exactly the servers of the file. */
  lemma {:induction false} AlwaysRecoverable(p: seq<string>, s: State, actions: seq<Action>)
    requires Terminated(s.conf) && Upstreams(p) && Servers(s.conf) == p && !s.row.enabled
    requires SafeRun(p, s, actions)
    ensures var q, t := ChosenAfter(p, actions), Run(s, actions);
            Kept(q, t) && Recoverable(q, t) && (!t.row.enabled ==> Servers(t.conf) == q)
  {
    hide SafeRun, Safe, Servers, Upstreams;
    if actions != [] {
      var init, last := actions[..|actions| - 1], actions[|actions| - 1];
      SafeRunInit(p, s, actions);
      AlwaysRecoverable(p, s, init);
      StepKeeps(ChosenAfter(p, init), Run(s, init), last);
    }
    KeptIsRecoverable(ChosenAfter(p, actions), Run(s, actions));
  }

  // ----- the requests a careful user makes

  /** Conditions a user can see: switching on while it is off and the file can be read, switching off
      while it is on, and changing the upstreams on the DNS page only while encryption is off. */
  predicate Allowed(s: State, a: Action) {
    match a
    case ToggleOn(_, readOk, _, _, _) => !s.row.enabled && readOk
    case ToggleOff(_) => s.row.enabled
    case Configure(_, _, _, _, _) => true
    case PageEdit(e) =>
      && ValidEdit(e) && !e.SetStrict?
      && (e.SetServers? ==> !s.row.enabled && Upstreams(e.servers))
  }

  predicate AllowedRun(s: State, actions: seq<Action>) {
    forall i | 0 <= i < |actions| :: Allowed(Run(s, actions[..i]), actions[i])
  }

  lemma AllowedIsSafe(p: seq<string>, s: State, a: Action)
    requires Inv(p, s) && Allowed(s, a)
    ensures Safe(p, s, a)
  {
    KeptIsRecoverable(p, s);
  }

  lemma AllowedRunInit(s: State, actions: seq<Action>)
    requires AllowedRun(s, actions) && actions != []
    ensures AllowedRun(s, actions[..|actions| - 1]) && Allowed(Run(s, actions[..|actions| - 1]), actions[|actions| - 1])
  {
    hide Allowed, Run;
    var init := actions[..|actions| - 1];
    assert forall i | 0 <= i < |init| :: init[..i] == actions[..i];
  }

  /** Such requests are always safe, and keep the stash up to date. */
  lemma {:induction false} CarefulIsSafe(p: seq<string>, s: State, actions: seq<Action>)
    requires Terminated(s.conf) && Upstreams(p) && Servers(s.conf) == p && !s.row.enabled
    requires AllowedRun(s, actions)
    ensures SafeRun(p, s, actions) && Inv(ChosenAfter(p, actions), Run(s, actions))
  {
    hide Safe, Servers, Upstreams, AllowedRun, Step, Allowed;
    if actions != [] {
      var init, last := actions[..|actions| - 1], actions[|actions| - 1];
      AllowedRunInit(s, actions);
      CarefulIsSafe(p, s, init);
      CarefulStep(ChosenAfter(p, init), Run(s, init), last);
      assert forall i | 0 <= i < |init| :: init[..i] == actions[..i];
    }
  }

  lemma CarefulStep(p: seq<string>, s: State, a: Action)
    requires Inv(p, s) && Allowed(s, a)
    ensures Safe(p, s, a) && Inv(Chosen(p, a), Step(s, a))
  {
    hide Safe, Step, Chosen, Servers;
    AllowedIsSafe(p, s, a);
    StepKeeps(p, s, a);
  }

  /** From every such state in which encryption is on, one completed switch-off leaves exactly the
      chosen upstreams and no strict-order directive. */
  lemma SwitchOffRestores(p: seq<string>, s: State, actions: seq<Action>, cut: nat)
    requires Terminated(s.conf) && Upstreams(p) && Servers(s.conf) == p && !s.row.enabled
    requires AllowedRun(s, actions) && Run(s, actions).row.enabled && cut >= 3
    ensures var t := Step(Run(s, actions), ToggleOff(cut));
            && Servers(t.conf) == ChosenAfter(p, actions)
            && !StrictOrder(t.conf)
            && !t.row.enabled
  {
    CarefulIsSafe(p, s, actions);
    DisableKeeps(ChosenAfter(p, actions), Run(s, actions), cut);
  }

  /** In particular a completed switch-on followed by a completed switch-off gives the servers back. */
  lemma OnThenOff(p: seq<string>, s: State, f: Form, stubby: bool, dnscrypt: bool)
    requires Terminated(s.conf) && Upstreams(p) && Servers(s.conf) == p && !s.row.enabled
    requires MayToggleOn(f, stubby, dnscrypt)
    ensures var on := ToggleOn(f, true, stubby, dnscrypt, 3);
            && AllowedRun(s, [on]) && Run(s, [on]).row.enabled
            && Servers(Step(Run(s, [on]), ToggleOff(3)).conf) == p
  {
    hide Servers, Upstreams, WithServers, WithStrict, Stash, Restore, EncryptedServers, MayToggleOn;
    var on := ToggleOn(f, true, stubby, dnscrypt, 3);
    assert [on][..0] == [];
    AfterThree(s, EnablePlan(s, FormConfig(f, false, ""), true, stubby, dnscrypt));
    SwitchOffRestores(p, s, [on], 3);
  }

  // ----- every completed request that is not safe loses the upstreams

  /** The stash decodes to plain upstreams, as an empty one does. */
  predicate StashIsPlain(s: State) {
    OneLine(s.row.stashedUpstreams) && Upstreams(Restore(s.row.stashedUpstreams))
  }

  /** Switching on, even twice in a row or without being able to read the file: as soon as the row has
      been written the upstreams have to be in the file, and as soon as the servers have been overwritten
      they have to have been read from it, unless they happen to be the built-in ones. */
  lemma ToggleOnExact(p: seq<string>, s: State, f: Form, readOk: bool, stubby: bool, dnscrypt: bool, cut: nat)
    requires Kept(p, s) && MayToggleOn(f, stubby, dnscrypt) && cut >= 1
    ensures Recoverable(p, Step(s, ToggleOn(f, readOk, stubby, dnscrypt, cut)))
       <==> (InFile(p, s) && (readOk || cut == 1)) || p == DEFAULT_UPSTREAMS
  {
    hide Filter, FlatMap, Split, WithServers, WithStrict, Stash, Restore, ScanLines, After, Servers, EnablePlan;
    var cfg := FormConfig(f, false, "");
    var action := ToggleOn(f, readOk, stubby, dnscrypt, cut);
    if (readOk && InFile(p, s)) || p == DEFAULT_UPSTREAMS {
      StepKeeps(p, s, action);
      KeptIsRecoverable(p, Step(s, action));
    } else {
      StashesChosen(p, s, readOk, "");
      KeptIsRecoverable(p, s);
      if !InFile(p, s) {
        NothingInFile(p, s);
      }
      RestoreNothing();
      DefaultsAreUpstreams();
      if cut == 1 {
        RowAlone(s, cfg, readOk, stubby, dnscrypt);
      } else {
        OverwrittenServers(s, cfg, readOk, stubby, dnscrypt, cut);
      }
    }
  }

  lemma NothingInFile(p: seq<string>, s: State)
    requires Kept(p, s) && !InFile(p, s)
    ensures InFile([], s)
  {
    KeptIsRecoverable(p, s);
  }

  lemma RowAlone(s: State, cfg: DoHConfig, readOk: bool, stubby: bool, dnscrypt: bool)
    ensures var t := After(s, EnablePlan(s, cfg, readOk, stubby, dnscrypt), 1);
            && t.row.stashedUpstreams == Stash(if readOk then Servers(s.conf) else [], cfg.stashedUpstreams)
            && t.conf == s.conf
  {
    hide WithServers, WithStrict, Stash, Servers, EncryptedServers;
    AfterThree(s, EnablePlan(s, cfg, readOk, stubby, dnscrypt));
  }

  lemma RestoreNothing()
    ensures Restore("") == DEFAULT_UPSTREAMS
  {
    SplitOne("", ',');
    assert FlatMap(PartOf, [""]) == [] + PartOf("");
  }

  /** Overwriting the servers leaves what the new stash decodes to, and nothing else. */
  lemma OverwrittenServers(s: State, cfg: DoHConfig, readOk: bool, stubby: bool, dnscrypt: bool, cut: nat)
    requires cut >= 2
    requires Upstreams(Restore(Stash(if readOk then Servers(s.conf) else [], cfg.stashedUpstreams)))
    ensures var t := After(s, EnablePlan(s, cfg, readOk, stubby, dnscrypt), cut);
            && t.row.enabled
            && t.row.stashedUpstreams == Stash(if readOk then Servers(s.conf) else [], cfg.stashedUpstreams)
            && Filter(NotStub, Servers(t.conf)) == if cfg.fallbackToPlain then Restore(t.row.stashedUpstreams) else []
  {
    hide Filter, FlatMap, Split, WithServers, WithStrict, Stash, Restore, EncryptedServers, ScanLines, After;
    var plan := EnablePlan(s, cfg, readOk, stubby, dnscrypt);
    AfterThree(s, plan);
    UpstreamsUnfiltered(Restore(plan[0].row.stashedUpstreams));
    EncryptedAreValues(plan[0].row, stubby, dnscrypt);
    EnabledFile(s.conf, EncryptedServers(plan[0].row, stubby, dnscrypt));
    NonStubsOfEncrypted(plan[0].row, stubby, dnscrypt);
  }

  lemma DefaultsAreUpstreams()
    ensures Upstreams(DEFAULT_UPSTREAMS)
  {
    assert Upstream("1.1.1.1") && Upstream("8.8.8.8");
  }

  lemma RestoredIsOneLine(stashed: string)
    requires OneLine(stashed)
    ensures forall a <- Restore(stashed) :: Value(a)
  {
    var parts := Split(stashed, ',');
    SplitKeepsOut(stashed, ',', '\n');
    RestoredIsPlain(stashed);
    FlatMapFrom(PartOf, parts);
    forall a <- FlatMap(PartOf, parts) ensures OneLine(a) {
      var p :| p in parts && a in PartOf(p);
      TrimWithin(p);
    }
    DefaultsAreUpstreams();
  }

  lemma {:induction false} SplitKeepsOut(s: string, sep: char, c: char)
    requires c !in s
    ensures forall p <- Split(s, sep) :: c !in p
    decreases |s|
  {
    var i := CutAt(s, sep);
    if i < |s| {
      SplitKeepsOut(s[i + 1..], sep, c);
    }
  }

  /** `toggle` does not check that encryption is on before switching it off. A completed switch-off
      of a switch that is already off keeps the servers exactly when they are what the stash says. */
  lemma ToggleOffExact(s: State, cut: nat)
    requires !s.row.enabled && OneLine(s.row.stashedUpstreams) && cut >= 3
    ensures Servers(Step(s, ToggleOff(cut)).conf) == Servers(s.conf)
       <==> Restore(s.row.stashedUpstreams) == Servers(s.conf)
  {
    hide Filter, FlatMap, Split, WithServers, WithStrict, Restore, ScanLines, After;
    AfterThree(s, DisablePlan(s));
    RestoredIsOneLine(s.row.stashedUpstreams);
    DisabledFile(s.conf, Restore(s.row.stashedUpstreams));
  }

  /** A re-apply while encryption is on: once the servers have been overwritten the upstreams are
      recoverable exactly when they were read from the file or were in the stash already. */
  lemma ReapplyExact(p: seq<string>, s: State, f: Form, readOk: bool, stubby: bool, dnscrypt: bool, cut: nat)
    requires Kept(p, s) && s.row.enabled && StashIsPlain(s) && cut >= 2
    ensures Recoverable(p, Step(s, Configure(f, readOk, stubby, dnscrypt, cut)))
       <==> (readOk && InFile(p, s)) || InStash(p, s)
  {
    hide Filter, FlatMap, Split, WithServers, WithStrict, Stash, Restore, ScanLines, After, Servers, EnablePlan;
    var action := Configure(f, readOk, stubby, dnscrypt, cut);
    if (readOk && InFile(p, s)) || InStash(p, s) {
      StepKeeps(p, s, action);
      KeptIsRecoverable(p, Step(s, action));
    } else {
      StashesChosen(p, s, readOk, s.row.stashedUpstreams);
      OverwrittenServers(s, FormConfig(f, true, s.row.stashedUpstreams), readOk, stubby, dnscrypt, cut);
    }
  }

  /** A completed switch-off, of a switch that is on or off (`toggle` does not ask), leaves what the stash
      decodes to: the chosen upstreams exactly when these are in the stash. */
  lemma SwitchOffExact(p: seq<string>, s: State, cut: nat)
    requires Kept(p, s) && StashIsPlain(s) && cut >= 3
    ensures var t := Step(s, ToggleOff(cut));
            && !t.row.enabled && !StrictOrder(t.conf)
            && (Servers(t.conf) == p <==> InStash(p, s))
            && (Recoverable(p, t) <==> InStash(p, s))
  {
    hide Filter, FlatMap, Split, WithServers, WithStrict, Restore, ScanLines, After;
    AfterThree(s, DisablePlan(s));
    RestoredIsOneLine(s.row.stashedUpstreams);
    DisabledFile(s.conf, Restore(s.row.stashedUpstreams));
    UpstreamsUnfiltered(Restore(s.row.stashedUpstreams));
  }

  /** The stash stays plain over safe requests, so that the exact conditions apply in every state they
      reach. */
  lemma StashStaysPlain(p: seq<string>, s: State, a: Action)
    requires Kept(p, s) && StashIsPlain(s)
    ensures StashIsPlain(Step(s, a))
  {
    hide Filter, FlatMap, Split, WithServers, WithStrict, Stash, Restore, ScanLines, After, Servers, EnablePlan,
      DisablePlan;
    match a
    case ToggleOn(f, readOk, stubby, dnscrypt, cut) =>
      PlainToStash(p, s, readOk, "");
      RowOf(s, FormConfig(f, false, ""), readOk, stubby, dnscrypt, cut);
    case ToggleOff(cut) =>
      RowOfDisable(s, cut);
    case Configure(f, readOk, stubby, dnscrypt, cut) =>
      if s.row.enabled {
        PlainToStash(p, s, readOk, s.row.stashedUpstreams);
        RowOf(s, FormConfig(f, true, s.row.stashedUpstreams), readOk, stubby, dnscrypt, cut);
      }
    case PageEdit(e) =>
  }

  lemma PlainToStash(p: seq<string>, s: State, readOk: bool, previous: string)
    requires Kept(p, s) && ((OneLine(previous) && Upstreams(Restore(previous))) || previous == "")
    ensures var stash := Stash(if readOk then Servers(s.conf) else [], previous);
            OneLine(stash) && Upstreams(Restore(stash))
  {
    hide Restore, Servers, Filter;
    RestoreNothing();
    DefaultsAreUpstreams();
    StashesChosen(p, s, readOk, previous);
    KeptIsRecoverable(p, s);
    JoinedIsOneLine(p);
    if !InFile(p, s) {
      NothingInFile(p, s);
    }
  }

  lemma {:induction false} JoinedIsOneLine(p: seq<string>)
    requires forall a <- p :: OneLine(a)
    ensures OneLine(JoinBy(p, ','))
  {
    if |p| > 1 {
      JoinedIsOneLine(p[1..]);
      assert OneLine(p[0]);
    }
  }

  lemma RowOf(s: State, cfg: DoHConfig, readOk: bool, stubby: bool, dnscrypt: bool, cut: nat)
    ensures var t := After(s, EnablePlan(s, cfg, readOk, stubby, dnscrypt), cut);
            t.row.stashedUpstreams == if cut == 0 then s.row.stashedUpstreams
                                      else Stash(if readOk then Servers(s.conf) else [], cfg.stashedUpstreams)
  {
    hide WithServers, WithStrict, Stash, Servers, EncryptedServers, After;
    AfterThree(s, EnablePlan(s, cfg, readOk, stubby, dnscrypt));
  }

  lemma RowOfDisable(s: State, cut: nat)
    ensures After(s, DisablePlan(s), cut).row.stashedUpstreams == s.row.stashedUpstreams
  {
    hide WithServers, WithStrict, Restore, After;
    AfterThree(s, DisablePlan(s));
  }

  // ----- runs that lose upstreams

  /** Two completed switch-ons without the plain fallback: the second one finds only the stubs. */
  lemma SecondSwitchOnLoses(p: seq<string>, s: State, f: Form, stubby: bool, dnscrypt: bool)
    requires Terminated(s.conf) && Upstreams(p) && Servers(s.conf) == p && !s.row.enabled
    requires MayToggleOn(f, stubby, dnscrypt) && !f.fallback && p != DEFAULT_UPSTREAMS
    ensures var on := ToggleOn(f, true, stubby, dnscrypt, 3);
            !Recoverable(p, Step(Step(s, on), on))
  {
    hide Filter, Servers, After, EnablePlan, Restore, Upstreams, MayToggleOn;
    var on := ToggleOn(f, true, stubby, dnscrypt, 3);
    KeptIsRecoverable(p, s);
    StepKeeps(p, s, on);
    SafeEnable(p, s, f, true);
    OverwrittenServers(s, FormConfig(f, false, ""), true, stubby, dnscrypt, 3);
    UpstreamsNotEmpty(p);
    ToggleOnExact(p, Step(s, on), f, true, stubby, dnscrypt, 3);
  }

  lemma UpstreamsNotEmpty(p: seq<string>)
    requires Upstreams(p)
    ensures p != []
  {
  }

  /** A completed switch-off on a new router, where nothing was ever stashed. */
  lemma FirstSwitchOffReplaces(p: seq<string>, s: State)
    requires Terminated(s.conf) && Upstreams(p) && Servers(s.conf) == p && !s.row.enabled
    requires s.row.stashedUpstreams == "" && p != DEFAULT_UPSTREAMS
    ensures Servers(Step(s, ToggleOff(3)).conf) == DEFAULT_UPSTREAMS
    ensures !Recoverable(p, Step(s, ToggleOff(3)))
  {
    hide Servers, After, DisablePlan, Restore, Filter;
    RestoreNothing();
    DefaultsAreUpstreams();
    SwitchOffExact(p, s, 3);
    ToggleOffExact(s, 3);
    SwitchedOffServers(s, 3);
  }

  /** The DNS page used while encryption is on: what it sets is lost by a switch-off, exactly when the
      stash says otherwise, and is stashed by a re-apply that can read the file. */
  lemma PageWhileEncrypted(p: seq<string>, q: seq<string>, s: State, f: Form, stubby: bool, dnscrypt: bool, cut: nat)
    requires Inv(p, s) && s.row.enabled && StashIsPlain(s) && Upstreams(q) && cut >= 1
    ensures var edited := Step(s, PageEdit(SetServers(q)));
            && Kept(q, edited)
            && Servers(Step(edited, ToggleOff(3)).conf) == p
            && (Recoverable(q, Step(edited, ToggleOff(3))) <==> q == p)
            && Inv(q, Step(edited, Configure(f, true, stubby, dnscrypt, cut)))
  {
    hide Filter, Servers, After, DisablePlan, EnablePlan, Restore, Upstreams;
    var e := SetServers(q);
    var edited := Step(s, PageEdit(e));
    UpstreamsAreValid(q);
    StepKeeps(p, s, PageEdit(e));
    SwitchOffExact(q, edited, 3);
    SwitchedOffServers(edited, 3);
    FileOfEdited(q, s);
    SafeReapply(q, edited, true);
    EnableKeeps(q, edited, FormConfig(f, true, edited.row.stashedUpstreams), true, stubby, dnscrypt, cut);
  }

  lemma UpstreamsAreValid(q: seq<string>)
    requires Upstreams(q)
    ensures ValidEdit(SetServers(q))
  {
  }

  lemma FileOfEdited(q: seq<string>, s: State)
    requires Upstreams(q)
    ensures InFile(q, Step(s, PageEdit(SetServers(q))))
  {
    hide Servers, WithServers, Filter, Upstreams;
    UpstreamsAreValid(q);
    EditedServers(s.conf, q);
    UpstreamsUnfiltered(q);
  }

  lemma EditedServers(conf: string, q: seq<string>)
    requires ValidEdit(SetServers(q))
    ensures Servers(Do(conf, SetServers(q))) == q
  {
    hide Do, Servers, LocalEntries, DhcpConfig, StrictOrder, IsRest, Rows;
    EditRefines(conf, SetServers(q));
  }

  /** In every state, a completed switch-off leaves what the stash decodes to. */
  lemma SwitchedOffServers(s: State, cut: nat)
    requires OneLine(s.row.stashedUpstreams) && cut >= 3
    ensures Servers(Step(s, ToggleOff(cut)).conf) == Restore(s.row.stashedUpstreams)
  {
    hide Filter, FlatMap, Split, WithServers, WithStrict, Restore, ScanLines, After;
    AfterThree(s, DisablePlan(s));
    RestoredIsOneLine(s.row.stashedUpstreams);
    DisabledFile(s.conf, Restore(s.row.stashedUpstreams));
  }
}
