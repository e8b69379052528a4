/** Which choices of upstreams survive the switch. The DNS page accepts an empty list and stub addresses;
    the recovery theorems are about the others, and this module shows that no more can be promised. */
module DnsChoices {
  import opened Seqs
  import opened Text
  import opened DnsmasqConf
  import opened DnsmasqViews
  import opened DnsmasqInputs
  import opened EncryptedDns
  import opened DnsRecovery

  /** A completed switch-on, with the file readable, and a completed switch-off. */
  function OnAndOff(s: State, f: Form, stubby: bool, dnscrypt: bool): State {
    Step(Step(s, ToggleOn(f, true, stubby, dnscrypt, 3)), ToggleOff(3))
  }

  /** What comes back: the non-stub servers as the stash carries them, or the built-in ones. */
  lemma OnAndOffServers(s: State, f: Form, stubby: bool, dnscrypt: bool)
    requires MayToggleOn(f, stubby, dnscrypt)
    ensures Servers(OnAndOff(s, f, stubby, dnscrypt).conf) == Restore(Stash(Servers(s.conf), ""))
  {
    hide Servers, Restore, Stash, After, EnablePlan, DisablePlan, MayToggleOn;
    var on := ToggleOn(f, true, stubby, dnscrypt, 3);
    RowOf(s, FormConfig(f, false, ""), true, stubby, dnscrypt, 3);
    StashIsOneLine(s.conf, "");
    SwitchedOffServers(Step(s, on), 3);
  }

  lemma StashIsOneLine(conf: string, previous: string)
    requires OneLine(previous)
    ensures OneLine(Stash(Servers(conf), previous))
  {
    hide Servers, Filter;
    ServersAreValues(conf);
    JoinedIsOneLine(Filter(NotStub, Servers(conf)));
  }

  /** For every state of the row and the file: a switch-on and a switch-off give the servers back if and
      only if there are any, none is a stub address, and each is trimmed, not empty and free of commas. */
  lemma OnThenOffExact(s: State, f: Form, stubby: bool, dnscrypt: bool)
    requires MayToggleOn(f, stubby, dnscrypt)
    ensures Servers(OnAndOff(s, f, stubby, dnscrypt).conf) == Servers(s.conf) <==> Upstreams(Servers(s.conf))
  {
    hide Servers, Restore, Stash, OnAndOff, MayToggleOn;
    OnAndOffServers(s, f, stubby, dnscrypt);
    ServersAreValues(s.conf);
    RestoreNothing();
    RestoredExactly(Servers(s.conf), "");
  }

  lemma RestoredExactly(v: seq<string>, previous: string)
    requires (forall a <- v :: Value(a)) && Upstreams(Restore(previous))
    ensures Restore(Stash(v, previous)) == v <==> Upstreams(v)
  {
    hide Restore, Stash, Filter;
    StashRoundTrip(v, previous);
    RestoredIsPlain(Stash(v, previous));
    UpstreamsUnfiltered(Restore(previous));
    if Upstreams(v) {
      UpstreamsUnfiltered(v);
    }
  }

  /** The DNS page used while encryption is on, with any servers that the file can hold: a switch-off then
      leaves what the stash decodes to instead of them, and a re-apply and a switch-off give them back if
      and only if there are any, none is a stub address, and each is trimmed, not empty and free of commas. */
  lemma PageExact(s: State, q: seq<string>, f: Form, stubby: bool, dnscrypt: bool)
    requires s.row.enabled && StashIsPlain(s) && forall a <- q :: Value(a)
    ensures var edited := Step(s, PageEdit(SetServers(q)));
            && Servers(edited.conf) == q
            && Servers(Step(edited, ToggleOff(3)).conf) == Restore(s.row.stashedUpstreams)
            && (Servers(Step(Step(edited, Configure(f, true, stubby, dnscrypt, 3)), ToggleOff(3)).conf) == q
                <==> Upstreams(q))
  {
    hide Servers, Restore, Stash, After, EnablePlan, DisablePlan, Do, Value;
    var edited := Step(s, PageEdit(SetServers(q)));
    EditedServers(s.conf, q);
    SwitchedOffServers(edited, 3);
    RowOf(edited, FormConfig(f, true, s.row.stashedUpstreams), true, stubby, dnscrypt, 3);
    StashIsOneLine(edited.conf, s.row.stashedUpstreams);
    SwitchedOffServers(Step(edited, Configure(f, true, stubby, dnscrypt, 3)), 3);
    RestoredExactly(q, s.row.stashedUpstreams);
  }

  /** The DNS page sets no server at all, and the switch is turned on and off again: the built-in servers
      appear. */
  lemma EmptyChoiceLost(s: State, f: Form, stubby: bool, dnscrypt: bool)
    requires MayToggleOn(f, stubby, dnscrypt)
    ensures var edited := Step(s, PageEdit(SetServers([])));
            && Servers(edited.conf) == []
            && Servers(OnAndOff(edited, f, stubby, dnscrypt).conf) == DEFAULT_UPSTREAMS
  {
    hide Servers, Restore, Do, OnAndOff, MayToggleOn;
    var edited := Step(s, PageEdit(SetServers([])));
    EditedServers(s.conf, []);
    OnAndOffServers(edited, f, stubby, dnscrypt);
    RestoreNothing();
  }

  /** The DNS page sets a stub address behind another server: the stub address is gone. */
  lemma StubChoiceLost(s: State, addr: string, f: Form, stubby: bool, dnscrypt: bool)
    requires MayToggleOn(f, stubby, dnscrypt) && Upstream(addr)
    ensures var edited := Step(s, PageEdit(SetServers([addr, STUBBY_LISTEN])));
            && Servers(edited.conf) == [addr, STUBBY_LISTEN]
            && Servers(OnAndOff(edited, f, stubby, dnscrypt).conf) == [addr]
  {
    hide Servers, Restore, Stash, Do, OnAndOff, MayToggleOn, Upstream, ValidEdit;
    StubIsAccepted(addr);
    EditedServers(s.conf, [addr, STUBBY_LISTEN]);
    OnAndOffServers(Step(s, PageEdit(SetServers([addr, STUBBY_LISTEN]))), f, stubby, dnscrypt);
    StashWithoutStub(addr);
  }

  lemma StubIsAccepted(addr: string)
    requires Upstream(addr)
    ensures ValidEdit(SetServers([addr, STUBBY_LISTEN]))
  {
    assert Value(STUBBY_LISTEN);
  }

  lemma StashWithoutStub(addr: string)
    requires Upstream(addr)
    ensures Restore(Stash([addr, STUBBY_LISTEN], "")) == [addr]
  {
    hide Restore, Stash, Filter;
    FilterAppend(NotStub, [addr], STUBBY_LISTEN);
    FilterAppend(NotStub, [], addr);
    assert Filter(NotStub, []) == [] by {
      FilterNone(NotStub, []);
    }
    assert [] + [addr] == [addr] && [addr] + [STUBBY_LISTEN] == [addr, STUBBY_LISTEN];
    StashRoundTrip([addr, STUBBY_LISTEN], "");
  }

  /** The stash as the database holds it, and the built-in servers. */
  lemma StashFormat(a: string, b: string, previous: string)
    requires NotStub(a) && NotStub(b)
    ensures Stash([a, "127.0.0.1#5353", b, "127.0.0.1#5454"], previous) == a + "," + b
    ensures Restore("") == ["1.1.1.1", "8.8.8.8"]
  {
    hide Restore, Filter, NotStub;
    RestoreNothing();
    StubsAreStubs();
    FilterNone(NotStub, []);
    FilterAppend(NotStub, [], a);
    FilterAppend(NotStub, [a], STUBBY_LISTEN);
    FilterAppend(NotStub, [a, STUBBY_LISTEN], b);
    FilterAppend(NotStub, [a, STUBBY_LISTEN, b], DNSCRYPT_LISTEN);
    assert [] + [a] == [a] && [a] + [STUBBY_LISTEN] == [a, STUBBY_LISTEN];
    assert [a, STUBBY_LISTEN] + [b] == [a, STUBBY_LISTEN, b] && [a] + [b] == [a, b];
    assert [a, STUBBY_LISTEN, b] + [DNSCRYPT_LISTEN] == [a, STUBBY_LISTEN, b, DNSCRYPT_LISTEN];
    assert [a, b][1..] == [b];
    assert JoinBy([a, b], ',') == a + [','] + JoinBy([b], ',');
  }

  lemma StubsAreStubs()
    ensures !NotStub(STUBBY_LISTEN) && !NotStub(DNSCRYPT_LISTEN)
  {
  }
}
