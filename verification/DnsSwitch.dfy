/** The requests that switch encrypted DNS on and off and change its configuration: how far each of them
    gets, told by the calls that succeed (internal/system/doh.go and internal/handler/doh.go). */
module DnsSwitch {
  import opened Seqs
  import opened Text
  import opened DnsmasqConf
  import opened DnsmasqInputs
  import opened DnsmasqViews
  import opened EncryptedDns
  import opened DnsRecovery

  /** What the outside world does during one call: which reads and writes succeed, which stubs are
      installed, and whether writing the stub configurations and reloading dnsmasq succeed. */
  datatype World = World(
    statusOk: bool, readOk: bool, saveOk: bool, stubby: bool, stubbyConfOk: bool, dnscrypt: bool,
    dnscryptConfOk: bool, servers: IO, strict: IO, reloadOk: bool)

  /** How many of the three writes of switching on take effect. */
  function EnableReach(w: World): (cut: nat)
    ensures cut <= 3
  {
    if !w.saveOk then 0
    else if (w.stubby && !w.stubbyConfOk) || (w.dnscrypt && !w.dnscryptConfOk) then 1
    else if !w.servers.openOk || !w.servers.writeOk then 1
    else if !w.servers.reloadOk || !w.strict.openOk || !w.strict.writeOk then 2
    else 3
  }

  function DisableReach(w: World): (cut: nat)
    ensures cut <= 3
  {
    if !w.statusOk || !w.strict.openOk || !w.strict.writeOk then 0
    else if !w.servers.openOk || !w.servers.writeOk then 1
    else if !w.servers.reloadOk || !w.saveOk then 2
    else 3
  }

  // ----- what the counts of writes mean

  /** How far switching on gets, and what it leaves, told by the calls that succeed. */
  lemma EnableMeans(s: State, form: DoHConfig, w: World)
    ensures EnableReach(w) == 3 <==>
            && w.saveOk && (w.stubby ==> w.stubbyConfOk) && (w.dnscrypt ==> w.dnscryptConfOk)
            && w.servers.openOk && w.servers.writeOk && w.servers.reloadOk && w.strict.openOk && w.strict.writeOk
    ensures var t := After(s, EnablePlan(s, form, w.readOk, w.stubby, w.dnscrypt), EnableReach(w));
            var stash := Stash(if w.readOk then Servers(s.conf) else [], form.stashedUpstreams);
            && t.row == (if w.saveOk then form.(enabled := true, stashedUpstreams := stash) else s.row)
            && (if && w.saveOk && (w.stubby ==> w.stubbyConfOk) && (w.dnscrypt ==> w.dnscryptConfOk)
                   && w.servers.openOk && w.servers.writeOk
                then OneLine(form.stashedUpstreams) ==>
                       Servers(t.conf) == (if w.stubby then ["127.0.0.1#5353"] else [])
                                          + (if w.dnscrypt then ["127.0.0.1#5454"] else [])
                                          + (if form.fallbackToPlain then Restore(stash) else [])
                else t.conf == s.conf)
            && (EnableReach(w) == 3 ==> StrictOrder(t.conf))
  {
    hide WithServers, WithStrict, Stash, Restore, Servers, StrictOrder, After;
    var plan := EnablePlan(s, form, w.readOk, w.stubby, w.dnscrypt);
    AfterThree(s, plan);
    var row := plan[0].row;
    var servers := EncryptedServers(row, w.stubby, w.dnscrypt);
    StrictIsSet(WithServers(s.conf, servers));
    if OneLine(form.stashedUpstreams) {
      StashOneLine(s.conf, w.readOk, form.stashedUpstreams);
      RestoredIsOneLine(row.stashedUpstreams);
      EncryptedAreValues(row, w.stubby, w.dnscrypt);
      FileServers(s.conf, servers);
    }
  }

  /** The state after the writes that take effect. */
  lemma EnableWrites(s: State, form: DoHConfig, w: World)
    ensures var t := After(s, EnablePlan(s, form, w.readOk, w.stubby, w.dnscrypt), EnableReach(w));
            var stash := Stash(if w.readOk then Servers(s.conf) else [], form.stashedUpstreams);
            var row := form.(stashedUpstreams := stash, enabled := true);
            var conf := WithServers(s.conf, EncryptedServers(row, w.stubby, w.dnscrypt));
            if !w.saveOk then t == s
            else if (w.stubby && !w.stubbyConfOk) || (w.dnscrypt && !w.dnscryptConfOk) then t == State(row, s.conf)
            else if !w.servers.openOk || !w.servers.writeOk then t == State(row, s.conf)
            else if !w.servers.reloadOk || !w.strict.openOk || !w.strict.writeOk then t == State(row, conf)
            else t == State(row, WithStrict(conf, true))
  {
    hide WithServers, WithStrict, Stash, Servers, After, EncryptedServers;
    AfterThree(s, EnablePlan(s, form, w.readOk, w.stubby, w.dnscrypt));
  }

  lemma StashOneLine(conf: string, readOk: bool, previous: string)
    requires OneLine(previous)
    ensures OneLine(Stash(if readOk then Servers(conf) else [], previous))
  {
    hide Servers, Filter;
    ServersAreValues(conf);
    JoinedIsOneLine(Filter(NotStub, if readOk then Servers(conf) else []));
  }

  lemma FileServers(conf: string, servers: seq<string>)
    requires ValidEdit(SetServers(servers))
    ensures Servers(WithServers(conf, servers)) == servers
    ensures Servers(WithStrict(WithServers(conf, servers), true)) == servers
  {
    hide WithServers, WithStrict, Servers, LocalEntries, DhcpConfig, StrictOrder;
    EnabledFile(conf, servers);
  }

  lemma StrictIsSet(conf: string)
    ensures StrictOrder(WithStrict(conf, true)) && !StrictOrder(WithStrict(conf, false))
  {
    hide WithStrict, Servers, LocalEntries, DhcpConfig, WithStrict;
    EditRefines(conf, SetStrict(true));
    EditRefines(conf, SetStrict(false));
  }

  lemma DisableMeans(s: State, w: World)
    ensures DisableReach(w) == 3 <==>
            && w.statusOk && w.strict.openOk && w.strict.writeOk
            && w.servers.openOk && w.servers.writeOk && w.servers.reloadOk && w.saveOk
    ensures var t := After(s, DisablePlan(s), DisableReach(w));
            && t.row == (if DisableReach(w) == 3 then s.row.(enabled := false) else s.row)
            && (if w.statusOk && w.strict.openOk && w.strict.writeOk
                then OneLine(s.row.stashedUpstreams) ==> !StrictOrder(t.conf) else t.conf == s.conf)
            && (OneLine(s.row.stashedUpstreams) ==>
                  Servers(t.conf) == if && w.statusOk && w.strict.openOk && w.strict.writeOk
                                        && w.servers.openOk && w.servers.writeOk
                                     then Restore(s.row.stashedUpstreams) else Servers(s.conf))
  {
    hide WithServers, WithStrict, Restore, Servers, StrictOrder, After, LocalEntries, DhcpConfig;
    AfterThree(s, DisablePlan(s));
    StrictIsSet(s.conf);
    if OneLine(s.row.stashedUpstreams) {
      RestoredIsOneLine(s.row.stashedUpstreams);
      DisabledFile(s.conf, Restore(s.row.stashedUpstreams));
    }
  }

  class Switch {
    var row: DoHConfig
    const dns: Dnsmasq

    constructor (row: DoHConfig, dns: Dnsmasq)
      ensures this.row == row && this.dns == dns
    {
      this.row := row;
      this.dns := dns;
    }

    function Now(): State
      reads this, dns
    {
      State(row, dns.conf)
    }

    method EnableEncryptedDNS(form: DoHConfig, w: World) returns (ok: bool)
      modifies this, dns
      ensures ok == (EnableReach(w) == 3 && w.reloadOk)
      ensures Now() == After(old(Now()), EnablePlan(old(Now()), form, w.readOk, w.stubby, w.dnscrypt), EnableReach(w))
      ensures ok <==> && w.saveOk && (w.stubby ==> w.stubbyConfOk) && (w.dnscrypt ==> w.dnscryptConfOk)
                      && w.servers.openOk && w.servers.writeOk && w.servers.reloadOk
                      && w.strict.openOk && w.strict.writeOk && w.reloadOk
      ensures row == if w.saveOk
                     then form.(enabled := true,
                                stashedUpstreams := Stash(if w.readOk then Servers(old(dns.conf)) else [],
                                                          form.stashedUpstreams))
                     else old(row)
      ensures if && w.saveOk && (w.stubby ==> w.stubbyConfOk) && (w.dnscrypt ==> w.dnscryptConfOk)
                 && w.servers.openOk && w.servers.writeOk
              then OneLine(form.stashedUpstreams) ==>
                     Servers(dns.conf) == (if w.stubby then ["127.0.0.1#5353"] else [])
                                          + (if w.dnscrypt then ["127.0.0.1#5454"] else [])
                                          + (if form.fallbackToPlain then Restore(row.stashedUpstreams) else [])
              else dns.conf == old(dns.conf)
      ensures ok ==> row.enabled && StrictOrder(dns.conf)
    {
      hide WithServers, WithStrict, Servers, Stash, Restore, EncryptedServers, After, EnablePlan, EnableReach,
        StrictOrder;
      ghost var s := Now();
      var read := dns.GetUpstreamServers(IO(w.readOk, true, true));
      var current := if read.Some? then read.value else [];
      var cfg := form;
      var stash := StashUpstreams(current, cfg.stashedUpstreams);
      cfg := cfg.(stashedUpstreams := stash);
      cfg := cfg.(enabled := true);
      EnableWrites(s, form, w);
      EnableMeans(s, form, w);
      if !w.saveOk {
        return false;
      }
      row := cfg;
      if w.stubby && !w.stubbyConfOk {
        return false;
      }
      if w.dnscrypt && !w.dnscryptConfOk {
        return false;
      }
      var servers := BuildEncryptedServers(cfg, w.stubby, w.dnscrypt);
      var stored := dns.SetUpstreamServers(servers, w.servers);
      if !stored {
        return false;
      }
      var strict := dns.SetStrictOrder(true, w.strict);
      if !strict {
        return false;
      }
      return w.reloadOk;
    }

    method DisableEncryptedDNS(w: World) returns (ok: bool)
      modifies this, dns
      ensures ok == (DisableReach(w) == 3 && w.reloadOk)
      ensures Now() == After(old(Now()), DisablePlan(old(Now())), DisableReach(w))
      ensures ok <==> && w.statusOk && w.strict.openOk && w.strict.writeOk
                      && w.servers.openOk && w.servers.writeOk && w.servers.reloadOk && w.saveOk && w.reloadOk
      ensures row == if && w.statusOk && w.strict.openOk && w.strict.writeOk
                        && w.servers.openOk && w.servers.writeOk && w.servers.reloadOk && w.saveOk
                     then old(row).(enabled := false) else old(row)
      ensures if w.statusOk && w.strict.openOk && w.strict.writeOk
              then OneLine(old(row).stashedUpstreams) ==> !StrictOrder(dns.conf)
              else dns.conf == old(dns.conf)
      ensures OneLine(old(row).stashedUpstreams) ==>
                Servers(dns.conf) == if && w.statusOk && w.strict.openOk && w.strict.writeOk
                                        && w.servers.openOk && w.servers.writeOk
                                     then Restore(old(row).stashedUpstreams) else Servers(old(dns.conf))
    {
      hide Filter, FlatMap, Split, WithServers, WithStrict, Servers, Restore, After, Trim;
      AfterThree(Now(), DisablePlan(Now()));
      DisableMeans(Now(), w);
      if !w.statusOk {
        return false;
      }
      var cfg := row;
      var strict := dns.SetStrictOrder(false, w.strict);
      if !strict {
        return false;
      }
      var restored := RestoreUpstreams(cfg.stashedUpstreams);
      var stored := dns.SetUpstreamServers(restored, w.servers);
      if !stored {
        return false;
      }
      cfg := cfg.(enabled := false);
      if !w.saveOk {
        return false;
      }
      row := cfg;
      return w.reloadOk;
    }

    /** `POST /toggle`. The configuration it builds does not carry the stash. */
    method Toggle(enable: bool, f: Form, w: World) returns (ok: bool)
      modifies this, dns
      ensures enable && !(w.statusOk && MayToggleOn(f, w.stubby, w.dnscrypt)) ==> !ok && Now() == old(Now())
      ensures enable && w.statusOk && MayToggleOn(f, w.stubby, w.dnscrypt) ==>
                Now() == After(old(Now()),
                               EnablePlan(old(Now()), FormConfig(f, false, ""), w.readOk, w.stubby, w.dnscrypt),
                               EnableReach(w))
      ensures enable && w.statusOk && MayToggleOn(f, w.stubby, w.dnscrypt) ==> ok == (EnableReach(w) == 3 && w.reloadOk)
      ensures !enable ==> Now() == After(old(Now()), DisablePlan(old(Now())), DisableReach(w))
      ensures !enable ==> ok == (DisableReach(w) == 3 && w.reloadOk)
      ensures enable ==>
                var refused :=
                  || !w.statusOk || !(w.stubby || w.dnscrypt)
                  || (f.provider == "custom" && w.stubby && (f.customDoTIP == "" || f.customDoTTLSName == ""))
                  || (f.provider == "custom" && w.dnscrypt && f.customDoHURL == "");
                && (ok <==> && !refused && w.saveOk
                            && (w.stubby ==> w.stubbyConfOk) && (w.dnscrypt ==> w.dnscryptConfOk)
                            && w.servers.openOk && w.servers.writeOk && w.servers.reloadOk
                            && w.strict.openOk && w.strict.writeOk && w.reloadOk)
                && row == (if !refused && w.saveOk
                           then DoHConfig(true, if f.provider == "" then "cloudflare" else f.provider, f.fallback,
                                          Stash(if w.readOk then Servers(old(dns.conf)) else [], ""),
                                          f.customDoTIP, f.customDoTTLSName, f.customDoHURL)
                           else old(row))
                && if && !refused && w.saveOk && (w.stubby ==> w.stubbyConfOk) && (w.dnscrypt ==> w.dnscryptConfOk)
                      && w.servers.openOk && w.servers.writeOk
                   then Servers(dns.conf) == (if w.stubby then ["127.0.0.1#5353"] else [])
                                             + (if w.dnscrypt then ["127.0.0.1#5454"] else [])
                                             + (if f.fallback then Restore(row.stashedUpstreams) else [])
                   else dns.conf == old(dns.conf)
      ensures enable && ok ==> row.enabled && StrictOrder(dns.conf)
      ensures !enable ==> (ok <==> && w.statusOk && w.strict.openOk && w.strict.writeOk
                                   && w.servers.openOk && w.servers.writeOk && w.servers.reloadOk
                                   && w.saveOk && w.reloadOk)
      ensures !enable && ok ==> row == old(row).(enabled := false)
      ensures !enable && ok && OneLine(old(row).stashedUpstreams) ==>
                !StrictOrder(dns.conf) && Servers(dns.conf) == Restore(old(row).stashedUpstreams)
    {
      hide After, EnablePlan, DisablePlan, EnableReach, DisableReach, Restore, Stash, Servers, StrictOrder;
      if enable {
        if !w.statusOk || !(w.stubby || w.dnscrypt) {
          return false;
        }
        var cfg := DoHConfig(false, f.provider, f.fallback, "", f.customDoTIP, f.customDoTTLSName, f.customDoHURL);
        if cfg.providerID == "" {
          cfg := cfg.(providerID := "cloudflare");
        }
        if cfg.providerID == "custom" {
          if w.stubby && (cfg.customDoTIP == "" || cfg.customDoTTLSName == "") {
            return false;
          }
          if w.dnscrypt && cfg.customDoHURL == "" {
            return false;
          }
        }
        ok := EnableEncryptedDNS(cfg, w);
      } else {
        ok := DisableEncryptedDNS(w);
      }
    }

    /** `POST /config`. It carries the stash over, and applies it at once if encryption is on. */
    method SaveConfig(f: Form, w: World) returns (ok: bool)
      modifies this, dns
      ensures !w.statusOk ==> !ok && Now() == old(Now())
      ensures w.statusOk && old(row).enabled ==>
                var cfg := FormConfig(f, true, old(row).stashedUpstreams);
                Now() == After(old(Now()), EnablePlan(old(Now()), cfg, w.readOk, w.stubby, w.dnscrypt), EnableReach(w))
      ensures w.statusOk && old(row).enabled ==> ok == (EnableReach(w) == 3 && w.reloadOk)
      ensures w.statusOk && !old(row).enabled ==>
                && ok == w.saveOk
                && Now() ==
                   if ok then old(Now()).(row := FormConfig(f, false, old(row).stashedUpstreams)) else old(Now())
      ensures !w.statusOk ==> !ok && row == old(row) && dns.conf == old(dns.conf)
      ensures w.statusOk ==>
                var stash := old(row).stashedUpstreams;
                && row == (if w.saveOk
                           then DoHConfig(old(row).enabled,
                                          if f.provider == "" then "cloudflare" else f.provider, f.fallback,
                                          if old(row).enabled
                                          then Stash(if w.readOk then Servers(old(dns.conf)) else [], stash) else stash,
                                          f.customDoTIP, f.customDoTTLSName, f.customDoHURL)
                           else old(row))
      ensures w.statusOk && !old(row).enabled ==> ok == w.saveOk && dns.conf == old(dns.conf)
      ensures w.statusOk && old(row).enabled ==>
                && (ok <==> && w.saveOk && (w.stubby ==> w.stubbyConfOk) && (w.dnscrypt ==> w.dnscryptConfOk)
                            && w.servers.openOk && w.servers.writeOk && w.servers.reloadOk
                            && w.strict.openOk && w.strict.writeOk && w.reloadOk)
                && if && w.saveOk && (w.stubby ==> w.stubbyConfOk) && (w.dnscrypt ==> w.dnscryptConfOk)
                      && w.servers.openOk && w.servers.writeOk
                   then OneLine(old(row).stashedUpstreams) ==>
                          Servers(dns.conf) == (if w.stubby then ["127.0.0.1#5353"] else [])
                                               + (if w.dnscrypt then ["127.0.0.1#5454"] else [])
                                               + (if f.fallback then Restore(row.stashedUpstreams) else [])
                   else dns.conf == old(dns.conf)
      ensures ok && row.enabled ==> old(row).enabled && StrictOrder(dns.conf)
    {
      hide After, EnablePlan, EnableReach, Restore, Stash, Servers, StrictOrder;
      if !w.statusOk {
        return false;
      }
      var cfg := DoHConfig(row.enabled, f.provider, f.fallback, row.stashedUpstreams,
                           f.customDoTIP, f.customDoTTLSName, f.customDoHURL);
      if cfg.providerID == "" {
        cfg := cfg.(providerID := "cloudflare");
      }
      if row.enabled {
        ok := EnableEncryptedDNS(cfg, w);
        return;
      }
      if !w.saveOk {
        return false;
      }
      row := cfg;
      return true;
    }
  }
}
