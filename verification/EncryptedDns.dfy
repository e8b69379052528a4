/** The switch between plain and encrypted DNS (internal/system/doh.go and internal/handler/doh.go).
    The plain upstream servers live in `dnsmasq.conf`; while encrypted DNS is on they are stashed in
    one database row. Every operation is a short list of atomic writes, any of which may fail. */
module EncryptedDns {
  import opened Seqs
  import opened Text
  import opened DnsmasqConf

  const STUBBY_LISTEN := "127.0.0.1#5353"
  const DNSCRYPT_LISTEN := "127.0.0.1#5454"
  const DEFAULT_UPSTREAMS: seq<string> := ["1.1.1.1", "8.8.8.8"]

  /** The single row of the table `doh_config`. */
  datatype DoHConfig = DoHConfig(
    enabled: bool, providerID: string, fallbackToPlain: bool, stashedUpstreams: string,
    customDoTIP: string, customDoTTLSName: string, customDoHURL: string)

  datatype State = State(row: DoHConfig, conf: string)

  // ----- the stash

  predicate NotStub(addr: string) {
    addr != STUBBY_LISTEN && addr != DNSCRYPT_LISTEN
  }

  function Stash(current: seq<string>, previous: string): string {
    var addrs := Filter(NotStub, current);
    if addrs == [] then previous else JoinBy(addrs, ',')
  }

  function PartOf(part: string): seq<string> {
    if Trim(part) == "" then [] else [Trim(part)]
  }

  function Restore(stashed: string): seq<string> {
    var out := FlatMap(PartOf, Split(stashed, ','));
    if out == [] then DEFAULT_UPSTREAMS else out
  }

  function EncryptedServers(cfg: DoHConfig, stubby: bool, dnscrypt: bool): seq<string> {
    (if stubby then [STUBBY_LISTEN] else [])
    + (if dnscrypt then [DNSCRYPT_LISTEN] else [])
    + (if cfg.fallbackToPlain then Restore(cfg.stashedUpstreams) else [])
  }

  method StashUpstreams(current: seq<string>, previous: string) returns (r: string)
    ensures r == Stash(current, previous)
  {
    var addrs := [];
    for i := 0 to |current|
      invariant addrs == Filter(NotStub, current[..i])
    {
      assert current[..i + 1][..i] == current[..i];
      if NotStub(current[i]) {
        addrs := addrs + [current[i]];
      }
    }
    assert current[..|current|] == current;
    if |addrs| == 0 {
      return previous;
    }
    return JoinBy(addrs, ',');
  }

  method RestoreUpstreams(stashed: string) returns (out: seq<string>)
    ensures out == Restore(stashed)
  {
    var parts := Split(stashed, ',');
    out := [];
    for i := 0 to |parts|
      invariant out == FlatMap(PartOf, parts[..i])
    {
      assert parts[..i + 1][..i] == parts[..i];
      var p := Trim(parts[i]);
      if p != "" {
        out := out + [p];
      }
    }
    assert parts[..|parts|] == parts;
    if |out| == 0 {
      return ["1.1.1.1", "8.8.8.8"];
    }
  }

  method BuildEncryptedServers(cfg: DoHConfig, stubby: bool, dnscrypt: bool) returns (servers: seq<string>)
    ensures servers == EncryptedServers(cfg, stubby, dnscrypt)
  {
    hide Restore;
    servers := [];
    if stubby {
      servers := servers + [STUBBY_LISTEN];
    }
    if dnscrypt {
      servers := servers + [DNSCRYPT_LISTEN];
    }
    if cfg.fallbackToPlain {
      var plain := RestoreUpstreams(cfg.stashedUpstreams);
      ghost var stubs := servers;
      for i := 0 to |plain|
        invariant servers == stubs + plain[..i]
      {
        assert plain[..i + 1] == plain[..i] + [plain[i]];
        servers := servers + [plain[i]];
      }
      assert plain[..|plain|] == plain;
    }
  }

  // ----- operations as lists of atomic writes

  datatype Write = SaveRow(row: DoHConfig) | WriteConf(conf: string)

  function Play(s: State, w: Write): State {
    match w
    case SaveRow(row) => s.(row := row)
    case WriteConf(conf) => s.(conf := conf)
  }

  /** The state after the first `cut` writes of a plan (all of them if there are fewer). */
  function After(s: State, plan: seq<Write>, cut: nat): State
    decreases cut
  {
    if cut == 0 || plan == [] then s else After(Play(s, plan[0]), plan[1..], cut - 1)
  }

  function EnablePlan(s: State, cfg: DoHConfig, readOk: bool, stubby: bool, dnscrypt: bool): seq<Write> {
    var current := if readOk then Servers(s.conf) else [];
    var row := cfg.(stashedUpstreams := Stash(current, cfg.stashedUpstreams), enabled := true);
    var conf1 := WithServers(s.conf, EncryptedServers(row, stubby, dnscrypt));
    [SaveRow(row), WriteConf(conf1), WriteConf(WithStrict(conf1, true))]
  }

  function DisablePlan(s: State): seq<Write> {
    var conf1 := WithStrict(s.conf, false);
    [WriteConf(conf1), WriteConf(WithServers(conf1, Restore(s.row.stashedUpstreams))),
     SaveRow(s.row.(enabled := false))]
  }

  /** The values of the form that both handlers read. */
  datatype Form = Form(
    provider: string, fallback: bool, customDoTIP: string, customDoTTLSName: string, customDoHURL: string)

  function FormConfig(f: Form, enabled: bool, stashed: string): DoHConfig {
    DoHConfig(enabled, if f.provider == "" then "cloudflare" else f.provider, f.fallback, stashed,
              f.customDoTIP, f.customDoTTLSName, f.customDoHURL)
  }

  /** Whether `toggle` accepts to switch on. */
  predicate MayToggleOn(f: Form, stubby: bool, dnscrypt: bool) {
    && (stubby || dnscrypt)
    && (f.provider == "custom" ==>
          && (stubby ==> f.customDoTIP != "" && f.customDoTTLSName != "")
          && (dnscrypt ==> f.customDoHURL != ""))
  }

  lemma AfterThree(s: State, plan: seq<Write>)
    requires |plan| == 3
    ensures After(s, plan, 0) == s
    ensures After(s, plan, 1) == Play(s, plan[0])
    ensures After(s, plan, 2) == Play(Play(s, plan[0]), plan[1])
    ensures forall cut: nat | cut >= 3 :: After(s, plan, cut) == Play(Play(Play(s, plan[0]), plan[1]), plan[2])
  {
    forall cut: nat | cut >= 3
      ensures After(s, plan, cut) == Play(Play(Play(s, plan[0]), plan[1]), plan[2])
    {
      var s1, s2 := Play(s, plan[0]), Play(Play(s, plan[0]), plan[1]);
      assert After(s, plan, cut) == After(s1, plan[1..], cut - 1) == After(s2, plan[1..][1..], cut - 2)
          == After(Play(s2, plan[2]), plan[1..][1..][1..], cut - 3);
    }
    assert After(s, plan, 1) == After(Play(s, plan[0]), plan[1..], 0);
    assert After(s, plan, 2) == After(Play(s, plan[0]), plan[1..], 1)
        == After(Play(Play(s, plan[0]), plan[1]), plan[1..][1..], 0);
  }
}
