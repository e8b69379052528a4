/** The statistics that are collected from the lines dnsmasq logs (internal/system/dns_stats.go), and the
    count of unencrypted queries drawn from them (internal/handler/doh.go). */
module DnsStats {
  import opened Text
  import EncryptedDns

  datatype DomainStat = DomainStat(domain: string, count: nat)

  datatype DNSStats = DNSStats(
    totalQueries: nat, cacheHits: nat, forwarded: nat, cacheHitRate: real,
    byUpstream: map<string, nat>, topDomains: seq<DomainStat>)

  // ----- what a line says

  /** `strings.IndexAny(s, " \t")`, or the length of `s`. */
  function GapAt(s: string): (i: nat)
    ensures i <= |s|
  {
    if s == "" || s[0] == ' ' || s[0] == '\t' then 0 else 1 + GapAt(s[1..])
  }

  function FirstWord(s: string): string {
    Trim(s)[..GapAt(Trim(s))]
  }

  function ExtractWordAfter(s: string, keyword: string): string {
    var i := Index(ToLower(s), ToLower(keyword));
    if i < 0 then "" else FirstWord(s[i + |keyword|..])
  }

  /** A domain or an upstream is empty when the line names none. */
  datatype Said = Asked(domain: string) | Hit(domain: string) | Sent(upstream: string) | Nothing

  function Says(raw: string): Said {
    var lower := ToLower(raw);
    if Contains(lower, "query[") then
      var i := Index(lower, "] ");
      Asked(if i < 0 then "" else FirstWord(raw[i + 2..]))
    else if Contains(lower, "cached ") then Hit(ExtractWordAfter(raw, "cached"))
    else if Contains(lower, "forwarded ") then Sent(ExtractWordAfter(raw, " to "))
    else Nothing
  }

  // ----- counters

  datatype Counts = Counts(
    queries: nat, cacheHits: nat, forwarded: nat, byUpstream: map<string, nat>, byDomain: map<string, nat>)

  function Get(m: map<string, nat>, k: string): nat {
    if k in m then m[k] else 0
  }

  function Bump(m: map<string, nat>, k: string): map<string, nat> {
    if k == "" then m else m[k := Get(m, k) + 1]
  }

  function After(c: Counts, said: Said): Counts {
    match said
    case Asked(domain) => c.(queries := c.queries + 1, byDomain := Bump(c.byDomain, domain))
    case Hit(domain) =>
      c.(queries := c.queries + 1, cacheHits := c.cacheHits + 1, byDomain := Bump(c.byDomain, domain))
    case Sent(upstream) => c.(forwarded := c.forwarded + 1, byUpstream := Bump(c.byUpstream, upstream))
    case Nothing => c
  }

  ghost function Sum(m: map<string, nat>): nat {
    if m == map[] then 0
    else
      var k :| k in m;
      m[k] + Sum(m - {k})
  }

  // ----- the most frequent domains

  predicate Descending(s: seq<DomainStat>) {
    forall i, j | 0 <= i < j < |s| :: s[i].count >= s[j].count
  }

  predicate Distinct(s: seq<DomainStat>) {
    forall i, j | 0 <= i < j < |s| :: s[i].domain != s[j].domain
  }

  predicate Lists(s: seq<DomainStat>, m: map<string, nat>) {
    forall e <- s :: e.domain in m && m[e.domain] == e.count
  }

  predicate Has(s: seq<DomainStat>, d: string) {
    exists e <- s :: e.domain == d
  }

  /** At most ten different domains with their counts, in descending order, and no domain that is left
      out is more frequent than one that is not. */
  predicate Top(top: seq<DomainStat>, m: map<string, nat>) {
    && Descending(top) && Distinct(top) && Lists(top, m)
    && |top| == (if |m| > 10 then 10 else |m|)
    && forall d <- m.Keys, e <- top :: Has(top, d) || m[d] <= e.count
  }

  /** Every domain of `keys`, once. */
  predicate Complete(s: seq<DomainStat>, m: map<string, nat>, keys: set<string>) {
    && Distinct(s) && Lists(s, m) && |s| == |keys|
    && (forall e <- s :: e.domain in keys)
    && (forall k <- keys :: Has(s, k))
  }

  lemma DistinctInsert(s: seq<DomainStat>, p: nat, e: DomainStat)
    requires Distinct(s) && p <= |s| && !Has(s, e.domain)
    ensures Distinct(s[..p] + [e] + s[p..])
  {
    var t := s[..p] + [e] + s[p..];
    forall i, j | 0 <= i < j < |t| ensures t[i].domain != t[j].domain {
      assert i < p ==> t[i] == s[i];
      assert i > p ==> t[i] == s[i - 1];
      assert j < p ==> t[j] == s[j];
      assert j > p ==> t[j] == s[j - 1];
    }
  }

  lemma CompleteInsert(s: seq<DomainStat>, p: nat, e: DomainStat, m: map<string, nat>, keys: set<string>)
    requires Complete(s, m, keys) && p <= |s|
    requires e.domain in m && m[e.domain] == e.count && e.domain !in keys
    ensures Complete(s[..p] + [e] + s[p..], m, keys + {e.domain})
  {
    hide Distinct;
    var t := s[..p] + [e] + s[p..];
    DistinctInsert(s, p, e);
    assert forall x :: x in t <==> x in s || x == e;
    forall k <- keys + {e.domain} ensures Has(t, k) {
      if k == e.domain {
        assert e in t;
      } else {
        var x :| x in s && x.domain == k;
        assert x in t;
      }
    }
  }

  /** An entry that is cut off counts no more than one that is not. */
  lemma CutOffIsLess(s: seq<DomainStat>, n: nat, m: map<string, nat>, d: string, e: DomainStat)
    requires Complete(s, m, m.Keys) && Descending(s) && n <= |s| && d in m && e in s[..n]
    ensures Has(s[..n], d) || m[d] <= e.count
  {
    assert Has(s, d);
    var j :| 0 <= j < |s| && s[j].domain == d;
    var i :| 0 <= i < n && s[i] == e;
    if j < n {
      assert s[..n][j] == s[j];
    }
  }

  lemma CompleteIsTop(s: seq<DomainStat>, m: map<string, nat>)
    requires Complete(s, m, m.Keys) && Descending(s)
    ensures Top(if |s| > 10 then s[..10] else s, m)
  {
    hide Has;
    var n := if |s| > 10 then 10 else |s|;
    assert s[..|s|] == s;
    assert |m.Keys| == |m|;
    forall d <- m.Keys, e <- s[..n] ensures Has(s[..n], d) || m[d] <= e.count {
      CutOffIsLess(s, n, m, d, e);
    }
  }

  /** The library's sort: some permutation in descending order. */
  method SortByCount(domains: seq<DomainStat>, ghost m: map<string, nat>, ghost keys: set<string>)
    returns (sorted: seq<DomainStat>)
    requires Complete(domains, m, keys)
    ensures Complete(sorted, m, keys) && Descending(sorted)
  {
    hide Complete, Descending;
    sorted := [];
    ghost var done: set<string> := {};
    CompleteNothing(m);
    for i := 0 to |domains|
      invariant Complete(sorted, m, done) && Descending(sorted)
      invariant done == Domains(domains[..i])
    {
      var e := domains[i];
      NextIsNew(domains, i, m, keys);
      var p := PlaceFor(sorted, e);
      CompleteInsert(sorted, p, e, m, done);
      DescendingInsert(sorted, p, e);
      sorted := sorted[..p] + [e] + sorted[p..];
      done := done + {e.domain};
    }
    AllDomains(domains, m, keys);
    assert domains[..|domains|] == domains;
  }

  function Domains(s: seq<DomainStat>): set<string> {
    set e <- s :: e.domain
  }

  lemma CompleteNothing(m: map<string, nat>)
    ensures Complete([], m, {}) && Descending([])
  {
  }

  lemma NextIsNew(domains: seq<DomainStat>, i: nat, m: map<string, nat>, keys: set<string>)
    requires Complete(domains, m, keys) && i < |domains|
    ensures domains[i].domain !in Domains(domains[..i])
    ensures Domains(domains[..i + 1]) == Domains(domains[..i]) + {domains[i].domain}
    ensures domains[i].domain in m && m[domains[i].domain] == domains[i].count
  {
    assert domains[..i + 1] == domains[..i] + [domains[i]];
  }

  lemma AllDomains(domains: seq<DomainStat>, m: map<string, nat>, keys: set<string>)
    requires Complete(domains, m, keys)
    ensures Domains(domains) == keys
  {
  }

  lemma DescendingInsert(s: seq<DomainStat>, p: nat, e: DomainStat)
    requires Descending(s) && p <= |s|
    requires forall j | 0 <= j < p :: s[j].count >= e.count
    requires p < |s| ==> s[p].count < e.count
    ensures Descending(s[..p] + [e] + s[p..])
  {
  }

  method PlaceFor(s: seq<DomainStat>, e: DomainStat) returns (p: nat)
    ensures p <= |s| && forall j | 0 <= j < p :: s[j].count >= e.count
    ensures p < |s| ==> s[p].count < e.count
  {
    p := 0;
    while p < |s| && s[p].count >= e.count
      invariant 0 <= p <= |s| && forall j | 0 <= j < p :: s[j].count >= e.count
    {
      p := p + 1;
    }
  }

  /** One entry for every key, in whatever order the map is walked. */
  method Entries(m: map<string, nat>) returns (domains: seq<DomainStat>)
    ensures Complete(domains, m, m.Keys)
  {
    hide Complete;
    domains := [];
    var rest := m.Keys;
    CompleteNothing(m);
    assert m.Keys - rest == {};
    while rest != {}
      invariant rest <= m.Keys
      invariant Complete(domains, m, m.Keys - rest)
      decreases |rest|
    {
      var d :| d in rest;
      var e := DomainStat(d, m[d]);
      CompleteInsert(domains, |domains|, e, m, m.Keys - rest);
      assert domains[..|domains|] + [e] + domains[|domains|..] == domains + [e];
      assert m.Keys - rest + {d} == m.Keys - (rest - {d});
      domains := domains + [e];
      rest := rest - {d};
    }
    assert m.Keys - {} == m.Keys;
  }

  class Collector {
    var queries: nat
    var cacheHits: nat
    var forwarded: nat
    var byUpstream: map<string, nat>
    var byDomain: map<string, nat>

    function Now(): Counts
      reads this
    {
      Counts(queries, cacheHits, forwarded, byUpstream, byDomain)
    }

    constructor ()
      ensures Now() == Counts(0, 0, 0, map[], map[])
    {
      queries, cacheHits, forwarded, byUpstream, byDomain := 0, 0, 0, map[], map[];
    }

    method ParseLine(raw: string)
      modifies this
      ensures Now() == After(old(Now()), Says(raw))
    {
      hide ToLower, Index, FirstWord, ExtractWordAfter;
      var lower := ToLower(raw);
      ToLowerLength(raw);
      if Contains(lower, "query[") {
        queries := queries + 1;
        var i := Index(lower, "] ");
        if i >= 0 {
          var domain := FirstWord(raw[i + 2..]);
          if domain != "" {
            byDomain := byDomain[domain := Get(byDomain, domain) + 1];
          }
        }
      } else if Contains(lower, "cached ") {
        cacheHits := cacheHits + 1;
        queries := queries + 1;
        var domain := ExtractWordAfter(raw, "cached");
        if domain != "" {
          byDomain := byDomain[domain := Get(byDomain, domain) + 1];
        }
      } else if Contains(lower, "forwarded ") {
        forwarded := forwarded + 1;
        var upstream := ExtractWordAfter(raw, " to ");
        if upstream != "" {
          byUpstream := byUpstream[upstream := Get(byUpstream, upstream) + 1];
        }
      }
    }

    /** The rate is at most 100 while no more cache hits than queries have been counted. */
    method Stats() returns (s: DNSStats)
      ensures s.totalQueries == queries && s.cacheHits == cacheHits && s.forwarded == forwarded
      ensures s.byUpstream == byUpstream
      ensures Top(s.topDomains, byDomain)
      ensures if queries == 0 then s.cacheHitRate == 0.0
              else s.cacheHitRate * queries as real == 100.0 * cacheHits as real
      ensures cacheHits <= queries ==> 0.0 <= s.cacheHitRate <= 100.0
    {
      hide Complete, Descending, Top;
      var domains := Entries(byDomain);
      domains := SortByCount(domains, byDomain, byDomain.Keys);
      CompleteIsTop(domains, byDomain);
      if |domains| > 10 {
        domains := domains[..10];
      }
      var hitRate := 0.0;
      if queries > 0 {
        hitRate := cacheHits as real / queries as real * 100.0;
      }
      return DNSStats(queries, cacheHits, forwarded, hitRate, byUpstream, domains);
    }
  }

  lemma ToLowerLength(s: string)
    ensures |ToLower(s)| == |s|
  {
  }

  // ----- unencrypted queries

  /** The counts of the upstreams that are no local stub. */
  function Plain(byUpstream: map<string, nat>): map<string, nat> {
    map addr | addr in byUpstream && EncryptedDns.NotStub(addr) :: byUpstream[addr]
  }

  lemma {:induction false} SumRemove(m: map<string, nat>, k: string)
    requires k in m
    ensures Sum(m) == m[k] + Sum(m - {k})
    decreases |m|
  {
    var k' :| k' in m && Sum(m) == m[k'] + Sum(m - {k'});
    if k' != k {
      SumRemove(m - {k'}, k);
      SumRemove(m - {k}, k');
      assert m - {k'} - {k} == m - {k} - {k'};
    }
  }

  lemma SumAdd(m: map<string, nat>, k: string, n: nat)
    requires k !in m
    ensures Sum(m[k := n]) == Sum(m) + n
  {
    SumRemove(m[k := n], k);
    assert m[k := n] - {k} == m;
  }

  method PlainQueries(byUpstream: map<string, nat>) returns (total: nat)
    ensures total == Sum(Plain(byUpstream))
  {
    hide Sum;
    total := 0;
    var rest := byUpstream.Keys;
    ghost var seen: map<string, nat> := map[];
    SumNothing();
    while rest != {}
      invariant rest <= byUpstream.Keys
      invariant seen == map addr | addr in Plain(byUpstream) && addr !in rest :: byUpstream[addr]
      invariant total == Sum(seen)
      decreases |rest|
    {
      var addr :| addr in rest;
      if addr != EncryptedDns.STUBBY_LISTEN && addr != EncryptedDns.DNSCRYPT_LISTEN {
        SumAdd(seen, addr, byUpstream[addr]);
        seen := seen[addr := byUpstream[addr]];
        total := total + byUpstream[addr];
      }
      rest := rest - {addr};
    }
    assert seen == Plain(byUpstream);
  }

  lemma SumNothing()
    ensures Sum(map[]) == 0
  {
  }
}
