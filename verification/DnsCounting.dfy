/** What the counters of the DNS statistics amount to, over any log. */
module DnsCounting {
  import opened Seqs
  import opened DnsStats

  /** The counters after a log. */
  function Run(log: seq<string>): Counts {
    if log == [] then Counts(0, 0, 0, map[], map[])
    else After(Run(log[..|log| - 1]), Says(log[|log| - 1]))
  }

  predicate IsQuery(said: Said) {
    said.Asked? || said.Hit?
  }

  predicate IsHit(said: Said) {
    said.Hit?
  }

  predicate IsSent(said: Said) {
    said.Sent?
  }

  function DomainIn(said: Said): string {
    if IsQuery(said) then said.domain else ""
  }

  function UpstreamIn(said: Said): string {
    if said.Sent? then said.upstream else ""
  }

  predicate NamesDomain(said: Said) {
    DomainIn(said) != ""
  }

  predicate NamesUpstream(said: Said) {
    UpstreamIn(said) != ""
  }

  /** How many lines of a log satisfy a test. */
  function Count(test: Said -> bool, log: seq<string>): nat {
    |Filter(line => test(Says(line)), log)|
  }

  lemma CountSnoc(test: Said -> bool, log: seq<string>, line: string)
    ensures Count(test, log + [line]) == Count(test, log) + if test(Says(line)) then 1 else 0
  {
    FilterAppend(line => test(Says(line)), log, line);
  }

  lemma SumBump(m: map<string, nat>, k: string)
    ensures Sum(Bump(m, k)) == Sum(m) + if k == "" then 0 else 1
  {
    hide Sum;
    if k in m && k != "" {
      SumRemove(m, k);
      SumRemove(Bump(m, k), k);
      assert m - {k} == Bump(m, k) - {k};
    } else if k != "" {
      SumAdd(m, k, 1);
    }
  }

  /** The numbers of lines that the counters stand for. */
  predicate Tallies(c: Counts, log: seq<string>) {
    && c.queries == Count(IsQuery, log)
    && c.cacheHits == Count(IsHit, log)
    && c.forwarded == Count(IsSent, log)
  }

  ghost predicate SumsTally(c: Counts, log: seq<string>) {
    && Sum(c.byDomain) == Count(NamesDomain, log)
    && Sum(c.byUpstream) == Count(NamesUpstream, log)
  }

  predicate KeysTally(c: Counts, log: seq<string>, k: string) {
    && (k != "" ==> Get(c.byDomain, k) == Count((said: Said) => DomainIn(said) == k, log))
    && (k != "" ==> Get(c.byUpstream, k) == Count((said: Said) => UpstreamIn(said) == k, log))
  }

  lemma TallyStep(c: Counts, log: seq<string>, line: string)
    requires Tallies(c, log) && SumsTally(c, log)
    ensures Tallies(After(c, Says(line)), log + [line]) && SumsTally(After(c, Says(line)), log + [line])
  {
    hide Says, Count, Sum, Bump;
    CountSnoc(IsQuery, log, line);
    CountSnoc(IsHit, log, line);
    CountSnoc(IsSent, log, line);
    CountSnoc(NamesDomain, log, line);
    CountSnoc(NamesUpstream, log, line);
    SumBump(c.byDomain, DomainIn(Says(line)));
    SumBump(c.byUpstream, UpstreamIn(Says(line)));
  }

  lemma KeyStep(c: Counts, log: seq<string>, line: string, k: string)
    requires KeysTally(c, log, k)
    ensures KeysTally(After(c, Says(line)), log + [line], k)
  {
    hide Says, Count;
    CountSnoc((said: Said) => DomainIn(said) == k, log, line);
    CountSnoc((said: Said) => UpstreamIn(said) == k, log, line);
  }

  /** Each counter is the number of lines that say what it counts: queries, cache hits, forwards, and
      for every domain and every upstream the lines that name it. */
  lemma {:induction false} CountersCount(log: seq<string>)
    ensures Tallies(Run(log), log) && SumsTally(Run(log), log)
    ensures forall k: string :: KeysTally(Run(log), log, k)
  {
    hide After, Says, Tallies, SumsTally, KeysTally;
    if log == [] {
      NothingTallies();
    } else {
      var init, last := log[..|log| - 1], log[|log| - 1];
      assert log == init + [last];
      CountersCount(init);
      TallyStep(Run(init), init, last);
      forall k: string ensures KeysTally(Run(log), log, k) {
        KeyStep(Run(init), init, last, k);
      }
    }
  }

  lemma NothingTallies()
    ensures Tallies(Run([]), []) && SumsTally(Run([]), [])
    ensures forall k: string :: KeysTally(Run([]), [], k)
  {
  }

  lemma {:induction false} CountWeaker(p: Said -> bool, q: Said -> bool, log: seq<string>)
    requires forall said :: p(said) ==> q(said)
    ensures Count(p, log) <= Count(q, log)
    ensures Count(p, log) == Count(q, log) <==> forall line <- log :: q(Says(line)) ==> p(Says(line))
  {
    hide Says, Count;
    if log == [] {
      CountNothing(p);
      CountNothing(q);
    } else {
      var init, last := log[..|log| - 1], log[|log| - 1];
      assert log == init + [last];
      CountWeaker(p, q, init);
      CountSnoc(p, init, last);
      CountSnoc(q, init, last);
    }
  }

  lemma CountNothing(test: Said -> bool)
    ensures Count(test, []) == 0
  {
  }

  /** Cache hits never exceed queries, the domain counts never exceed the queries nor the upstream counts
      the forwards, and they reach them exactly when every such line names a domain or an upstream. */
  lemma Conservation(log: seq<string>)
    ensures var c := Run(log);
            c.cacheHits <= c.queries && Sum(c.byDomain) <= c.queries && Sum(c.byUpstream) <= c.forwarded
            && (Sum(c.byDomain) == c.queries <==> forall line <- log :: IsQuery(Says(line)) ==> NamesDomain(Says(line)))
            && (Sum(c.byUpstream) == c.forwarded <==>
                forall line <- log :: IsSent(Says(line)) ==> NamesUpstream(Says(line)))
  {
    hide Says, Sum, Count, Run;
    CountersCount(log);
    CountWeaker(IsHit, IsQuery, log);
    CountWeaker(NamesDomain, IsQuery, log);
    CountWeaker(NamesUpstream, IsSent, log);
  }

  /** The three counts on the encrypted-DNS page split the upstream counts. */
  lemma PageSplits(m: map<string, nat>)
    ensures Get(m, EncryptedDns.STUBBY_LISTEN) + Get(m, EncryptedDns.DNSCRYPT_LISTEN) + Sum(Plain(m)) == Sum(m)
  {
    hide Sum;
    var a, b := EncryptedDns.STUBBY_LISTEN, EncryptedDns.DNSCRYPT_LISTEN;
    assert a != b;
    SumDrop(m, a);
    SumDrop(m - {a}, b);
    assert m - {a} - {b} == Plain(m);
  }

  lemma SumDrop(m: map<string, nat>, k: string)
    ensures Sum(m) == Get(m, k) + Sum(m - {k})
  {
    if k in m {
      SumRemove(m, k);
    } else {
      assert m - {k} == m;
    }
  }

  // ----- the most frequent domains are determined up to ties

  lemma {:induction false} DomainsSize(s: seq<DomainStat>)
    requires Distinct(s)
    ensures |Domains(s)| == |s|
  {
    if s != [] {
      var init, last := s[..|s| - 1], s[|s| - 1];
      DomainsSize(init);
      assert s == init + [last];
      assert Domains(s) == Domains(init) + {last.domain};
    }
  }

  /** A domain that counts for more than the entry `i` of a list comes before that entry. */
  lemma AboveIsBefore(b: seq<DomainStat>, m: map<string, nat>, i: nat, d: string)
    requires Top(b, m) && i < |b| && d in m && m[d] > b[i].count
    ensures d in Domains(b[..i])
  {
    assert b[i] in b;
    assert Has(b, d);
    var j :| 0 <= j < |b| && b[j].domain == d;
    assert b[j].count == m[d];
    assert b[..i][j] == b[j];
  }

  lemma UpToCounts(a: seq<DomainStat>, m: map<string, nat>, i: nat, d: string)
    requires Top(a, m) && i < |a| && d in Domains(a[..i + 1])
    ensures d in m && m[d] >= a[i].count
  {
    var j :| 0 <= j <= i && a[..i + 1][j].domain == d;
    assert a[j] in a && a[j].domain == d;
  }

  lemma TopSize(a: seq<DomainStat>, m: map<string, nat>)
    requires Top(a, m)
    ensures |a| == if |m| > 10 then 10 else |m|
  {
  }

  lemma TopNotAbove(a: seq<DomainStat>, b: seq<DomainStat>, m: map<string, nat>, i: nat)
    requires Top(a, m) && Top(b, m) && i < |a|
    ensures i < |b| && a[i].count <= b[i].count
  {
    hide Top, Domains;
    TopSize(a, m);
    TopSize(b, m);
    if a[i].count > b[i].count {
      forall d <- Domains(a[..i + 1]) ensures d in Domains(b[..i]) {
        UpToCounts(a, m, i, d);
        AboveIsBefore(b, m, i, d);
      }
      TopPrefixSizes(a, b, m, i);
      SubsetSize(Domains(a[..i + 1]), Domains(b[..i]));
    }
  }

  lemma TopPrefixSizes(a: seq<DomainStat>, b: seq<DomainStat>, m: map<string, nat>, i: nat)
    requires Top(a, m) && Top(b, m) && i < |a|
    ensures |Domains(a[..i + 1])| == i + 1 && |Domains(b[..i])| == i
  {
    DomainsSize(a[..i + 1]);
    DomainsSize(b[..i]);
  }

  /** However the map is walked and ties are sorted, the counts on the list are the same. */
  lemma TopCountsDetermined(a: seq<DomainStat>, b: seq<DomainStat>, m: map<string, nat>)
    requires Top(a, m) && Top(b, m)
    ensures |a| == |b| && forall i | 0 <= i < |a| :: a[i].count == b[i].count
  {
    forall i | 0 <= i < |a| ensures a[i].count == b[i].count {
      TopNotAbove(a, b, m, i);
      TopNotAbove(b, a, m, i);
    }
  }
}
