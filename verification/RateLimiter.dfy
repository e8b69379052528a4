/** The fixed-window login limiter (internal/middleware/ratelimit.go) over runs of timed requests.
    Times and the window are integers in one unit. */
module RateLimiter {
  import opened Seqs

  datatype Bucket = Bucket(count: int, reset: int)

  datatype Request = Request(ip: string, time: int)

  /** The decision for one request, and the buckets after it. */
  function Decide(m: map<string, Bucket>, limit: int, window: int, r: Request): (map<string, Bucket>, bool) {
    if r.ip !in m || r.time > m[r.ip].reset then (m[r.ip := Bucket(1, r.time + window)], true)
    else if m[r.ip].count >= limit then (m, false)
    else (m[r.ip := m[r.ip].(count := m[r.ip].count + 1)], true)
  }

  class IPRateLimiter {
    const limit: int
    const window: int
    var m: map<string, Bucket>

    constructor (limit: int, window: int)
      ensures this.limit == limit && this.window == window && m == map[]
    {
      this.limit, this.window, m := limit, window, map[];
    }

    method Allow(ip: string, now: int) returns (ok: bool)
      modifies this
      ensures (m, ok) == Decide(old(m), limit, window, Request(ip, now))
    {
      if ip !in m || now > m[ip].reset {
        m := m[ip := Bucket(1, now + window)];
        return true;
      }
      var b := m[ip];
      if b.count >= limit {
        return false;
      }
      m := m[ip := Bucket(b.count + 1, b.reset)];
      return true;
    }
  }

  // ----- runs

  function Run(limit: int, window: int, rs: seq<Request>): map<string, Bucket> {
    if rs == [] then map[]
    else Decide(Run(limit, window, rs[..|rs| - 1]), limit, window, rs[|rs| - 1]).0
  }

  /** Whether the last request of a run is allowed. */
  predicate LastAllowed(limit: int, window: int, rs: seq<Request>)
    requires rs != []
  {
    Decide(Run(limit, window, rs[..|rs| - 1]), limit, window, rs[|rs| - 1]).1
  }

  /** How many requests of `ip` with a time in the closed interval [from, to] are allowed. */
  function Allowed(limit: int, window: int, rs: seq<Request>, ip: string, from: int, to: int): nat {
    if rs == [] then 0
    else
      var last := rs[|rs| - 1];
      Allowed(limit, window, rs[..|rs| - 1], ip, from, to)
      + if last.ip == ip && from <= last.time <= to && LastAllowed(limit, window, rs) then 1 else 0
  }

  predicate Chronological(rs: seq<Request>) {
    forall i, j | 0 <= i < j < |rs| :: rs[i].time <= rs[j].time
  }

  /** The most a single bucket allows. */
  function Quota(limit: int): (q: int)
    ensures q >= 1
  {
    if limit >= 1 then limit else 1
  }

  /** The bucket of an address was opened by an allowed request and counts the allowed requests since. */
  lemma {:induction false} BucketCounts(limit: int, window: int, rs: seq<Request>, ip: string)
    requires window >= 0 && Chronological(rs)
    ensures var m := Run(limit, window, rs);
            if ip in m
            then
              && 1 <= m[ip].count <= Quota(limit)
              && Allowed(limit, window, rs, ip, m[ip].reset - window, m[ip].reset) == m[ip].count
              && m[ip].reset - window <= rs[|rs| - 1].time
            else forall from, to :: Allowed(limit, window, rs, ip, from, to) == 0
  {
    if rs != [] {
      var init := rs[..|rs| - 1];
      BucketCounts(limit, window, init, ip);
      var m, last := Run(limit, window, init), rs[|rs| - 1];
      if last.ip == ip && ip in m && last.time > m[ip].reset {
        NoneBefore(limit, window, init, ip, last.time, last.time + window);
      }
    }
  }

  /** Nothing is allowed in an interval that begins after the current bucket has expired. */
  lemma {:induction false} NoneBefore(limit: int, window: int, rs: seq<Request>, ip: string, from: int, to: int)
    requires window >= 0 && Chronological(rs)
    requires var m := Run(limit, window, rs); ip in m ==> m[ip].reset < from
    ensures Allowed(limit, window, rs, ip, from, to) == 0
  {
    if rs != [] {
      NoneBefore(limit, window, rs[..|rs| - 1], ip, from, to);
    }
  }

  lemma {:induction false} NoneYet(limit: int, window: int, rs: seq<Request>, ip: string, from: int, to: int)
    requires forall r <- rs :: r.time < from
    ensures Allowed(limit, window, rs, ip, from, to) == 0
  {
    if rs != [] {
      NoneYet(limit, window, rs[..|rs| - 1], ip, from, to);
    }
  }

  /** How much of the quota of a sliding window [from, from + window] a run can have used, given where
      the current bucket began. */
  lemma {:induction false} SlidingInvariant(limit: int, window: int, rs: seq<Request>, ip: string, from: int)
    requires window >= 0 && Chronological(rs)
    ensures var m, n := Run(limit, window, rs), Allowed(limit, window, rs, ip, from, from + window);
            if ip !in m then n == 0
            else
              var start := m[ip].reset - window;
              && 1 <= m[ip].count <= Quota(limit)
              && start <= rs[|rs| - 1].time
              && (start < from ==> n <= m[ip].count - 1)
              && (from <= start <= from + window ==> n <= Quota(limit) - 1 + m[ip].count)
              && (start > from + window ==> n <= 2 * Quota(limit) - 1)
  {
    if rs != [] {
      var init, last := rs[..|rs| - 1], rs[|rs| - 1];
      SlidingInvariant(limit, window, init, ip, from);
      if last.time < from {
        NoneYet(limit, window, init, ip, from, from + window);
      }
    }
  }

  /** Rate bound: no matter how the requests are timed, every closed interval as long as the window
      has at most 2 * max(1, limit) - 1 allowed requests of one address. */
  lemma SlidingWindowBound(limit: int, window: int, rs: seq<Request>, ip: string, from: int)
    requires window >= 0 && Chronological(rs)
    ensures Allowed(limit, window, rs, ip, from, from + window) <= 2 * Quota(limit) - 1
  {
    SlidingInvariant(limit, window, rs, ip, from);
  }

  // ----- who is allowed

  lemma {:induction false} FewerInside(
    limit: int, window: int, rs: seq<Request>, ip: string, from: int, to: int, from': int, to': int)
    requires from' <= from && to <= to'
    ensures Allowed(limit, window, rs, ip, from, to) <= Allowed(limit, window, rs, ip, from', to')
  {
    if rs != [] {
      FewerInside(limit, window, rs[..|rs| - 1], ip, from, to, from', to');
    }
  }

  lemma {:induction false} SoFar(limit: int, window: int, rs: seq<Request>, ip: string, from: int, t: int, to: int)
    requires t <= to && forall r <- rs :: r.time <= t
    ensures Allowed(limit, window, rs, ip, from, t) == Allowed(limit, window, rs, ip, from, to)
  {
    if rs != [] {
      SoFar(limit, window, rs[..|rs| - 1], ip, from, t, to);
    }
  }

  /** An address that has used less than its quota in the window that ends now is allowed. */
  lemma QuietIsAllowed(limit: int, window: int, rs: seq<Request>, ip: string, t: int)
    requires window >= 0 && Chronological(rs) && forall r <- rs :: r.time <= t
    requires Allowed(limit, window, rs, ip, t - window, t) < Quota(limit)
    ensures LastAllowed(limit, window, rs + [Request(ip, t)])
  {
    assert (rs + [Request(ip, t)])[..|rs|] == rs;
    BucketCounts(limit, window, rs, ip);
    var m := Run(limit, window, rs);
    if ip in m && t <= m[ip].reset {
      SoFar(limit, window, rs, ip, m[ip].reset - window, t, m[ip].reset);
      FewerInside(limit, window, rs, ip, m[ip].reset - window, t, t - window, t);
    }
  }

  /** Of one address, when the window opened that the last request is in, and which one in that window it
      is: a request opens a window if none is open, that is if the last one to open lies more than a window
      back. The limit plays no part. */
  function Place(window: int, rs: seq<Request>, ip: string): (int, nat) {
    if rs == [] then (0, 0)
    else
      var (start, n) := Place(window, rs[..|rs| - 1], ip);
      var last := rs[|rs| - 1];
      if last.ip != ip then (start, n)
      else if n == 0 || last.time > start + window then (last.time, 1)
      else (start, n + 1)
  }

  lemma {:induction false} PlaceInBucket(limit: int, window: int, rs: seq<Request>, ip: string)
    ensures var m, (start, n) := Run(limit, window, rs), Place(window, rs, ip);
            && (ip in m <==> n > 0)
            && (ip in m ==> m[ip] == Bucket(if n < Quota(limit) then n else Quota(limit), start + window))
  {
    if rs != [] {
      PlaceInBucket(limit, window, rs[..|rs| - 1], ip);
    }
  }

  /** Whatever the times of the requests: exactly the first max(1, limit) requests of an address in each of
      its windows are allowed. */
  lemma FirstOfEachWindow(limit: int, window: int, rs: seq<Request>)
    requires rs != []
    ensures LastAllowed(limit, window, rs) <==> Place(window, rs, rs[|rs| - 1].ip).1 <= Quota(limit)
  {
    PlaceInBucket(limit, window, rs[..|rs| - 1], rs[|rs| - 1].ip);
  }

  /** For instance two requests of one address more than two windows apart. */
  lemma LateIsAllowed(limit: int, window: int, ip: string, t: int)
    requires window >= 0 && t > 2 * window
    ensures LastAllowed(limit, window, [Request(ip, 0)] + [Request(ip, t)])
  {
    var rs := [Request(ip, 0)];
    assert rs[..0] == [];
    QuietIsAllowed(limit, window, rs, ip, t);
  }

  // ----- the bound is tight

  function Burst(ip: string, time: int, n: nat): seq<Request> {
    seq(n, _ => Request(ip, time))
  }

  lemma OneMore(limit: int, window: int, rs: seq<Request>, r: Request, from: int, to: int)
    ensures var m := Run(limit, window, rs);
            && Run(limit, window, rs + [r]) == Decide(m, limit, window, r).0
            && Allowed(limit, window, rs + [r], r.ip, from, to)
               == Allowed(limit, window, rs, r.ip, from, to)
                  + if from <= r.time <= to && Decide(m, limit, window, r).1 then 1 else 0
  {
    assert (rs + [r])[..|rs|] == rs;
  }

  /** A burst that fits in the current bucket is allowed as a whole. */
  lemma {:induction false} BurstAllowed(
    limit: int, window: int, rs: seq<Request>, ip: string, time: int, n: nat, from: int, to: int)
    requires var m := Run(limit, window, rs); ip in m && time <= m[ip].reset && m[ip].count + n <= limit
    requires from <= time <= to
    ensures var m, all := Run(limit, window, rs), rs + Burst(ip, time, n);
            && Run(limit, window, all) == m[ip := m[ip].(count := m[ip].count + n)]
            && Allowed(limit, window, all, ip, from, to) == Allowed(limit, window, rs, ip, from, to) + n
  {
    hide Run, Allowed;
    var m, all := Run(limit, window, rs), rs + Burst(ip, time, n);
    if n == 0 {
      assert all == rs;
      assert m[ip := m[ip].(count := m[ip].count + n)] == m;
    } else {
      var before := rs + Burst(ip, time, n - 1);
      assert all == before + [Request(ip, time)];
      BurstAllowed(limit, window, rs, ip, time, n - 1, from, to);
      OneMore(limit, window, before, Request(ip, time), from, to);
    }
  }

  /** One early request, the rest of the quota at the end of its bucket, and a full quota right after. */
  function StraddlingRun(limit: int, window: int, ip: string): seq<Request>
    requires limit >= 1
  {
    LateQuota(limit, window, ip) + [Request(ip, window + 1)] + Burst(ip, window + 1, limit - 1)
  }

  /** A quota used up at the end of its bucket: one request at time 0, the others at time `window`. */
  function LateQuota(limit: int, window: int, ip: string): seq<Request>
    requires limit >= 1
  {
    [] + [Request(ip, 0)] + Burst(ip, window, limit - 1)
  }

  lemma LateQuotaAllowed(limit: int, window: int, ip: string)
    requires limit >= 1 && window >= 1
    ensures Run(limit, window, LateQuota(limit, window, ip)) == map[ip := Bucket(limit, window)]
    ensures Allowed(limit, window, LateQuota(limit, window, ip), ip, window, 2 * window) == limit - 1
  {
    assert Run(limit, window, []) == map[] && Allowed(limit, window, [], ip, window, 2 * window) == 0;
    hide Run, Allowed;
    OneMore(limit, window, [], Request(ip, 0), window, 2 * window);
    BurstAllowed(limit, window, [] + [Request(ip, 0)], ip, window, limit - 1, window, 2 * window);
  }

  /** The documented promise of at most `limit` requests per window holds for the limiter's own
      buckets, not for every window: for each limit there is a run that reaches the bound. */
  lemma BoundIsReached(limit: int, window: int, ip: string)
    requires limit >= 1 && window >= 1
    ensures Chronological(StraddlingRun(limit, window, ip))
    ensures Allowed(limit, window, StraddlingRun(limit, window, ip), ip, window, 2 * window) == 2 * limit - 1
  {
    hide Run, Allowed;
    LateQuotaAllowed(limit, window, ip);
    var late := LateQuota(limit, window, ip);
    var next := Request(ip, window + 1);
    OneMore(limit, window, late, next, window, 2 * window);
    assert Run(limit, window, late + [next])[ip] == Bucket(1, 2 * window + 1);
    BurstAllowed(limit, window, late + [next], ip, window + 1, limit - 1, window, 2 * window);
  }

  /** At most `limit` requests are allowed in the window that begins at `from`. */
  predicate WithinLimit(limit: int, window: int, rs: seq<Request>, ip: string, from: int) {
    Allowed(limit, window, rs, ip, from, from + window) <= limit
  }

  /** So the promise, read for every window of the given length, is kept exactly when the limit is 1. */
  lemma DocumentedBound(limit: int, window: int, ip: string)
    requires limit >= 1 && window >= 1
    ensures limit == 1
       <==> forall rs, from | Chronological(rs) :: WithinLimit(limit, window, rs, ip, from)
  {
    if limit == 1 {
      forall rs, from | Chronological(rs) ensures WithinLimit(limit, window, rs, ip, from) {
        SlidingWindowBound(limit, window, rs, ip, from);
      }
    } else {
      BoundIsReached(limit, window, ip);
      assert !WithinLimit(limit, window, StraddlingRun(limit, window, ip), ip, window);
    }
  }

  // ----- independence

  function OfIP(ip: string): Request -> bool {
    (r: Request) => r.ip == ip
  }

  lemma SameBucketSameStep(
    limit: int, window: int, m: map<string, Bucket>, own: map<string, Bucket>, ip: string, r: Request)
    requires (ip in m <==> ip in own) && (ip in m ==> m[ip] == own[ip])
    ensures var m' := Decide(m, limit, window, r).0;
            var own' := if r.ip == ip then Decide(own, limit, window, r).0 else own;
            (ip in m' <==> ip in own') && (ip in m' ==> m'[ip] == own'[ip])
    ensures r.ip == ip ==> Decide(m, limit, window, r).1 == Decide(own, limit, window, r).1
  {
  }

  /** The bucket of an address, and so the next decision about it, depends on the requests of that
      address only. */
  lemma {:induction false} AddressesAreIndependent(limit: int, window: int, rs: seq<Request>, ip: string, time: int)
    ensures var m, own := Run(limit, window, rs), Run(limit, window, Filter(OfIP(ip), rs));
            && (ip in m <==> ip in own) && (ip in m ==> m[ip] == own[ip])
            && Decide(m, limit, window, Request(ip, time)).1 == Decide(own, limit, window, Request(ip, time)).1
  {
    hide Decide;
    var m, own := Run(limit, window, rs), Run(limit, window, Filter(OfIP(ip), rs));
    if rs != [] {
      var init, last := rs[..|rs| - 1], rs[|rs| - 1];
      AddressesAreIndependent(limit, window, init, ip, time);
      OneMore(limit, window, Filter(OfIP(ip), init), last, 0, 0);
      SameBucketSameStep(limit, window, Run(limit, window, init), Run(limit, window, Filter(OfIP(ip), init)), ip, last);
    }
    SameBucketSameStep(limit, window, m, own, ip, Request(ip, time));
  }
}
