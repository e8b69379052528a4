/** Filtering, mapping and flattening of sequences, and the size of a subset. The recursion peels the last element,
    which is how the scan loops of the modelled program build their results. */
module Seqs {

  function Filter<T>(keep: T -> bool, s: seq<T>): (r: seq<T>)
    ensures forall x <- r :: x in s && keep(x)
    ensures |r| <= |s|
  {
    if s == [] then []
    else
      var rest := Filter(keep, s[..|s| - 1]);
      if keep(s[|s| - 1]) then rest + [s[|s| - 1]] else rest
  }

  function Map<T, U>(f: T -> U, s: seq<T>): (r: seq<U>)
    ensures |r| == |s|
    ensures forall i | 0 <= i < |s| :: r[i] == f(s[i])
  {
    seq(|s|, i requires 0 <= i < |s| => f(s[i]))
  }

  function FlatMap<T, U>(f: T -> seq<U>, s: seq<T>): seq<U> {
    if s == [] then [] else FlatMap(f, s[..|s| - 1]) + f(s[|s| - 1])
  }

  lemma {:induction false} FilterConcat<T>(keep: T -> bool, a: seq<T>, b: seq<T>)
    ensures Filter(keep, a + b) == Filter(keep, a) + Filter(keep, b)
  {
    if b == [] {
      assert a + b == a;
    } else {
      assert (a + b)[..|a + b| - 1] == a + b[..|b| - 1];
      FilterConcat(keep, a, b[..|b| - 1]);
    }
  }

  lemma {:induction false} FilterAll<T>(keep: T -> bool, s: seq<T>)
    requires forall x <- s :: keep(x)
    ensures Filter(keep, s) == s
  {
    if s != [] {
      FilterAll(keep, s[..|s| - 1]);
      assert s == s[..|s| - 1] + [s[|s| - 1]];
    }
  }

  lemma {:induction false} FilterNone<T>(keep: T -> bool, s: seq<T>)
    requires forall x <- s :: !keep(x)
    ensures Filter(keep, s) == []
  {
    if s != [] {
      FilterNone(keep, s[..|s| - 1]);
    }
  }

  /** Filters commute. */
  lemma {:induction false} FilterCommutes<T>(p: T -> bool, q: T -> bool, s: seq<T>)
    ensures Filter(p, Filter(q, s)) == Filter(q, Filter(p, s))
  {
    if s != [] {
      var init, last := s[..|s| - 1], s[|s| - 1];
      FilterCommutes(p, q, init);
      FilterConcat(p, Filter(q, init), [last]);
      FilterConcat(q, Filter(p, init), [last]);
      assert [last][..0] == [];
    }
  }

  /** A second filter that is implied by the first one changes nothing, and one that implies it wins. */
  lemma {:induction false} FilterAbsorbs<T>(weak: T -> bool, strong: T -> bool, s: seq<T>)
    requires forall x <- s :: strong(x) ==> weak(x)
    ensures Filter(strong, Filter(weak, s)) == Filter(strong, s)
  {
    if s != [] {
      var init, last := s[..|s| - 1], s[|s| - 1];
      FilterAbsorbs(weak, strong, init);
      if weak(last) {
        assert Filter(weak, s) == Filter(weak, init) + [last];
      }
    }
  }

  lemma {:induction false} FilterMap<T, U>(keep: U -> bool, f: T -> U, s: seq<T>, keep': T -> bool)
    requires forall x <- s :: keep'(x) == keep(f(x))
    ensures Filter(keep, Map(f, s)) == Map(f, Filter(keep', s))
  {
    if s != [] {
      var init, last := s[..|s| - 1], s[|s| - 1];
      FilterMap(keep, f, init, keep');
      assert Map(f, s)[..|s| - 1] == Map(f, init);
    }
  }

  lemma {:induction false} FlatMapConcat<T, U>(f: T -> seq<U>, a: seq<T>, b: seq<T>)
    ensures FlatMap(f, a + b) == FlatMap(f, a) + FlatMap(f, b)
  {
    if b == [] {
      assert a + b == a;
    } else {
      assert (a + b)[..|a + b| - 1] == a + b[..|b| - 1];
      FlatMapConcat(f, a, b[..|b| - 1]);
    }
  }

  /** Elements that contribute nothing may be filtered out first. */
  lemma {:induction false} FlatMapFilter<T, U>(f: T -> seq<U>, keep: T -> bool, s: seq<T>)
    requires forall x <- s :: !keep(x) ==> f(x) == []
    ensures FlatMap(f, Filter(keep, s)) == FlatMap(f, s)
  {
    if s != [] {
      FlatMapFilter(f, keep, s[..|s| - 1]);
    }
  }

  /** Flattening after a map that does not change what each element contributes. */
  lemma {:induction false} FlatMapMap<T, U>(f: T -> seq<U>, g: T -> T, s: seq<T>)
    requires forall x <- s :: f(g(x)) == f(x)
    ensures FlatMap(f, Map(g, s)) == FlatMap(f, s)
  {
    if s != [] {
      assert Map(g, s)[..|s| - 1] == Map(g, s[..|s| - 1]);
      FlatMapMap(f, g, s[..|s| - 1]);
    }
  }

  lemma {:induction false} FlatMapNone<T, U>(f: T -> seq<U>, s: seq<T>)
    requires forall x <- s :: f(x) == []
    ensures FlatMap(f, s) == []
  {
    if s != [] {
      FlatMapNone(f, s[..|s| - 1]);
    }
  }

  /** Filtering the elements filters what they contribute, when `keep` decides whole contributions. */
  lemma {:induction false} FlatMapFilterOut<T, U>(f: T -> seq<U>, keep: T -> bool, out: U -> bool, s: seq<T>)
    requires forall x <- s :: Filter(out, f(x)) == if keep(x) then f(x) else []
    ensures FlatMap(f, Filter(keep, s)) == Filter(out, FlatMap(f, s))
  {
    if s != [] {
      var init, last := s[..|s| - 1], s[|s| - 1];
      FlatMapFilterOut(f, keep, out, init);
      FilterConcat(out, FlatMap(f, init), f(last));
    }
  }

  lemma {:induction false} FilterSame<T>(p: T -> bool, q: T -> bool, s: seq<T>)
    requires forall x <- s :: p(x) == q(x)
    ensures Filter(p, s) == Filter(q, s)
  {
    if s != [] {
      FilterSame(p, q, s[..|s| - 1]);
    }
  }

  /** Every flattened element comes from one of the sources. */
  lemma {:induction false} FlatMapFrom<T, U>(f: T -> seq<U>, s: seq<T>)
    ensures forall y <- FlatMap(f, s) :: exists x <- s :: y in f(x)
  {
    if s != [] {
      FlatMapFrom(f, s[..|s| - 1]);
      assert s[|s| - 1] in s;
    }
  }

  lemma FilterAppend<T>(keep: T -> bool, s: seq<T>, x: T)
    ensures Filter(keep, s + [x]) == if keep(x) then Filter(keep, s) + [x] else Filter(keep, s)
  {
    assert (s + [x])[..|s|] == s;
  }

  lemma FlatMapAppend<T, U>(f: T -> seq<U>, s: seq<T>, x: T)
    ensures FlatMap(f, s + [x]) == FlatMap(f, s) + f(x)
  {
    assert (s + [x])[..|s|] == s;
  }

  lemma SubsetSize<T>(a: set<T>, b: set<T>)
    requires a <= b
    ensures |a| <= |b|
  {
    assert b == a + (b - a);
  }

  lemma SameBehind<T>(before: seq<T>, x: seq<T>, y: seq<T>, z: seq<T>)
    ensures before + x == before + y + z <==> x == y + z
  {
    assert (before + x)[|before|..] == x;
    assert (before + y + z)[|before|..] == y + z;
  }

  lemma SameBetween<T>(before: seq<T>, x: seq<T>, y: seq<T>, z: seq<T>)
    ensures before + x + z == before + y + z <==> x == y
  {
    if before + x + z == before + y + z {
      assert |x| == |y|;
      assert (before + x + z)[|before|..|before| + |x|] == x && (before + y + z)[|before|..|before| + |y|] == y;
    }
  }
}
