/** Sequences without repeats, and the pigeonholes that size equalities stand for. */
module Collections {
  ghost predicate NoRepeats<T>(xs: seq<T>) {
    forall i, j :: 0 <= i < j < |xs| ==> xs[i] != xs[j]
  }

  lemma {:induction false} OnceEach<T>(xs: seq<T>, x: T)
    requires NoRepeats(xs)
    ensures multiset(xs)[x] == if x in xs then 1 else 0
  {
    if xs != [] {
      var tail := xs[1..];
      assert xs == [xs[0]] + tail;
      assert xs[0] !in tail;
      OnceEach(tail, x);
    }
  }

  lemma RearrangedNoRepeats<T>(xs: seq<T>, ys: seq<T>)
    requires NoRepeats(xs) && multiset(xs) == multiset(ys)
    ensures NoRepeats(ys)
  {
    forall i, j | 0 <= i < j < |ys| ensures ys[i] != ys[j] {
      OnceEach(xs, ys[i]);
      assert ys == ys[..j] + [ys[j]] + ys[j + 1..];
      assert ys[..j][i] in multiset(ys[..j]);
    }
  }

  /** Distinct members of a set, as many as the set has, are all of it. */
  lemma {:induction false} DistinctFillSet<T>(xs: seq<T>, s: set<T>)
    requires NoRepeats(xs) && |xs| == |s| && forall x :: x in xs ==> x in s
    ensures forall y :: y in s ==> y in xs
  {
    if xs != [] {
      var x, rest := xs[0], xs[1..];
      assert xs == [x] + rest;
      assert x !in rest;
      DistinctFillSet(rest, s - {x});
    }
  }

  /** A subset as large as the whole is the whole. */
  lemma SubsetOfSameSize<T>(part: set<T>, whole: set<T>)
    requires part <= whole && |part| == |whole|
    ensures part == whole
  {
    assert |whole - part| == |whole| - |part|;
    assert whole == part + (whole - part);
  }

  lemma Associate<T>(xs: seq<T>, ys: seq<T>, zs: seq<T>)
    ensures (xs + ys) + zs == xs + (ys + zs)
  {
  }

  /** The seen-set after the first n values, while none of them repeats. */
  ghost predicate SeenOnce<T(!new)>(xs: seq<T>, n: nat, seen: set<T>) {
    n <= |xs| && NoRepeats(xs[..n]) && forall x :: x in seen <==> x in xs[..n]
  }

  lemma SeenNone<T(!new)>(xs: seq<T>)
    ensures SeenOnce(xs, 0, {})
  {
  }

  lemma SeeNext<T(!new)>(xs: seq<T>, n: nat, seen: set<T>)
    requires n < |xs| && SeenOnce(xs, n, seen)
    ensures xs[n] in seen ==> !NoRepeats(xs)
    ensures xs[n] !in seen ==> SeenOnce(xs, n + 1, seen + {xs[n]})
  {
    assert xs[..n + 1] == xs[..n] + [xs[n]];
    if xs[n] in seen {
      var i :| 0 <= i < n && xs[..n][i] == xs[n];
      assert xs[i] == xs[n];
    }
  }

  lemma SeenAll<T(!new)>(xs: seq<T>, seen: set<T>)
    requires SeenOnce(xs, |xs|, seen)
    ensures NoRepeats(xs)
  {
    assert xs[..|xs|] == xs;
  }
}
