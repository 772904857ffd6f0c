/** Permutations of index ranges, and their link to multisets. */
module Permutations {
  ghost predicate IsPermutation(p: seq<nat>, n: nat) {
    && |p| == n
    && (forall i :: 0 <= i < n ==> p[i] < n)
    && (forall i, j :: 0 <= i < j < n ==> p[i] != p[j])
  }

  function Without<T>(xs: seq<T>, j: nat): seq<T>
    requires j < |xs|
  {
    xs[..j] + xs[j + 1..]
  }

  lemma WithoutMultiset<T>(xs: seq<T>, j: nat)
    requires j < |xs|
    ensures multiset(xs) == multiset(Without(xs, j)) + multiset{xs[j]}
  {
    assert xs == xs[..j] + ([xs[j]] + xs[j + 1..]);
  }

  lemma RemoveCommon<T>(xs: seq<T>, ys: seq<T>, j: nat)
    requires xs != [] && j < |ys| && xs[0] == ys[j]
    requires multiset(xs) == multiset(ys)
    ensures multiset(xs[1..]) == multiset(Without(ys, j))
  {
    WithoutMultiset(ys, j);
    WithoutMultiset(xs, 0);
    assert Without(xs, 0) == xs[1..];
    assert multiset(xs[1..]) == multiset(xs) - multiset{xs[0]};
    assert multiset(Without(ys, j)) == multiset(ys) - multiset{ys[j]};
  }

  /** Position j is taken out of a range: later positions move down by one. */
  function Shift(q: nat, j: nat): nat
    requires q != j
  {
    if q < j then q else q - 1
  }

  function Unshift(q: nat, j: nat): nat {
    if q < j then q else q + 1
  }

  lemma {:induction false} FromMultiset<T>(xs: seq<T>, ys: seq<T>) returns (p: seq<nat>)
    requires multiset(xs) == multiset(ys)
    ensures |xs| == |ys|
    ensures IsPermutation(p, |xs|)
    ensures forall i :: 0 <= i < |xs| ==> xs[i] == ys[p[i]]
  {
    assert |xs| == |multiset(xs)| == |multiset(ys)| == |ys|;
    if xs == [] {
      p := [];
    } else {
      assert xs[0] in multiset(ys);
      var j :| 0 <= j < |ys| && ys[j] == xs[0];
      var ys' := Without(ys, j);
      RemoveCommon(xs, ys, j);
      var rest := FromMultiset(xs[1..], ys');
      p := InsertFirst(rest, j);
      forall i | 0 <= i < |xs| ensures xs[i] == ys[p[i]] {
        if i > 0 {
          assert xs[1..][i - 1] == ys'[rest[i - 1]];
        }
      }
    }
  }

  /** The permutation that sends 0 to j and the other positions as `rest` does around j. */
  lemma InsertFirst(rest: seq<nat>, j: nat) returns (p: seq<nat>)
    requires IsPermutation(rest, |rest|) && j <= |rest|
    ensures IsPermutation(p, |rest| + 1)
    ensures p[0] == j && forall i :: 0 < i < |p| ==> p[i] == Unshift(rest[i - 1], j)
  {
    p := [j] + seq(|rest|, i requires 0 <= i < |rest| => Unshift(rest[i], j));
  }

  lemma {:induction false} ToMultiset<T>(xs: seq<T>, ys: seq<T>, p: seq<nat>)
    requires |xs| == |ys| && IsPermutation(p, |xs|)
    requires forall i :: 0 <= i < |xs| ==> xs[i] == ys[p[i]]
    ensures multiset(xs) == multiset(ys)
  {
    if xs != [] {
      var j := p[0];
      var rest := seq(|xs| - 1, i requires 0 <= i < |xs| - 1 => Shift(p[i + 1], j));
      var ys' := Without(ys, j);
      forall i | 0 <= i < |xs| - 1 ensures rest[i] < |ys'| && xs[1..][i] == ys'[rest[i]] {
        assert p[i + 1] != p[0];
      }
      ToMultiset(xs[1..], ys', rest);
      WithoutMultiset(ys, j);
      WithoutMultiset(xs, 0);
      assert Without(xs, 0) == xs[1..];
    }
  }
}
