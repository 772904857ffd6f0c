/** `normalize`: the canonical form in which desired and observed state are compared. Volatile keys
    are dropped at every level and every list is sorted by canonical text. */
module Normalization {
  import opened Ordering
  import opened Values
  import opened Canonical
  import opened Permutations

  function Normalize(volatile: set<string>, v: Json): Json
    decreases v, 1
  {
    match v
    case Obj(fields) => Obj(map k | k in fields && k !in volatile :: Normalize(volatile, fields[k]))
    case Arr(items) => Arr(SortBy(CanonicalText, NormalizeAll(volatile, items)))
    case _ => v
  }

  function NormalizeAll(volatile: set<string>, items: seq<Json>): (r: seq<Json>)
    ensures |r| == |items|
    ensures forall i :: 0 <= i < |items| ==> r[i] == Normalize(volatile, items[i])
    decreases items, 0
  {
    if items == [] then []
    else [Normalize(volatile, items[0])] + NormalizeAll(volatile, items[1..])
  }

  /** Equal up to the order of lists, at any depth, and up to volatile keys. */
  ghost predicate Alike(volatile: set<string>, a: Json, b: Json)
    decreases a, 1
  {
    match a
    case Obj(fields) =>
      && b.Obj?
      && (forall k :: k !in volatile ==> (k in fields <==> k in b.fields))
      && forall k :: k in fields && k !in volatile ==> Alike(volatile, fields[k], b.fields[k])
    case Arr(xs) =>
      b.Arr? && exists p: seq<nat> :: MatchedBy(volatile, xs, b.items, p)
    case _ => a == b
  }

  /** The permutation p pairs the elements of two lists so that each pair is alike. */
  ghost predicate MatchedBy(volatile: set<string>, xs: seq<Json>, ys: seq<Json>, p: seq<nat>)
    decreases xs, 0
  {
    && |xs| == |ys|
    && IsPermutation(p, |xs|)
    && forall i :: 0 <= i < |xs| ==> Alike(volatile, xs[i], ys[p[i]])
  }

  /** Canonical text tells any two values apart, so every sort by it has one outcome. */
  lemma TextTellsApart(ms: multiset<Json>)
    ensures TellsApart(CanonicalText, ms)
  {
    forall x, y | x in ms && y in ms && CanonicalText(x) == CanonicalText(y) ensures x == y {
      CanonicalTextIsInjective(x, y);
    }
  }

  /** The canonical form decides likeness: equal exactly for values that differ in list order and volatile keys only. */
  lemma {:induction false} NormalizeDecidesAlike(volatile: set<string>, a: Json, b: Json)
    ensures Normalize(volatile, a) == Normalize(volatile, b) <==> Alike(volatile, a, b)
    decreases a
  {
    match a
    case Obj(fields) =>
      if b.Obj? {
        forall k | k in fields && k !in volatile && k in b.fields
          ensures Normalize(volatile, fields[k]) == Normalize(volatile, b.fields[k])
             <==> Alike(volatile, fields[k], b.fields[k])
        {
          NormalizeDecidesAlike(volatile, fields[k], b.fields[k]);
        }
        var m, n := Normalize(volatile, a).fields, Normalize(volatile, b).fields;
        assert forall k :: k in m <==> k in fields && k !in volatile;
        assert forall k :: k in n <==> k in b.fields && k !in volatile;
        if m == n {
          assert forall k :: k in m ==> k in n && m[k] == n[k];
        }
        if Alike(volatile, a, b) {
          assert m.Keys == n.Keys;
          assert m == n;
        }
      }
    case Arr(xs) =>
      if b.Arr? {
        forall x, y | x in xs && y in b.items
          ensures Normalize(volatile, x) == Normalize(volatile, y) <==> Alike(volatile, x, y)
        {
          NormalizeDecidesAlike(volatile, x, y);
        }
        if Normalize(volatile, a) == Normalize(volatile, b) {
          EqualListsAreAlike(volatile, xs, b.items);
        }
        if Alike(volatile, a, b) {
          AlikeListsAreEqual(volatile, xs, b.items);
        }
      }
    case _ =>
  }

  /** Normalisation decides likeness between the elements of two lists. */
  ghost predicate Decided(volatile: set<string>, xs: seq<Json>, ys: seq<Json>) {
    forall x, y :: x in xs && y in ys ==>
      (Normalize(volatile, x) == Normalize(volatile, y) <==> Alike(volatile, x, y))
  }

  lemma EqualListsAreAlike(volatile: set<string>, xs: seq<Json>, ys: seq<Json>)
    requires Decided(volatile, xs, ys)
    requires Normalize(volatile, Arr(xs)) == Normalize(volatile, Arr(ys))
    ensures Alike(volatile, Arr(xs), Arr(ys))
  {
    var m, n := NormalizeAll(volatile, xs), NormalizeAll(volatile, ys);
    SortByIsSortedPermutation(CanonicalText, m);
    SortByIsSortedPermutation(CanonicalText, n);
    var p := FromMultiset(m, n);
    forall i | 0 <= i < |xs| ensures Alike(volatile, xs[i], ys[p[i]]) {
      assert m[i] == n[p[i]];
      assert xs[i] in xs && ys[p[i]] in ys;
    }
    assert MatchedBy(volatile, xs, ys, p);
  }

  lemma MatchedNormalsAgree(volatile: set<string>, xs: seq<Json>, ys: seq<Json>, p: seq<nat>)
    requires Decided(volatile, xs, ys) && MatchedBy(volatile, xs, ys, p)
    ensures multiset(NormalizeAll(volatile, xs)) == multiset(NormalizeAll(volatile, ys))
  {
    var m, n := NormalizeAll(volatile, xs), NormalizeAll(volatile, ys);
    forall i | 0 <= i < |m| ensures m[i] == n[p[i]] {
      assert xs[i] in xs && ys[p[i]] in ys;
      assert Alike(volatile, xs[i], ys[p[i]]);
    }
    ToMultiset(m, n, p);
  }

  lemma AlikeListsAreEqual(volatile: set<string>, xs: seq<Json>, ys: seq<Json>)
    requires Decided(volatile, xs, ys) && Alike(volatile, Arr(xs), Arr(ys))
    ensures Normalize(volatile, Arr(xs)) == Normalize(volatile, Arr(ys))
  {
    var m, n := NormalizeAll(volatile, xs), NormalizeAll(volatile, ys);
    var p: seq<nat> :| MatchedBy(volatile, xs, ys, p);
    MatchedNormalsAgree(volatile, xs, ys, p);
    TextTellsApart(multiset(m));
    SortForgetsOrder(CanonicalText, m, n);
  }

  /** A value in canonical form: no volatile key anywhere, every list sorted. */
  ghost predicate IsNormal(volatile: set<string>, v: Json)
    decreases v
  {
    match v
    case Obj(fields) => forall k :: k in fields ==> k !in volatile && IsNormal(volatile, fields[k])
    case Arr(items) => SortedBy(CanonicalText, items) && forall i :: 0 <= i < |items| ==> IsNormal(volatile, items[i])
    case _ => true
  }

  lemma {:induction false} NormalizeIsNormal(volatile: set<string>, v: Json)
    ensures IsNormal(volatile, Normalize(volatile, v))
    decreases v
  {
    match v
    case Obj(fields) =>
      forall k | k in fields && k !in volatile ensures IsNormal(volatile, Normalize(volatile, fields[k])) {
        NormalizeIsNormal(volatile, fields[k]);
      }
    case Arr(items) =>
      var all := NormalizeAll(volatile, items);
      SortByIsSortedPermutation(CanonicalText, all);
      var sorted := SortBy(CanonicalText, all);
      forall i | 0 <= i < |sorted| ensures IsNormal(volatile, sorted[i]) {
        assert sorted[i] in multiset(all);
        var j :| 0 <= j < |items| && all[j] == sorted[i];
        NormalizeIsNormal(volatile, items[j]);
      }
    case _ =>
  }

  lemma {:induction false} NormalIsFixed(volatile: set<string>, v: Json)
    requires IsNormal(volatile, v)
    ensures Normalize(volatile, v) == v
    decreases v
  {
    match v
    case Obj(fields) =>
      forall k | k in fields ensures Normalize(volatile, fields[k]) == fields[k] {
        NormalIsFixed(volatile, fields[k]);
      }
      assert Normalize(volatile, v).fields == fields;
    case Arr(items) =>
      forall i | 0 <= i < |items| ensures Normalize(volatile, items[i]) == items[i] {
        NormalIsFixed(volatile, items[i]);
      }
      assert NormalizeAll(volatile, items) == items;
      TextTellsApart(multiset(items));
      SortOfSorted(CanonicalText, items);
    case _ =>
  }

  /** Normalising twice is normalising once. */
  lemma NormalizeIsIdempotent(volatile: set<string>, v: Json)
    ensures Normalize(volatile, Normalize(volatile, v)) == Normalize(volatile, v)
  {
    NormalizeIsNormal(volatile, v);
    NormalIsFixed(volatile, Normalize(volatile, v));
  }
}
