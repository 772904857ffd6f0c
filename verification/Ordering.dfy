/** Sorting by a string key, and the one fact every determinism claim rests on: when the key tells
    the elements apart, a sorted arrangement of a multiset is unique. */
module Ordering {
  import opened Collections
  import opened Text

  /** Sorted by key, neighbours in order. */
  ghost predicate SortedBy<T>(key: T -> string, xs: seq<T>) {
    forall i, j :: 0 <= i < j < |xs| ==> Leq(key(xs[i]), key(xs[j]))
  }

  /** Stable insertion, standing for one step of the library sort. */
  function Insert<T>(key: T -> string, x: T, xs: seq<T>): seq<T> {
    if xs == [] then [x]
    else if Leq(key(x), key(xs[0])) then [x] + xs
    else [xs[0]] + Insert(key, x, xs[1..])
  }

  /** The library's stable sort by key (`sort.SliceStable`, `sort.Strings`). */
  function SortBy<T>(key: T -> string, xs: seq<T>): seq<T> {
    if xs == [] then [] else Insert(key, xs[0], SortBy(key, xs[1..]))
  }

  lemma {:induction false} InsertKeepsElements<T>(key: T -> string, x: T, xs: seq<T>)
    ensures multiset(Insert(key, x, xs)) == multiset{x} + multiset(xs)
  {
    if xs != [] && !Leq(key(x), key(xs[0])) {
      InsertKeepsElements(key, x, xs[1..]);
      assert xs == [xs[0]] + xs[1..];
    }
  }

  lemma LeqIsTransitive(a: string, b: string, c: string)
    requires Leq(a, b) && Leq(b, c)
    ensures Leq(a, c)
  {
    if Less(a, b) && Less(b, c) {
      LessIsTransitive(a, b, c);
    }
  }

  lemma {:induction false} InsertKeepsOrder<T>(key: T -> string, x: T, xs: seq<T>)
    requires SortedBy(key, xs)
    ensures SortedBy(key, Insert(key, x, xs))
  {
    var r := Insert(key, x, xs);
    if xs == [] {
    } else if Leq(key(x), key(xs[0])) {
      forall i, j | 0 <= i < j < |r| ensures Leq(key(r[i]), key(r[j])) {
        if i == 0 && j > 1 {
          LeqIsTransitive(key(x), key(xs[0]), key(xs[j - 1]));
        }
      }
    } else {
      InsertKeepsOrder(key, x, xs[1..]);
      InsertKeepsElements(key, x, xs[1..]);
      LessIsTotal(key(x), key(xs[0]));
      forall i, j | 0 <= i < j < |r| ensures Leq(key(r[i]), key(r[j])) {
        if i == 0 {
          var tail := Insert(key, x, xs[1..]);
          assert r[j] == tail[j - 1] && tail[j - 1] in multiset(tail);
          assert r[j] == x || r[j] in xs[1..];
        }
      }
    }
  }

  lemma NothingIsSorted<T>(key: T -> string)
    ensures SortedBy(key, [])
  {
  }

  lemma {:induction false} SortByIsSortedPermutation<T>(key: T -> string, xs: seq<T>)
    ensures SortedBy(key, SortBy(key, xs))
    ensures multiset(SortBy(key, xs)) == multiset(xs)
    ensures |SortBy(key, xs)| == |xs|
  {
    hide SortedBy, Insert;
    if xs == [] {
      NothingIsSorted(key);
    } else {
      SortByIsSortedPermutation(key, xs[1..]);
      InsertKeepsOrder(key, xs[0], SortBy(key, xs[1..]));
      InsertKeepsElements(key, xs[0], SortBy(key, xs[1..]));
      assert xs == [xs[0]] + xs[1..];
      assert |multiset(SortBy(key, xs))| == |multiset(xs)|;
    }
  }

  /** Equal keys mean equal elements, among the elements of a multiset. */
  ghost predicate TellsApart<T(!new)>(key: T -> string, ms: multiset<T>) {
    forall x, y :: x in ms && y in ms && key(x) == key(y) ==> x == y
  }

  /** Two sorted arrangements of one multiset are the same sequence, if the key tells the elements apart. */
  lemma {:induction false} SortedArrangementIsUnique<T(!new)>(key: T -> string, xs: seq<T>, ys: seq<T>)
    requires SortedBy(key, xs) && SortedBy(key, ys)
    requires multiset(xs) == multiset(ys)
    requires TellsApart(key, multiset(xs))
    ensures xs == ys
  {
    assert |xs| == |multiset(xs)| == |multiset(ys)| == |ys|;
    if xs != [] {
      SortedHeadsAgree(key, xs, ys);
      TailMultiset(xs);
      TailMultiset(ys);
      SortedArrangementIsUnique(key, xs[1..], ys[1..]);
    }
  }

  lemma TailMultiset<T>(xs: seq<T>)
    requires xs != []
    ensures multiset(xs[1..]) == multiset(xs) - multiset{xs[0]}
    ensures xs[0] in multiset(xs)
  {
    assert xs == [xs[0]] + xs[1..];
  }

  lemma SortedHeadsAgree<T(!new)>(key: T -> string, xs: seq<T>, ys: seq<T>)
    requires SortedBy(key, xs) && SortedBy(key, ys)
    requires multiset(xs) == multiset(ys) && xs != [] && ys != []
    requires TellsApart(key, multiset(xs))
    ensures xs[0] == ys[0]
  {
    var x, y := xs[0], ys[0];
    assert x in multiset(ys) && y in multiset(xs);
    assert Leq(key(x), key(y)) && Leq(key(y), key(x)) by {
      var i :| 0 <= i < |ys| && ys[i] == x;
      var j :| 0 <= j < |xs| && xs[j] == y;
    }
    if Less(key(x), key(y)) {
      LessIsAsymmetric(key(x), key(y));
    }
  }

  /** Sorting forgets the order of its input. */
  lemma SortForgetsOrder<T(!new)>(key: T -> string, xs: seq<T>, ys: seq<T>)
    requires multiset(xs) == multiset(ys)
    requires TellsApart(key, multiset(xs))
    ensures SortBy(key, xs) == SortBy(key, ys)
  {
    SortByIsSortedPermutation(key, xs);
    SortByIsSortedPermutation(key, ys);
    SortedArrangementIsUnique(key, SortBy(key, xs), SortBy(key, ys));
  }

  /** Sorting a sorted sequence changes nothing. */
  lemma SortOfSorted<T(!new)>(key: T -> string, xs: seq<T>)
    requires SortedBy(key, xs) && TellsApart(key, multiset(xs))
    ensures SortBy(key, xs) == xs
  {
    SortByIsSortedPermutation(key, xs);
    SortedArrangementIsUnique(key, SortBy(key, xs), xs);
  }

  // ----- Key sets

  /** Strictly increasing, hence free of duplicates. */
  ghost predicate Increasing(keys: seq<string>) {
    forall i, j :: 0 <= i < j < |keys| ==> Less(keys[i], keys[j])
  }

  predicate IsLeast(keys: set<string>, k: string) {
    k in keys && forall other :: other in keys ==> Leq(k, other)
  }

  lemma {:induction false} LeastExists(keys: set<string>)
    requires keys != {}
    ensures exists k :: IsLeast(keys, k)
  {
    var x :| x in keys;
    if keys == {x} {
      assert IsLeast(keys, x);
    } else {
      LeastExists(keys - {x});
      var rest :| IsLeast(keys - {x}, rest);
      LessIsTotal(x, rest);
      var least := if Leq(x, rest) then x else rest;
      forall k | k in keys ensures Leq(least, k) {
        if k != x && least == x {
          LeqIsTransitive(x, rest, k);
        }
      }
      assert IsLeast(keys, least);
    }
  }

  lemma LeastIsUnique(keys: set<string>, a: string, b: string)
    requires IsLeast(keys, a) && IsLeast(keys, b)
    ensures a == b
  {
    if Less(a, b) {
      LessIsAsymmetric(a, b);
    }
  }

  function Least(keys: set<string>): (least: string)
    requires keys != {}
    ensures IsLeast(keys, least)
  {
    LeastExists(keys);
    assert forall a, b | IsLeast(keys, a) && IsLeast(keys, b) :: a == b by {
      forall a, b | IsLeast(keys, a) && IsLeast(keys, b) ensures a == b { LeastIsUnique(keys, a, b); }
    }
    var least :| least in keys && IsLeast(keys, least);
    least
  }

  lemma LeastComesFirst(keys: set<string>, least: string, rest: seq<string>)
    requires IsLeast(keys, least)
    requires (forall k :: k in keys - {least} <==> k in rest) && Increasing(rest) && |rest| == |keys - {least}|
    ensures forall k :: k in keys <==> k in [least] + rest
    ensures Increasing([least] + rest) && |[least] + rest| == |keys|
  {
    assert forall j :: 0 <= j < |rest| ==> rest[j] in rest;
    assert forall j :: 0 <= j < |rest| ==> Less(least, rest[j]);
  }

  /** The keys of a Go map, collected and sorted. */
  function SortedKeys(keys: set<string>): (r: seq<string>)
    ensures forall k :: k in keys <==> k in r
    ensures Increasing(r)
    ensures |r| == |keys|
  {
    if keys == {} then []
    else
      var least := Least(keys);
      var rest := SortedKeys(keys - {least});
      LeastComesFirst(keys, least, rest);
      [least] + rest
  }

  lemma {:induction false} IncreasingIsUnique(xs: seq<string>, ys: seq<string>)
    requires Increasing(xs) && Increasing(ys)
    requires forall k :: k in xs <==> k in ys
    ensures xs == ys
  {
    assert xs != [] ==> xs[0] in ys;
    assert ys != [] ==> ys[0] in xs;
    if xs != [] {
      if xs[0] != ys[0] {
        LessIsAsymmetric(xs[0], ys[0]);
      }
      IncreasingTail(xs);
      IncreasingTail(ys);
      IncreasingIsUnique(xs[1..], ys[1..]);
    }
  }

  lemma IncreasingIsDistinct(xs: seq<string>)
    requires Increasing(xs)
    ensures NoRepeats(xs)
  {
    forall i, j | 0 <= i < j < |xs| ensures xs[i] != xs[j] {
      LessIsIrreflexive(xs[i]);
    }
  }

  lemma IncreasingTail(xs: seq<string>)
    requires xs != [] && Increasing(xs)
    ensures Increasing(xs[1..])
    ensures xs[0] !in xs[1..]
    ensures forall k :: k in xs[1..] <==> k in xs && k != xs[0]
  {
    if xs[0] in xs[1..] {
      LessIsIrreflexive(xs[0]);
    }
    forall k | k in xs && k != xs[0] ensures k in xs[1..] {
      var i :| 0 <= i < |xs| && xs[i] == k;
      assert xs[1..][i - 1] == k;
    }
  }
}
