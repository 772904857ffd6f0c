/** Results gathered over a list of keys, and what happens to them when the keys come in another order. */
module Gathering {
  import opened Collections
  import opened Permutations

  function Gather<K, V>(keys: seq<K>, at: K -> seq<V>): seq<V> {
    if keys == [] then [] else at(keys[0]) + Gather(keys[1..], at)
  }

  lemma {:induction false} GatherConcat<K, V>(xs: seq<K>, ys: seq<K>, at: K -> seq<V>)
    ensures Gather(xs + ys, at) == Gather(xs, at) + Gather(ys, at)
  {
    if xs == [] {
      assert xs + ys == ys;
    } else {
      assert (xs + ys)[1..] == xs[1..] + ys;
      GatherConcat(xs[1..], ys, at);
    }
  }

  lemma GatherOne<K, V>(xs: seq<K>, x: K, at: K -> seq<V>)
    ensures Gather(xs + [x], at) == Gather(xs, at) + at(x)
  {
    GatherConcat(xs, [x], at);
    assert [x][1..] == [];
  }

  lemma {:induction false} GatherIsEmpty<K, V>(keys: seq<K>, at: K -> seq<V>)
    ensures Gather(keys, at) == [] <==> forall k :: k in keys ==> at(k) == []
  {
    if keys != [] {
      GatherIsEmpty(keys[1..], at);
      assert keys == [keys[0]] + keys[1..];
    }
  }

  /** What is gathered is what some key yields. */
  lemma {:induction false} InGather<K, V>(keys: seq<K>, at: K -> seq<V>, v: V)
    ensures v in Gather(keys, at) <==> exists k :: k in keys && v in at(k)
  {
    if keys != [] {
      InGather(keys[1..], at, v);
      assert keys == [keys[0]] + keys[1..];
    }
  }

  /** Visiting the keys in another order gathers the same violations. */
  lemma {:induction false} GatherForgetsOrder<K, V>(xs: seq<K>, ys: seq<K>, at: K -> seq<V>)
    requires multiset(xs) == multiset(ys)
    ensures multiset(Gather(xs, at)) == multiset(Gather(ys, at))
  {
    assert |xs| == |multiset(xs)| == |multiset(ys)| == |ys|;
    if xs != [] {
      assert xs[0] in multiset(ys);
      var j :| 0 <= j < |ys| && ys[j] == xs[0];
      RemoveCommon(xs, ys, j);
      GatherForgetsOrder(xs[1..], Without(ys, j), at);
      GatherWithout(ys, j, at);
    }
  }

  lemma GatherWithout<K, V>(ys: seq<K>, j: nat, at: K -> seq<V>)
    requires j < |ys|
    ensures multiset(Gather(ys, at)) == multiset(at(ys[j])) + multiset(Gather(Without(ys, j), at))
  {
    hide Gather;
    assert ys == (ys[..j] + [ys[j]]) + ys[j + 1..];
    GatherConcat(ys[..j] + [ys[j]], ys[j + 1..], at);
    GatherOne(ys[..j], ys[j], at);
    GatherConcat(ys[..j], ys[j + 1..], at);
  }

  /** Two duplicate-free listings of one set are permutations of each other. */
  lemma ListingsAgree(xs: seq<string>, ys: seq<string>)
    requires NoRepeats(xs) && NoRepeats(ys)
    requires forall k :: k in xs <==> k in ys
    ensures multiset(xs) == multiset(ys)
  {
    forall k ensures multiset(xs)[k] == multiset(ys)[k] {
      OnceEach(xs, k);
      OnceEach(ys, k);
    }
  }
}
