/** The entries of a difference by key path: which there are, of which kind, and what they record. */
module Differences {
  import opened Collections
  import opened Wrappers
  import opened Ordering
  import opened Values
  import opened Canonical
  import opened Normalization
  import opened KeyPaths
  import opened Drift

  /** Above a place, both sides are objects, and the observed ones are known. */
  ghost predicate ComparedAbove(desired: Json, observed: Json, keys: seq<string>) {
    forall n :: 0 <= n < |keys| ==> BothObjectsAt(desired, observed, keys[..n])
  }

  ghost predicate BothObjectsAt(desired: Json, observed: Json, keys: seq<string>) {
    var d, o := ValueAt(desired, keys), ValueAt(observed, keys);
    d.Some? && d.value.Obj? && o.Some? && o.value.Obj? && !IsUnknown(o.value)
  }

  /** What a comparison of two states finds at a place: what is desired there and not observed is missing,
      what is observed and not desired is extra, what is observed as unknown is unknown, and two other values
      that are not both objects are changed when they differ. */
  ghost predicate DiffersAt(desired: Json, observed: Json, keys: seq<string>, kind: Kind) {
    var d, o := ValueAt(desired, keys), ValueAt(observed, keys);
    ComparedAbove(desired, observed, keys) &&
    match kind
    case Missing => d.Some? && o.None?
    case Extra => d.None? && o.Some?
    case Unknown => d.Some? && o.Some? && IsUnknown(o.value)
    case Changed => d.Some? && o.Some? && !IsUnknown(o.value) && d != o && !(d.value.Obj? && o.value.Obj?)
  }

  /** An entry stands where the states differ and records what they hold there, but for an unknown observation. */
  ghost predicate IsDifference(desired: Json, observed: Json, c: Change) {
    && DiffersAt(desired, observed, c.keys, c.kind)
    && c.desired == ValueAt(desired, c.keys)
    && c.observed == if c.kind == Kind.Unknown then None else ValueAt(observed, c.keys)
  }

  lemma InUnder(key: string, changes: seq<Change>, c: Change)
    ensures c in Under(key, changes) <==>
      c.keys != [] && c.keys[0] == key && c.(keys := c.keys[1..]) in changes
  {
    var under := Under(key, changes);
    if c in under {
      var i :| 0 <= i < |under| && under[i] == c;
      assert c.keys[1..] == changes[i].keys;
      assert c.(keys := c.keys[1..]) == changes[i];
    }
    if c.keys != [] && c.keys[0] == key && c.(keys := c.keys[1..]) in changes {
      var i :| 0 <= i < |changes| && changes[i] == c.(keys := c.keys[1..]);
      assert [key] + c.keys[1..] == c.keys;
      assert under[i] == c;
    }
  }

  lemma ComparedBelow(desired: Json, observed: Json, key: string, rest: seq<string>)
    requires BothObjectsAt(desired, observed, [])
    requires key in desired.fields && key in observed.fields
    ensures ComparedAbove(desired, observed, [key] + rest) <==>
      ComparedAbove(desired.fields[key], observed.fields[key], rest)
  {
    var keys := [key] + rest;
    forall n | 0 <= n <= |rest|
      ensures BothObjectsAt(desired, observed, keys[..n + 1]) <==>
        BothObjectsAt(desired.fields[key], observed.fields[key], rest[..n])
    {
      assert keys[..n + 1][1..] == rest[..n];
    }
    if ComparedAbove(desired, observed, keys) {
      forall n | 0 <= n < |rest| ensures BothObjectsAt(desired.fields[key], observed.fields[key], rest[..n]) {
        assert BothObjectsAt(desired, observed, keys[..n + 1]);
      }
    }
    if ComparedAbove(desired.fields[key], observed.fields[key], rest) {
      forall n | 0 <= n < |keys| ensures BothObjectsAt(desired, observed, keys[..n]) {
        if n > 0 {
          assert BothObjectsAt(desired.fields[key], observed.fields[key], rest[..n - 1]);
        } else {
          assert keys[..0] == [];
        }
      }
    }
  }

  /** A difference below a key that both sides have is one of the two values under the key. */
  lemma DifferenceBelow(desired: Json, observed: Json, c: Change)
    requires BothObjectsAt(desired, observed, []) && c.keys != []
    requires c.keys[0] in desired.fields && c.keys[0] in observed.fields
    ensures IsDifference(desired, observed, c) <==>
      IsDifference(desired.fields[c.keys[0]], observed.fields[c.keys[0]], c.(keys := c.keys[1..]))
  {
    assert c.keys == [c.keys[0]] + c.keys[1..];
    ComparedBelow(desired, observed, c.keys[0], c.keys[1..]);
  }

  /** At a key that only one side has, the entry stands there and not below. */
  lemma DifferenceAtOneSide(desired: Json, observed: Json, c: Change)
    requires BothObjectsAt(desired, observed, []) && c.keys != []
    requires !(c.keys[0] in desired.fields && c.keys[0] in observed.fields)
    ensures var key := c.keys[0];
      IsDifference(desired, observed, c) <==>
        (key in desired.fields && c == Change([key], Missing, Some(desired.fields[key]), None)) ||
        (key in observed.fields && c == Change([key], Extra, None, Some(observed.fields[key])))
  {
    var key := c.keys[0];
    ValueAtOne(desired, key);
    ValueAtOne(observed, key);
    if |c.keys| == 1 {
      assert c.keys == [key];
      assert ComparedAbove(desired, observed, c.keys) by {
        assert c.keys[..0] == [];
      }
    } else {
      assert c.keys[..1] == [key];
      assert !BothObjectsAt(desired, observed, c.keys[..1]);
    }
  }

  lemma RootDifference(desired: Json, observed: Json, c: Change)
    requires !BothObjectsAt(desired, observed, [])
    ensures IsDifference(desired, observed, c) ==> c.keys == []
  {
    if c.keys != [] {
      assert c.keys[..0] == [];
    }
  }

  lemma {:induction false} InDiffKeys(
    volatile: set<string>, desired: Json, observed: Json, keys: seq<string>, c: Change)
    requires desired.Obj? && observed.Obj?
    ensures c in DiffKeys(volatile, desired, observed, keys) <==>
      exists k :: k in keys && c in DiffAt(volatile, desired, observed, k)
    decreases |keys|
  {
    hide DiffAt;
    if keys != [] {
      var here, below := DiffAt(volatile, desired, observed, keys[0]), DiffKeys(volatile, desired, observed, keys[1..]);
      assert DiffKeys(volatile, desired, observed, keys) == here + below;
      assert c in here + below <==> c in here || c in below;
      InDiffKeys(volatile, desired, observed, keys[1..], c);
      if c in here {
        assert keys[0] in keys;
      } else if c in below {
        var k :| k in keys[1..] && c in DiffAt(volatile, desired, observed, k);
        assert k in keys;
      }
      if k :| k in keys && c in DiffAt(volatile, desired, observed, k) {
        assert k == keys[0] || k in keys[1..];
      }
    }
  }

  lemma {:induction false} InDiffAt(volatile: set<string>, desired: Json, observed: Json, key: string, c: Change)
    requires BothObjectsAt(desired, observed, [])
    requires HasNoVolatile(volatile, desired) && HasNoVolatile(volatile, observed)
    ensures c in DiffAt(volatile, desired, observed, key) <==>
      c.keys != [] && c.keys[0] == key && IsDifference(desired, observed, c)
    decreases desired, 0
  {
    hide Diff, IsDifference, BothObjectsAt;
    assert desired.Obj? && observed.Obj? by { RootObjects(desired, observed); }
    if key in desired.fields && key in observed.fields {
      InUnder(key, Diff(volatile, desired.fields[key], observed.fields[key]), c);
      if c.keys != [] && c.keys[0] == key {
        DiffExactly(volatile, desired.fields[key], observed.fields[key], c.(keys := c.keys[1..]));
        DifferenceBelow(desired, observed, c);
      }
    } else if c.keys != [] && c.keys[0] == key {
      DifferenceAtOneSide(desired, observed, c);
    }
  }

  lemma RootObjects(desired: Json, observed: Json)
    ensures BothObjectsAt(desired, observed, []) <==> desired.Obj? && observed.Obj? && !IsUnknown(observed)
  {
  }

  lemma DifferenceHasKey(volatile: set<string>, desired: Json, observed: Json, c: Change)
    requires BothObjectsAt(desired, observed, [])
    requires HasNoVolatile(volatile, desired) && HasNoVolatile(volatile, observed)
    ensures desired.Obj? && observed.Obj?
    ensures IsDifference(desired, observed, c) ==>
      c.keys != [] && c.keys[0] in ComparedKeys(volatile, desired, observed)
  {
    if c.keys != [] && c.keys[0] !in desired.fields && c.keys[0] !in observed.fields {
      DifferenceAtOneSide(desired, observed, c);
    }
  }

  lemma {:induction false} DiffOfObjects(volatile: set<string>, desired: Json, observed: Json, c: Change)
    requires BothObjectsAt(desired, observed, [])
    requires HasNoVolatile(volatile, desired) && HasNoVolatile(volatile, observed)
    ensures c in Diff(volatile, desired, observed) <==> IsDifference(desired, observed, c)
    decreases desired, 1
  {
    hide DiffKeys, DiffAt, IsUnknown, HasNoVolatile, CanonicalText, IsDifference, BothObjectsAt;
    RootObjects(desired, observed);
    DifferenceHasKey(volatile, desired, observed, c);
    var keys := ComparedKeys(volatile, desired, observed);
    InDiffKeys(volatile, desired, observed, keys, c);
    forall k | k in keys
      ensures c in DiffAt(volatile, desired, observed, k) <==>
        c.keys != [] && c.keys[0] == k && IsDifference(desired, observed, c)
    {
      InDiffAt(volatile, desired, observed, k, c);
    }
  }

  /** A difference holds exactly the entries that the two states call for. */
  lemma {:induction false} DiffExactly(volatile: set<string>, desired: Json, observed: Json, c: Change)
    requires HasNoVolatile(volatile, desired) && HasNoVolatile(volatile, observed)
    ensures c in Diff(volatile, desired, observed) <==> IsDifference(desired, observed, c)
    decreases desired, 2
  {
    hide DiffKeys, DiffAt, IsUnknown, HasNoVolatile, CanonicalText;
    RootObjects(desired, observed);
    if BothObjectsAt(desired, observed, []) {
      DiffOfObjects(volatile, desired, observed, c);
    } else {
      RootDifference(desired, observed, c);
      if CanonicalText(desired) == CanonicalText(observed) {
        CanonicalTextIsInjective(desired, observed);
      }
    }
  }

  // ----- One entry for each place

  function Places(changes: seq<Change>): (r: seq<seq<string>>)
    ensures |r| == |changes| && forall i :: 0 <= i < |r| ==> r[i] == changes[i].keys
  {
    seq(|changes|, i requires 0 <= i < |changes| => changes[i].keys)
  }

  lemma UnderIsApart(key: string, changes: seq<Change>)
    requires NoRepeats(Places(changes))
    ensures NoRepeats(Places(Under(key, changes)))
  {
    var under := Under(key, changes);
    forall i, j | 0 <= i < j < |under| ensures under[i].keys != under[j].keys {
      assert Places(changes)[i] != Places(changes)[j];
      assert under[i].keys[1..] == changes[i].keys && under[j].keys[1..] == changes[j].keys;
    }
  }

  lemma {:induction false} KeysAreApart(volatile: set<string>, desired: Json, observed: Json, keys: seq<string>)
    requires BothObjectsAt(desired, observed, []) && desired.Obj? && observed.Obj? && NoRepeats(keys)
    requires HasNoVolatile(volatile, desired) && HasNoVolatile(volatile, observed)
    ensures NoRepeats(Places(DiffKeys(volatile, desired, observed, keys)))
    decreases desired, 0, |keys|
  {
    hide DiffAt, IsDifference, BothObjectsAt, HasNoVolatile;
    if keys != [] {
      var key, rest := keys[0], keys[1..];
      var here, below := DiffAt(volatile, desired, observed, key), DiffKeys(volatile, desired, observed, rest);
      AtKeyIsApart(volatile, desired, observed, key);
      KeysAreApart(volatile, desired, observed, rest);
      forall c, e | c in here && e in below ensures c.keys != e.keys {
        InDiffKeys(volatile, desired, observed, rest, e);
        var k :| k in rest && e in DiffAt(volatile, desired, observed, k);
        InDiffAt(volatile, desired, observed, key, c);
        InDiffAt(volatile, desired, observed, k, e);
      }
      ApartConcat(here, below);
    }
  }

  lemma ApartConcat(xs: seq<Change>, ys: seq<Change>)
    requires NoRepeats(Places(xs)) && NoRepeats(Places(ys))
    requires forall c, e :: c in xs && e in ys ==> c.keys != e.keys
    ensures NoRepeats(Places(xs + ys))
  {
    var all := xs + ys;
    forall i, j | 0 <= i < j < |all| ensures all[i].keys != all[j].keys {
      if j < |xs| {
        assert Places(xs)[i] != Places(xs)[j];
      } else if i >= |xs| {
        assert Places(ys)[i - |xs|] != Places(ys)[j - |xs|];
      } else {
        assert all[i] in xs && all[j] in ys;
      }
    }
  }

  lemma {:induction false} AtKeyIsApart(volatile: set<string>, desired: Json, observed: Json, key: string)
    requires desired.Obj? && observed.Obj?
    requires HasNoVolatile(volatile, desired) && HasNoVolatile(volatile, observed)
    ensures NoRepeats(Places(DiffAt(volatile, desired, observed, key)))
    decreases desired, 0, 0
  {
    hide Diff;
    if key in desired.fields && key in observed.fields && key !in volatile {
      PlacesAreApart(volatile, desired.fields[key], observed.fields[key]);
      UnderIsApart(key, Diff(volatile, desired.fields[key], observed.fields[key]));
    }
  }

  /** No two entries of a difference stand at one place. */
  lemma {:induction false} PlacesAreApart(volatile: set<string>, desired: Json, observed: Json)
    requires HasNoVolatile(volatile, desired) && HasNoVolatile(volatile, observed)
    ensures NoRepeats(Places(Diff(volatile, desired, observed)))
    decreases desired, 1, 0
  {
    hide DiffKeys, HasNoVolatile, IsUnknown, CanonicalText;
    RootObjects(desired, observed);
    if BothObjectsAt(desired, observed, []) {
      var keys := ComparedKeys(volatile, desired, observed);
      IncreasingIsDistinct(keys);
      KeysAreApart(volatile, desired, observed, keys);
    }
  }

  // ----- Counting places

  ghost function PlacesOf(changes: seq<Change>, kind: Kind): set<seq<string>> {
    set c | c in changes && c.kind == kind :: c.keys
  }

  function Kinds(changes: seq<Change>): (r: seq<Kind>)
    ensures |r| == |changes|
  {
    seq(|changes|, i requires 0 <= i < |changes| => changes[i].kind)
  }

  lemma KindsOneMore(front: seq<Change>, last: Change, kind: Kind)
    ensures multiset(Kinds(front + [last]))[kind] ==
      multiset(Kinds(front))[kind] + if last.kind == kind then 1 else 0
  {
    assert Kinds(front + [last]) == Kinds(front) + [last.kind];
  }

  lemma PlacesOneMore(front: seq<Change>, last: Change, kind: Kind)
    requires NoRepeats(Places(front + [last]))
    ensures NoRepeats(Places(front))
    ensures |PlacesOf(front + [last], kind)| == |PlacesOf(front, kind)| + if last.kind == kind then 1 else 0
  {
    var all := front + [last];
    assert forall i :: 0 <= i < |front| ==> Places(front)[i] == Places(all)[i];
    forall c | c in front ensures c.keys != last.keys {
      var i :| 0 <= i < |front| && front[i] == c;
      assert Places(all)[i] != Places(all)[|front|];
    }
    assert last.keys !in PlacesOf(front, kind);
    assert forall c :: c in all <==> c in front || c == last;
    assert PlacesOf(all, kind) == PlacesOf(front, kind) + if last.kind == kind then {last.keys} else {};
  }

  lemma {:induction false} KindsCountPlaces(changes: seq<Change>, kind: Kind)
    requires NoRepeats(Places(changes))
    ensures multiset(Kinds(changes))[kind] == |PlacesOf(changes, kind)|
    decreases |changes|
  {
    hide NoRepeats;
    if changes != [] {
      var last, front := changes[|changes| - 1], changes[..|changes| - 1];
      assert changes == front + [last];
      KindsOneMore(front, last, kind);
      PlacesOneMore(front, last, kind);
      KindsCountPlaces(front, kind);
    }
  }

  /** So many places where two states differ in a given way. */
  ghost predicate IsCount(n: nat, desired: Json, observed: Json, kind: Kind) {
    exists places: set<seq<string>> ::
      |places| == n && forall p :: p in places <==> DiffersAt(desired, observed, p, kind)
  }

  lemma DiffCounts(volatile: set<string>, desired: Json, observed: Json, kind: Kind)
    requires HasNoVolatile(volatile, desired) && HasNoVolatile(volatile, observed)
    ensures IsCount(multiset(Kinds(Diff(volatile, desired, observed)))[kind], desired, observed, kind)
  {
    hide Diff, HasNoVolatile, DiffersAt, NoRepeats;
    var changes := Diff(volatile, desired, observed);
    PlacesAreApart(volatile, desired, observed);
    KindsCountPlaces(changes, kind);
    var places := PlacesOf(changes, kind);
    forall p ensures p in places <==> DiffersAt(desired, observed, p, kind) {
      var d, o := ValueAt(desired, p), ValueAt(observed, p);
      var c := Change(p, kind, d, if kind == Kind.Unknown then None else o);
      DiffExactly(volatile, desired, observed, c);
      if p in places {
        var e :| e in changes && e.kind == kind && e.keys == p;
        DiffExactly(volatile, desired, observed, e);
      }
    }
  }
}
