/** `compare` and `Report`: the structural difference between desired and observed state. */
module Drift {
  import opened Wrappers
  import opened Text
  import opened Ordering
  import opened Values
  import opened Canonical
  import opened Normalization

  datatype Kind = Missing | Extra | Changed | Unknown

  /** A reported difference: the object keys that lead to it, and the two values where present. */
  datatype Change = Change(keys: seq<string>, kind: Kind, desired: Option<Json>, observed: Option<Json>)

  /** An observation that admits it could not be made. */
  predicate IsUnknown(v: Json) {
    v.Obj? && (EqualFold(StringValue(Field(v.fields, "status")), "unknown") || BoolValue(Field(v.fields, "unknown")))
  }

  /** An object is unknown when its status is the word `unknown`, in whatever case, or its unknown flag is set. */
  lemma UnknownExactly(v: Json)
    ensures IsUnknown(v) <==>
      v.Obj? &&
      (("unknown" in v.fields && v.fields["unknown"] == Bool(true)) ||
       ("status" in v.fields && v.fields["status"].Str? && IsSpelled(v.fields["status"].s,
          [{'u', 'U'}, {'n', 'N'}, {'k', 'K', '\U{212A}'}, {'n', 'N'}, {'o', 'O'}, {'w', 'W'}, {'n', 'N'}])))
  {
    hide EqualFold;
    if v.Obj? {
      EqualFoldUnknown(StringValue(Field(v.fields, "status")));
    }
  }

  /** Some object reachable through object fields is unknown. */
  predicate HoldsUnknown(v: Json)
    decreases v
  {
    v.Obj? && (IsUnknown(v) || exists k :: k in v.fields && HoldsUnknown(v.fields[k]))
  }

  predicate HasNoVolatile(volatile: set<string>, v: Json)
    decreases v
  {
    v.Obj? ==> forall k :: k in v.fields ==> k !in volatile && HasNoVolatile(volatile, v.fields[k])
  }

  // ----- The difference without a cap

  function Under(key: string, changes: seq<Change>): (r: seq<Change>)
    ensures |r| == |changes|
  {
    seq(|changes|, i requires 0 <= i < |changes| => changes[i].(keys := [key] + changes[i].keys))
  }

  function Diff(volatile: set<string>, desired: Json, observed: Json): seq<Change>
    decreases desired, 1, 0
  {
    if IsUnknown(observed) then [Change([], Unknown, Some(desired), None)]
    else if desired.Obj? && observed.Obj? then
      DiffKeys(volatile, desired, observed, ComparedKeys(volatile, desired, observed))
    else if CanonicalText(desired) == CanonicalText(observed) then []
    else [Change([], Changed, Some(desired), Some(observed))]
  }

  function ComparedKeys(volatile: set<string>, desired: Json, observed: Json): (r: seq<string>)
    requires desired.Obj? && observed.Obj?
    ensures forall k :: k in r <==> (k in desired.fields || k in observed.fields) && k !in volatile
    ensures Increasing(r)
  {
    SortedKeys(desired.fields.Keys + observed.fields.Keys - volatile)
  }

  function DiffKeys(volatile: set<string>, desired: Json, observed: Json, keys: seq<string>): seq<Change>
    requires desired.Obj? && observed.Obj?
    decreases desired, 0, |keys|
  {
    if keys == [] then []
    else DiffAt(volatile, desired, observed, keys[0]) + DiffKeys(volatile, desired, observed, keys[1..])
  }

  function DiffAt(volatile: set<string>, desired: Json, observed: Json, key: string): seq<Change>
    requires desired.Obj? && observed.Obj?
    decreases desired, 0, 0
  {
    if key in desired.fields && key in observed.fields then
      Under(key, Diff(volatile, desired.fields[key], observed.fields[key]))
    else if key in desired.fields then [Change([key], Missing, Some(desired.fields[key]), None)]
    else if key in observed.fields then [Change([key], Extra, None, Some(observed.fields[key]))]
    else []
  }

  // ----- What a difference means: applied to the observed state it rebuilds the desired state

  /** Put the desired value at the change's place, or delete an extra entry. */
  function Apply(v: Json, c: Change): Json
    decreases |c.keys|
  {
    if c.keys == [] then (if c.desired.Some? then c.desired.value else v)
    else if !v.Obj? then v
    else
      var k := c.keys[0];
      if |c.keys| == 1 && c.desired.None? then Obj(v.fields - {k})
      else if |c.keys| == 1 then Obj(v.fields[k := c.desired.value])
      else if k in v.fields then Obj(v.fields[k := Apply(v.fields[k], c.(keys := c.keys[1..]))])
      else v
  }

  function ApplyAll(v: Json, changes: seq<Change>): Json
    decreases |changes|
  {
    if changes == [] then v else ApplyAll(Apply(v, changes[0]), changes[1..])
  }

  lemma {:induction false} ApplyAllConcat(v: Json, xs: seq<Change>, ys: seq<Change>)
    ensures ApplyAll(v, xs + ys) == ApplyAll(ApplyAll(v, xs), ys)
    decreases |xs|
  {
    if xs == [] {
      assert xs + ys == ys;
    } else {
      assert (xs + ys)[0] == xs[0] && (xs + ys)[1..] == xs[1..] + ys;
      ApplyAllConcat(Apply(v, xs[0]), xs[1..], ys);
    }
  }

  /** A change at the root replaces the value. */
  ghost predicate RootsReplace(changes: seq<Change>) {
    forall i :: 0 <= i < |changes| && changes[i].keys == [] ==> changes[i].desired.Some?
  }

  /** Changes below a key act on the value under that key alone. */
  lemma {:induction false} ApplyUnder(m: map<string, Json>, k: string, changes: seq<Change>)
    requires k in m && RootsReplace(changes)
    ensures ApplyAll(Obj(m), Under(k, changes)) == Obj(m[k := ApplyAll(m[k], changes)])
    decreases |changes|
  {
    if changes == [] {
      assert m[k := m[k]] == m;
    } else {
      var c := changes[0];
      var m' := m[k := Apply(m[k], c)];
      assert Under(k, changes)[0].keys[1..] == c.keys;
      assert Under(k, changes)[0].(keys := c.keys) == c;
      assert Apply(Obj(m), Under(k, changes)[0]) == Obj(m');
      assert Under(k, changes)[1..] == Under(k, changes[1..]);
      ApplyUnder(m', k, changes[1..]);
      assert m'[k := ApplyAll(m'[k], changes[1..])] == m[k := ApplyAll(m'[k], changes[1..])];
    }
  }

  lemma {:induction false} DiffReplacesRoots(volatile: set<string>, desired: Json, observed: Json)
    ensures RootsReplace(Diff(volatile, desired, observed))
    decreases desired, 1, 0
  {
    if !IsUnknown(observed) && desired.Obj? && observed.Obj? {
      DiffKeysReplaceRoots(volatile, desired, observed, ComparedKeys(volatile, desired, observed));
    }
  }

  lemma {:induction false} DiffKeysReplaceRoots(volatile: set<string>, desired: Json, observed: Json, keys: seq<string>)
    requires desired.Obj? && observed.Obj?
    ensures RootsReplace(DiffKeys(volatile, desired, observed, keys))
    decreases desired, 0, |keys|
  {
    if keys != [] {
      hide Diff;
      DiffKeysReplaceRoots(volatile, desired, observed, keys[1..]);
      assert RootsReplace(DiffAt(volatile, desired, observed, keys[0]));
    }
  }

  /** The fields of m with those under the given keys taken from desired. */
  function Graft(m: map<string, Json>, desired: map<string, Json>, keys: seq<string>): map<string, Json> {
    map k | k in m.Keys + desired.Keys && (if k in keys then k in desired else k in m) ::
      if k in keys then desired[k] else m[k]
  }

  /** m still shows the observed state under the given keys. */
  ghost predicate ShowsObserved(m: map<string, Json>, observed: map<string, Json>, keys: seq<string>) {
    forall k :: k in keys ==> (k in m <==> k in observed) && (k in m ==> m[k] == observed[k])
  }

  lemma {:induction false} RebuildKeys(
    volatile: set<string>, desired: Json, observed: Json, keys: seq<string>, m: map<string, Json>)
    requires desired.Obj? && observed.Obj?
    requires HasNoVolatile(volatile, desired) && HasNoVolatile(volatile, observed)
    requires ShowsObserved(m, observed.fields, keys)
    requires forall i, j :: 0 <= i < j < |keys| ==> keys[i] != keys[j]
    ensures ApplyAll(Obj(m), DiffKeys(volatile, desired, observed, keys)) == Obj(Graft(m, desired.fields, keys))
    decreases desired, 0, |keys|
  {
    hide Diff, DiffAt, Apply, Graft, ShowsObserved, HasNoVolatile;
    GraftSteps(m, desired.fields, observed.fields, keys);
    if keys != [] {
      var k, rest := keys[0], keys[1..];
      RebuildAt(volatile, desired, observed, k, m);
      ApplyAllConcat(Obj(m), DiffAt(volatile, desired, observed, k), DiffKeys(volatile, desired, observed, rest));
      RebuildKeys(volatile, desired, observed, rest, Graft(m, desired.fields, [k]));
    }
  }

  lemma GraftSteps(m: map<string, Json>, desired: map<string, Json>, observed: map<string, Json>, keys: seq<string>)
    requires ShowsObserved(m, observed, keys)
    requires forall i, j :: 0 <= i < j < |keys| ==> keys[i] != keys[j]
    ensures keys == [] ==> Graft(m, desired, keys) == m
    ensures keys != [] ==>
      ShowsObserved(m, observed, [keys[0]]) && ShowsObserved(Graft(m, desired, [keys[0]]), observed, keys[1..]) &&
      Graft(Graft(m, desired, [keys[0]]), desired, keys[1..]) == Graft(m, desired, keys)
  {
    if keys == [] {
      assert Graft(m, desired, keys) == m;
    } else {
      var k, rest := keys[0], keys[1..];
      assert k !in rest;
      assert forall x :: x in keys <==> x == k || x in rest;
      assert Graft(Graft(m, desired, [k]), desired, rest) == Graft(m, desired, keys);
    }
  }

  lemma GraftEverything(desired: map<string, Json>, observed: map<string, Json>, keys: seq<string>)
    requires forall k :: k in keys <==> k in desired || k in observed
    ensures Graft(observed, desired, keys) == desired && ShowsObserved(observed, observed, keys)
  {
    assert Graft(observed, desired, keys) == desired;
  }

  lemma {:induction false} RebuildAt(
    volatile: set<string>, desired: Json, observed: Json, k: string, m: map<string, Json>)
    requires desired.Obj? && observed.Obj?
    requires HasNoVolatile(volatile, desired) && HasNoVolatile(volatile, observed)
    requires ShowsObserved(m, observed.fields, [k])
    ensures ApplyAll(Obj(m), DiffAt(volatile, desired, observed, k)) == Obj(Graft(m, desired.fields, [k]))
    decreases desired, 0, 0
  {
    hide Diff;
    assert k in [k];
    var changes := DiffAt(volatile, desired, observed, k);
    var m' := Graft(m, desired.fields, [k]);
    if k in desired.fields && k in observed.fields {
      var below := Diff(volatile, desired.fields[k], observed.fields[k]);
      Rebuild(volatile, desired.fields[k], observed.fields[k]);
      DiffReplacesRoots(volatile, desired.fields[k], observed.fields[k]);
      ApplyUnder(m, k, below);
      assert m[k := desired.fields[k]] == m';
    } else if k in desired.fields {
      assert changes[1..] == [];
      assert m[k := desired.fields[k]] == m';
    } else if k in observed.fields {
      assert changes[1..] == [];
      assert m - {k} == m';
    } else {
      assert m == m';
    }
  }

  /** Replacing the observed state at every reported place by the desired value, and deleting the
      extras, rebuilds the desired state. */
  lemma {:induction false} Rebuild(volatile: set<string>, desired: Json, observed: Json)
    requires HasNoVolatile(volatile, desired) && HasNoVolatile(volatile, observed)
    ensures ApplyAll(observed, Diff(volatile, desired, observed)) == desired
    decreases desired, 2, 0
  {
    hide IsUnknown, DiffKeys, ComparedKeys, Graft, ShowsObserved;
    var changes := Diff(volatile, desired, observed);
    if !IsUnknown(observed) && desired.Obj? && observed.Obj? {
      RebuildObjects(volatile, desired, observed);
    } else if changes == [] {
      CanonicalTextIsInjective(desired, observed);
    } else {
      assert changes[1..] == [];
    }
  }

  lemma {:induction false} RebuildObjects(volatile: set<string>, desired: Json, observed: Json)
    requires desired.Obj? && observed.Obj?
    requires HasNoVolatile(volatile, desired) && HasNoVolatile(volatile, observed)
    ensures ApplyAll(observed, DiffKeys(volatile, desired, observed, ComparedKeys(volatile, desired, observed))) ==
      desired
    decreases desired, 1, 0
  {
    hide ApplyAll, DiffKeys, Graft, ShowsObserved;
    var keys := ComparedKeys(volatile, desired, observed);
    IncreasingIsDistinct(keys);
    GraftEverything(desired.fields, observed.fields, keys);
    RebuildKeys(volatile, desired, observed, keys, observed.fields);
  }

  // ----- When there is no difference

  lemma {:induction false} EmptyDiffHoldsNoUnknown(volatile: set<string>, desired: Json, observed: Json)
    requires HasNoVolatile(volatile, observed) && desired == observed
    ensures Diff(volatile, desired, observed) == [] <==> !HoldsUnknown(observed)
    decreases desired, 1, 0
  {
    if !IsUnknown(observed) && observed.Obj? {
      var keys := ComparedKeys(volatile, desired, observed);
      EmptyDiffKeys(volatile, observed, keys);
    }
  }

  lemma {:induction false} EmptyDiffKeys(volatile: set<string>, v: Json, keys: seq<string>)
    requires v.Obj? && HasNoVolatile(volatile, v) && forall k :: k in keys ==> k in v.fields
    ensures DiffKeys(volatile, v, v, keys) == [] <==> forall k :: k in keys ==> !HoldsUnknown(v.fields[k])
    decreases v, 0, |keys|
  {
    hide Diff, IsUnknown;
    if keys != [] {
      var k := keys[0];
      EmptyDiffHoldsNoUnknown(volatile, v.fields[k], v.fields[k]);
      EmptyDiffKeys(volatile, v, keys[1..]);
      assert DiffAt(volatile, v, v, k) == [] <==> !HoldsUnknown(v.fields[k]);
      assert keys == [k] + keys[1..];
    }
  }

  /** Nothing is reported exactly when the values are equal and the observed one holds no unknown. */
  lemma CleanExactly(volatile: set<string>, desired: Json, observed: Json)
    requires HasNoVolatile(volatile, desired) && HasNoVolatile(volatile, observed)
    ensures Diff(volatile, desired, observed) == [] <==> desired == observed && !HoldsUnknown(observed)
  {
    hide HasNoVolatile, HoldsUnknown, Diff;
    Rebuild(volatile, desired, observed);
    assert ApplyAll(observed, []) == observed;
    if desired == observed {
      EmptyDiffHoldsNoUnknown(volatile, desired, observed);
    }
  }

  lemma {:induction false} NormalHasNoVolatile(volatile: set<string>, v: Json)
    requires IsNormal(volatile, v)
    ensures HasNoVolatile(volatile, v)
    decreases v
  {
    if v.Obj? {
      forall k | k in v.fields ensures HasNoVolatile(volatile, v.fields[k]) {
        NormalHasNoVolatile(volatile, v.fields[k]);
      }
    }
  }

  /** For any two states: no difference between their canonical forms exactly when they are alike and
      nothing unknown was observed. */
  lemma NormalizedCleanExactly(volatile: set<string>, desired: Json, observed: Json)
    ensures Diff(volatile, Normalize(volatile, desired), Normalize(volatile, observed)) == [] <==>
      Alike(volatile, desired, observed) && !HoldsUnknown(Normalize(volatile, observed))
  {
    hide HasNoVolatile, HoldsUnknown, Diff, Normalize, Alike, IsNormal;
    NormalizeIsNormal(volatile, desired);
    NormalizeIsNormal(volatile, observed);
    NormalHasNoVolatile(volatile, Normalize(volatile, desired));
    NormalHasNoVolatile(volatile, Normalize(volatile, observed));
    CleanExactly(volatile, Normalize(volatile, desired), Normalize(volatile, observed));
    NormalizeDecidesAlike(volatile, desired, observed);
  }
}
