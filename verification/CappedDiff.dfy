/** What the cap on changes leaves of a difference. The cap is tested only where a comparison starts, so
    entries that a started comparison adds by itself are reported beyond it. */
module CappedDiff {
  import opened Collections
  import opened Wrappers
  import opened Ordering
  import opened Values
  import opened Canonical
  import opened Drift

  const MAX_CHANGES: nat := 10_000

  /** The difference as reported by a comparison that starts with n changes on record. */
  function Capped(volatile: set<string>, desired: Json, observed: Json, n: nat): seq<Change>
    decreases desired, 1, 0
  {
    if n >= MAX_CHANGES then []
    else if IsUnknown(observed) then [Change([], Unknown, Some(desired), None)]
    else if desired.Obj? && observed.Obj? then
      CappedKeys(volatile, desired, observed, ComparedKeys(volatile, desired, observed), n)
    else if CanonicalText(desired) == CanonicalText(observed) then []
    else [Change([], Changed, Some(desired), Some(observed))]
  }

  function CappedKeys(volatile: set<string>, desired: Json, observed: Json, keys: seq<string>, n: nat): seq<Change>
    requires desired.Obj? && observed.Obj?
    decreases desired, 0, |keys|
  {
    if keys == [] then []
    else
      var here := CappedAt(volatile, desired, observed, keys[0], n);
      here + CappedKeys(volatile, desired, observed, keys[1..], n + |here|)
  }

  /** One key: a missing or extra entry is added whatever the record holds. */
  function CappedAt(volatile: set<string>, desired: Json, observed: Json, key: string, n: nat): seq<Change>
    requires desired.Obj? && observed.Obj?
    decreases desired, 0, 0
  {
    if key in desired.fields && key in observed.fields then
      Under(key, Capped(volatile, desired.fields[key], observed.fields[key], n))
    else DiffAt(volatile, desired, observed, key)
  }

  // ----- Which entries of the full difference are kept

  predicate IsDirect(c: Change) {
    c.kind == Missing || c.kind == Extra
  }

  /** The object an entry was found in. */
  function Parent(c: Change): seq<string> {
    if c.keys == [] then [] else c.keys[..|c.keys| - 1]
  }

  /** The comparison of an entry's object started before the record was full. */
  ghost predicate Started(full: seq<Change>, n: nat, c: Change) {
    exists m :: 0 <= m < |full| && n + m < MAX_CHANGES && Parent(c) <= full[m].keys
  }

  /** An entry is kept if it comes before the cap, or if it is a missing or extra entry of an object whose
      comparison started before the cap. */
  ghost predicate Keeps(full: seq<Change>, n: nat, j: int) {
    0 <= j < |full| && (n + j < MAX_CHANGES || (IsDirect(full[j]) && Started(full, n, full[j])))
  }

  /** The same below an object whose comparison has started. */
  ghost predicate KeepsBelow(full: seq<Change>, n: nat, j: int) {
    0 <= j < |full| &&
    (n + j < MAX_CHANGES || (IsDirect(full[j]) && (|full[j].keys| == 1 || Started(full, n, full[j]))))
  }

  ghost function Select(xs: seq<Change>, keep: int -> bool, i: nat): seq<Change>
    requires i <= |xs|
  {
    if i == 0 then [] else Select(xs, keep, i - 1) + (if keep(i - 1) then [xs[i - 1]] else [])
  }

  ghost function Kept(full: seq<Change>, n: nat): seq<Change> {
    Select(full, j => Keeps(full, n, j), |full|)
  }

  ghost function KeptBelow(full: seq<Change>, n: nat): seq<Change> {
    Select(full, j => KeepsBelow(full, n, j), |full|)
  }

  lemma {:induction false} SelectSame(
    xs: seq<Change>, ys: seq<Change>, keep: int -> bool, keep': int -> bool, i: nat)
    requires i <= |xs| && i <= |ys|
    requires forall j :: 0 <= j < i ==> xs[j] == ys[j] && (keep(j) <==> keep'(j))
    ensures Select(xs, keep, i) == Select(ys, keep', i)
  {
    if i > 0 {
      SelectSame(xs, ys, keep, keep', i - 1);
    }
  }

  /** Selecting from two parts is selecting from each. */
  lemma {:induction false} SelectConcat(
    xs: seq<Change>, ys: seq<Change>, keep: int -> bool, keepX: int -> bool, keepY: int -> bool, i: nat)
    requires i <= |ys|
    requires forall j :: 0 <= j < |xs| ==> (keep(j) <==> keepX(j))
    requires forall j :: 0 <= j < |ys| ==> (keep(j + |xs|) <==> keepY(j))
    ensures Select(xs + ys, keep, |xs| + i) == Select(xs, keepX, |xs|) + Select(ys, keepY, i)
  {
    if i == 0 {
      SelectSame(xs + ys, xs, keep, keepX, |xs|);
    } else {
      SelectConcat(xs, ys, keep, keepX, keepY, i - 1);
      assert (xs + ys)[|xs| + i - 1] == ys[i - 1];
      assert keep(i - 1 + |xs|) <==> keepY(i - 1);
    }
  }

  lemma {:induction false} SelectUnder(key: string, xs: seq<Change>, keep: int -> bool, keep': int -> bool, i: nat)
    requires i <= |xs| && forall j :: 0 <= j < i ==> (keep(j) <==> keep'(j))
    ensures Select(Under(key, xs), keep, i) == Under(key, Select(xs, keep', i))
  {
    if i > 0 {
      SelectUnder(key, xs, keep, keep', i - 1);
    }
  }

  lemma {:induction false} SelectSize(xs: seq<Change>, keep: int -> bool, cap: nat, i: nat)
    requires i <= |xs| && forall j :: 0 <= j < i && j < cap ==> keep(j)
    ensures |Select(xs, keep, i)| <= i
    ensures i <= cap ==> Select(xs, keep, i) == xs[..i]
    ensures i >= cap ==> |Select(xs, keep, i)| >= cap
  {
    if i > 0 {
      SelectSize(xs, keep, cap, i - 1);
    }
  }

  lemma {:induction false} SelectNone(xs: seq<Change>, keep: int -> bool, i: nat)
    requires i <= |xs| && forall j :: 0 <= j < i ==> !keep(j)
    ensures Select(xs, keep, i) == []
  {
    if i > 0 {
      SelectNone(xs, keep, i - 1);
    }
  }

  lemma {:induction false} SelectIsPart(xs: seq<Change>, keep: int -> bool, i: nat)
    requires i <= |xs|
    ensures forall c :: c in Select(xs, keep, i) ==> c in xs
  {
    if i > 0 {
      SelectIsPart(xs, keep, i - 1);
    }
  }

  lemma KeptIsPart(full: seq<Change>, n: nat)
    ensures forall c :: c in Kept(full, n) ==> c in full
  {
    hide Keeps;
    SelectIsPart(full, j => Keeps(full, n, j), |full|);
  }

  /** More is selected than the cap exactly when something at or past it is. */
  lemma {:induction false} SelectOverflows(xs: seq<Change>, keep: int -> bool, cap: nat, i: nat)
    requires i <= |xs| && forall j :: 0 <= j < i && j < cap ==> keep(j)
    ensures |Select(xs, keep, i)| > cap <==> exists j :: cap <= j < i && keep(j)
  {
    if i > 0 {
      SelectOverflows(xs, keep, cap, i - 1);
      SelectSize(xs, keep, cap, i - 1);
      if keep(i - 1) && i - 1 >= cap {
        assert cap <= i - 1 < i && keep(i - 1);
      }
    }
  }

  lemma KeptNone(full: seq<Change>, n: nat)
    requires n >= MAX_CHANGES
    ensures Kept(full, n) == []
  {
    SelectNone(full, j => Keeps(full, n, j), |full|);
  }

  /** Until the cap everything is kept, and past it at least the cap is reached. */
  lemma KeptBelowSize(full: seq<Change>, n: nat)
    ensures n + |full| <= MAX_CHANGES ==> KeptBelow(full, n) == full
    ensures n + |full| >= MAX_CHANGES ==> n + |KeptBelow(full, n)| >= MAX_CHANGES
  {
    var cap := if n <= MAX_CHANGES then MAX_CHANGES - n else 0;
    SelectSize(full, j => KeepsBelow(full, n, j), cap, |full|);
    assert full[..|full|] == full;
  }

  // ----- The capped comparison keeps exactly those

  lemma {:induction false} DirectEntriesHaveKeys(volatile: set<string>, desired: Json, observed: Json)
    ensures forall c :: c in Diff(volatile, desired, observed) && IsDirect(c) ==> c.keys != []
  {
    hide DiffKeys;
    if !IsUnknown(observed) && desired.Obj? && observed.Obj? {
      KeysLeadToEntries(volatile, desired, observed, ComparedKeys(volatile, desired, observed));
    }
  }

  lemma EntriesAt(volatile: set<string>, desired: Json, observed: Json, key: string)
    requires desired.Obj? && observed.Obj?
    ensures forall c :: c in DiffAt(volatile, desired, observed, key) ==> c.keys != [] && c.keys[0] == key
  {
    hide Diff;
  }

  lemma {:induction false} KeysLeadToEntries(volatile: set<string>, desired: Json, observed: Json, keys: seq<string>)
    requires desired.Obj? && observed.Obj?
    ensures forall c :: c in DiffKeys(volatile, desired, observed, keys) ==> c.keys != [] && c.keys[0] in keys
    decreases |keys|
  {
    hide DiffAt;
    if keys != [] {
      EntriesAt(volatile, desired, observed, keys[0]);
      KeysLeadToEntries(volatile, desired, observed, keys[1..]);
    }
  }

  /** Entries under different keys do not decide about each other. */
  lemma KeptBelowSplits(xs: seq<Change>, ys: seq<Change>, n: nat, key: string)
    requires forall c :: c in xs ==> c.keys != [] && c.keys[0] == key
    requires forall c :: c in ys ==> c.keys != [] && c.keys[0] != key
    ensures KeptBelow(xs + ys, n) == KeptBelow(xs, n) + KeptBelow(ys, n + |xs|)
  {
    var all := xs + ys;
    forall j | 0 <= j < |xs| ensures KeepsBelow(all, n, j) <==> KeepsBelow(xs, n, j) {
      StartedInFront(xs, ys, n, j);
    }
    var start := n + |xs|;
    forall j | 0 <= j < |ys| ensures KeepsBelow(ys, start, j) <==> KeepsBelow(all, n, j + |xs|) {
      StartedBehind(xs, ys, n, key, j);
    }
    SelectConcat(xs, ys, j => KeepsBelow(all, n, j), j => KeepsBelow(xs, n, j),
      j => KeepsBelow(ys, start, j), |ys|);
  }

  lemma StartedInFront(xs: seq<Change>, ys: seq<Change>, n: nat, j: nat)
    requires j < |xs|
    ensures n + j < MAX_CHANGES || (Started(xs + ys, n, xs[j]) <==> Started(xs, n, xs[j]))
  {
    hide Parent;
    if Started(xs, n, xs[j]) {
      var m :| 0 <= m < |xs| && n + m < MAX_CHANGES && Parent(xs[j]) <= xs[m].keys;
      assert (xs + ys)[m] == xs[m];
    }
  }

  lemma StartedBehind(xs: seq<Change>, ys: seq<Change>, n: nat, key: string, j: nat)
    requires forall c :: c in xs ==> c.keys != [] && c.keys[0] == key
    requires forall c :: c in ys ==> c.keys != [] && c.keys[0] != key
    requires j < |ys|
    ensures |ys[j].keys| == 1 || (Started(xs + ys, n, ys[j]) <==> Started(ys, n + |xs|, ys[j]))
  {
    var all := xs + ys;
    assert ys[j] in ys;
    if |ys[j].keys| > 1 {
      assert Parent(ys[j])[0] != key;
      forall m | 0 <= m < |xs| ensures !(Parent(ys[j]) <= all[m].keys) {
        assert all[m] in xs;
      }
      if m :| 0 <= m < |all| && n + m < MAX_CHANGES && Parent(ys[j]) <= all[m].keys {
        assert all[m] == ys[m - |xs|];
      }
      if m :| 0 <= m < |ys| && n + |xs| + m < MAX_CHANGES && Parent(ys[j]) <= ys[m].keys {
        assert all[m + |xs|] == ys[m];
      }
    }
  }

  /** Below a key, an entry is decided as it is in the comparison of the value under the key. */
  lemma KeptUnder(key: string, full: seq<Change>, n: nat)
    requires forall c :: c in full && IsDirect(c) ==> c.keys != []
    ensures KeptBelow(Under(key, full), n) == Under(key, Kept(full, n))
  {
    var under := Under(key, full);
    forall j | 0 <= j < |full| ensures KeepsBelow(under, n, j) <==> Keeps(full, n, j) {
      StartedUnder(key, full, n, j);
    }
    SelectUnder(key, full, j => KeepsBelow(under, n, j), j => Keeps(full, n, j), |full|);
  }

  lemma StartedUnder(key: string, full: seq<Change>, n: nat, j: nat)
    requires j < |full| && forall c :: c in full && IsDirect(c) ==> c.keys != []
    ensures IsDirect(full[j]) ==>
      |Under(key, full)[j].keys| > 1 &&
      (Started(Under(key, full), n, Under(key, full)[j]) <==> Started(full, n, full[j]))
  {
    var under := Under(key, full);
    assert full[j] in full;
    if IsDirect(full[j]) {
      var parent := Parent(full[j]);
      assert Parent(under[j]) == [key] + parent;
      forall m | 0 <= m < |full| ensures Parent(under[j]) <= under[m].keys <==> parent <= full[m].keys {
        assert under[m].keys == [key] + full[m].keys;
        assert ([key] + parent)[1..] == parent && ([key] + full[m].keys)[1..] == full[m].keys;
        assert |parent| <= |full[m].keys| ==>
          ([key] + full[m].keys)[..1 + |parent|] == [key] + full[m].keys[..|parent|];
      }
    }
  }

  /** Where the comparison of the object itself has started, its own entries are all kept. */
  lemma KeptInStartedObject(full: seq<Change>, n: nat)
    requires n < MAX_CHANGES
    ensures Kept(full, n) == KeptBelow(full, n)
  {
    forall j | 0 <= j < |full| ensures Keeps(full, n, j) <==> KeepsBelow(full, n, j) {
      if |full[j].keys| == 1 {
        assert Parent(full[j]) == [] <= full[0].keys;
      }
    }
    SelectSame(full, full, j => Keeps(full, n, j), j => KeepsBelow(full, n, j), |full|);
  }

  lemma {:induction false} CappedKeysAreKept(
    volatile: set<string>, desired: Json, observed: Json, keys: seq<string>, n: nat, position: nat)
    requires desired.Obj? && observed.Obj? && NoRepeats(keys)
    requires n == position || (n >= MAX_CHANGES && position >= MAX_CHANGES)
    ensures CappedKeys(volatile, desired, observed, keys, n) ==
      KeptBelow(DiffKeys(volatile, desired, observed, keys), position)
    decreases desired, 0, |keys|
  {
    hide Diff, DiffAt, Capped, CappedAt, KeptBelow;
    KeptNothing(position);
    if keys != [] {
      var key, rest := keys[0], keys[1..];
      var here, found := CappedAt(volatile, desired, observed, key, n), DiffAt(volatile, desired, observed, key);
      var below := DiffKeys(volatile, desired, observed, rest);
      CappedAtIsKept(volatile, desired, observed, key, n, position);
      KeptBelowSize(found, position);
      CappedKeysAreKept(volatile, desired, observed, rest, n + |here|, position + |found|);
      EntriesAt(volatile, desired, observed, key);
      KeysLeadToEntries(volatile, desired, observed, rest);
      assert key !in rest;
      KeptBelowSplits(found, below, position, key);
    }
  }

  lemma KeptNothing(n: nat)
    ensures KeptBelow([], n) == []
  {
  }

  lemma {:induction false} CappedAtIsKept(
    volatile: set<string>, desired: Json, observed: Json, key: string, n: nat, position: nat)
    requires desired.Obj? && observed.Obj?
    requires n == position || (n >= MAX_CHANGES && position >= MAX_CHANGES)
    ensures CappedAt(volatile, desired, observed, key, n) ==
      KeptBelow(DiffAt(volatile, desired, observed, key), position)
    decreases desired, 0, 0
  {
    hide Diff, Capped, KeptBelow, Kept;
    KeptNothing(position);
    if key in desired.fields && key in observed.fields {
      var full := Diff(volatile, desired.fields[key], observed.fields[key]);
      CappedIsKept(volatile, desired.fields[key], observed.fields[key], n);
      DirectEntriesHaveKeys(volatile, desired.fields[key], observed.fields[key]);
      KeptUnder(key, full, position);
      if n != position {
        KeptNone(full, n);
        KeptNone(full, position);
      }
    } else if key in desired.fields || key in observed.fields {
      KeptDirect(DiffAt(volatile, desired, observed, key)[0], position);
    }
  }

  lemma KeptDirect(c: Change, n: nat)
    requires IsDirect(c) && |c.keys| == 1
    ensures KeptBelow([c], n) == [c]
  {
    assert KeepsBelow([c], n, 0);
    assert Select([c], j => KeepsBelow([c], n, j), 0) == [];
  }

  /** The capped comparison reports exactly the kept entries of the full difference, in its order. */
  lemma {:induction false} CappedIsKept(volatile: set<string>, desired: Json, observed: Json, n: nat)
    ensures Capped(volatile, desired, observed, n) == Kept(Diff(volatile, desired, observed), n)
    decreases desired, 1, 0
  {
    hide IsUnknown, DiffKeys, CappedKeys, ComparedKeys, Kept, KeptBelow;
    var full := Diff(volatile, desired, observed);
    if n >= MAX_CHANGES {
      KeptNone(full, n);
    } else {
      KeptInStartedObject(full, n);
      if !IsUnknown(observed) && desired.Obj? && observed.Obj? {
        var keys := ComparedKeys(volatile, desired, observed);
        IncreasingIsDistinct(keys);
        CappedKeysAreKept(volatile, desired, observed, keys, n, n);
      } else {
        KeptBelowSize(full, n);
      }
    }
  }

  /** From an empty record: under the cap the report is the whole difference, and it is empty only with it. */
  lemma CappedUnderCap(volatile: set<string>, desired: Json, observed: Json)
    ensures var full, reported := Diff(volatile, desired, observed), Capped(volatile, desired, observed, 0);
      && (|full| <= MAX_CHANGES ==> reported == full)
      && (|reported| < MAX_CHANGES ==> reported == full)
      && (reported == [] <==> full == [])
  {
    hide Capped, Diff, Kept, KeptBelow;
    CappedIsKept(volatile, desired, observed, 0);
    KeptInStartedObject(Diff(volatile, desired, observed), 0);
    KeptBelowSize(Diff(volatile, desired, observed), 0);
  }

  /** More is kept than the cap exactly when something direct past it belongs to an object started before it. */
  lemma KeptOverflows(full: seq<Change>, n: nat)
    requires n <= MAX_CHANGES
    ensures n + |Kept(full, n)| > MAX_CHANGES <==>
      exists j :: MAX_CHANGES - n <= j < |full| && IsDirect(full[j]) && Started(full, n, full[j])
  {
    hide Started, IsDirect;
    var cap, keep := MAX_CHANGES - n, j => Keeps(full, n, j);
    SelectOverflows(full, keep, cap, |full|);
    SelectSame(full, full, keep, j => Keeps(full, n, j), |full|);
    forall j | cap <= j < |full| ensures keep(j) <==> IsDirect(full[j]) && Started(full, n, full[j]) {
    }
    if j :| cap <= j < |full| && IsDirect(full[j]) && Started(full, n, full[j]) {
      assert keep(j);
    }
  }
}
