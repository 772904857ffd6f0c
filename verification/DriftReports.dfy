/** `compare` and `Report` as they run: a capped record of changes, its counts and its published entries. */
module DriftReports {
  import opened Collections
  import opened Wrappers
  import opened Text
  import opened Ordering
  import opened Values
  import opened Canonical
  import opened Normalization
  import opened Permutations
  import opened Pointers
  import opened Drift
  import opened CappedDiff
  import opened Differences

  class ChangeLog {
    var changes: seq<Change>

    constructor ()
      ensures changes == []
    {
      changes := [];
    }

    method Append(c: Change)
      modifies this
      ensures changes == old(changes) + [c]
    {
      changes := changes + [c];
    }
  }

  /** The changes of a subtree, with the keys that lead to it. */
  function At(path: seq<string>, changes: seq<Change>): (r: seq<Change>)
    ensures |r| == |changes|
  {
    seq(|changes|, i requires 0 <= i < |changes| => changes[i].(keys := path + changes[i].keys))
  }

  lemma AtConcat(path: seq<string>, xs: seq<Change>, ys: seq<Change>)
    ensures At(path, xs + ys) == At(path, xs) + At(path, ys)
  {
  }

  lemma AtChild(path: seq<string>, k: string, changes: seq<Change>)
    ensures At(path + [k], changes) == At(path, Under(k, changes))
  {
    forall i | 0 <= i < |changes|
      ensures At(path + [k], changes)[i] == At(path, Under(k, changes))[i]
    {
      assert path + [k] + changes[i].keys == path + ([k] + changes[i].keys);
    }
  }

  lemma AtRoot(changes: seq<Change>)
    ensures At([], changes) == changes
  {
    forall i | 0 <= i < |changes| ensures At([], changes)[i] == changes[i] {
      assert [] + changes[i].keys == changes[i].keys;
    }
  }

  lemma AtOne(path: seq<string>, c: Change, here: Change)
    requires here == c.(keys := path + c.keys)
    ensures At(path, [c]) == [here]
  {
  }

  lemma AtNone(path: seq<string>)
    ensures At(path, []) == []
  {
  }

  /** `compare`. */
  method Compare(volatile: set<string>, desired: Json, observed: Json, path: seq<string>, log: ChangeLog)
    modifies log
    ensures log.changes == old(log.changes) + At(path, Capped(volatile, desired, observed, |old(log.changes)|))
    decreases desired, 2
  {
    hide IsUnknown, CappedKeys, ComparedKeys, At, CanonicalText;
    AtNone(path);
    assert path + [] == path;
    if |log.changes| >= MAX_CHANGES {
      return;
    }
    if IsUnknown(observed) {
      log.Append(Change(path, Unknown, Some(desired), None));
      AtOne(path, Change([], Unknown, Some(desired), None), Change(path, Unknown, Some(desired), None));
    } else if desired.Obj? && observed.Obj? {
      CompareObjects(volatile, desired, observed, path, log);
    } else if CanonicalText(desired) != CanonicalText(observed) {
      log.Append(Change(path, Changed, Some(desired), Some(observed)));
      AtOne(path, Change([], Changed, Some(desired), Some(observed)),
        Change(path, Changed, Some(desired), Some(observed)));
    }
  }

  lemma CappedKeysStep(
    volatile: set<string>, desired: Json, observed: Json, keys: seq<string>, i: nat, n: nat)
    requires desired.Obj? && observed.Obj? && i < |keys|
    ensures var here := CappedAt(volatile, desired, observed, keys[i], n);
      CappedKeys(volatile, desired, observed, keys[i..], n) ==
        here + CappedKeys(volatile, desired, observed, keys[i + 1..], n + |here|)
  {
    hide CappedAt;
    assert keys[i..][0] == keys[i] && keys[i..][1..] == keys[i + 1..];
  }

  lemma CappedNoKeys(volatile: set<string>, desired: Json, observed: Json, keys: seq<string>, n: nat)
    requires desired.Obj? && observed.Obj? && keys == []
    ensures CappedKeys(volatile, desired, observed, keys, n) == []
  {
  }

  /** The key loop of `compare`. */
  method CompareObjects(volatile: set<string>, desired: Json, observed: Json, path: seq<string>, log: ChangeLog)
    requires desired.Obj? && observed.Obj?
    modifies log
    ensures log.changes == old(log.changes) + At(path, CappedKeys(
      volatile, desired, observed, ComparedKeys(volatile, desired, observed), |old(log.changes)|))
    decreases desired, 1
  {
    hide *;
    var keys := ComparedKeys(volatile, desired, observed);
    ghost var reported: seq<Change> := [];
    AtNone(path);
    ghost var all := CappedKeys(volatile, desired, observed, keys, |log.changes|);
    assert keys[0..] == keys && reported + all == all;
    for i := 0 to |keys|
      invariant log.changes == old(log.changes) + At(path, reported)
      invariant reported + CappedKeys(volatile, desired, observed, keys[i..], |log.changes|) == all
    {
      ghost var here := CappedAt(volatile, desired, observed, keys[i], |log.changes|);
      CappedKeysStep(volatile, desired, observed, keys, i, |log.changes|);
      CompareKey(volatile, desired, observed, path, keys[i], log);
      AtConcat(path, reported, here);
      Associate(old(log.changes), At(path, reported), At(path, here));
      Associate(reported, here, CappedKeys(volatile, desired, observed, keys[i + 1..], |log.changes|));
      reported := reported + here;
    }
    CappedNoKeys(volatile, desired, observed, keys[|keys|..], |log.changes|);
    assert reported + [] == reported;
  }

  /** One key: present on one side only, or compared. */
  method CompareKey(
    volatile: set<string>, desired: Json, observed: Json, path: seq<string>, key: string, log: ChangeLog)
    requires desired.Obj? && observed.Obj? && (key in desired.fields || key in observed.fields)
    modifies log
    ensures log.changes ==
      old(log.changes) + At(path, CappedAt(volatile, desired, observed, key, |old(log.changes)|))
    decreases desired, 0
  {
    hide Capped, At;
    if key in desired.fields && key !in observed.fields {
      var c := Change(path + [key], Missing, Some(desired.fields[key]), None);
      log.Append(c);
      AtOne(path, c.(keys := [key]), c);
    } else if key !in desired.fields && key in observed.fields {
      var c := Change(path + [key], Extra, None, Some(observed.fields[key]));
      log.Append(c);
      AtOne(path, c.(keys := [key]), c);
    } else {
      AtChild(path, key, Capped(volatile, desired.fields[key], observed.fields[key], |log.changes|));
      Compare(volatile, desired.fields[key], observed.fields[key], path + [key], log);
    }
  }

  // ----- Counts

  datatype Counts = Counts(missing: nat, extra: nat, changed: nat, unknown: nat) {
    function Total(): nat {
      missing + extra + changed + unknown
    }

    function Plus(kind: Kind): Counts {
      match kind
      case Missing => this.(missing := missing + 1)
      case Extra => this.(extra := extra + 1)
      case Changed => this.(changed := changed + 1)
      case Unknown => this.(unknown := unknown + 1)
    }
  }

  ghost predicate Tallies(counts: Counts, kinds: seq<Kind>) {
    && counts.missing == multiset(kinds)[Missing] && counts.extra == multiset(kinds)[Extra]
    && counts.changed == multiset(kinds)[Changed] && counts.unknown == multiset(kinds)[Unknown]
  }

  lemma TallyOne(counts: Counts, kinds: seq<Kind>, kind: Kind)
    requires Tallies(counts, kinds)
    ensures Tallies(counts.Plus(kind), kinds + [kind]) && counts.Plus(kind).Total() == counts.Total() + 1
  {
  }

  method Count(entries: seq<DriftEntry>) returns (counts: Counts)
    ensures counts.Total() == |entries|
    ensures Tallies(counts, EntryKinds(entries))
  {
    hide Tallies, Counts.Total, Counts.Plus;
    TallyNone();
    counts := Counts(0, 0, 0, 0);
    ghost var seen: seq<Kind> := [];
    for i := 0 to |entries|
      invariant |seen| == i && forall j :: 0 <= j < i ==> seen[j] == entries[j].kind
      invariant counts.Total() == i && Tallies(counts, seen)
    {
      TallyOne(counts, seen, entries[i].kind);
      counts := counts.Plus(entries[i].kind);
      seen := seen + [entries[i].kind];
    }
    assert seen == EntryKinds(entries);
  }

  lemma TallyNone()
    ensures Tallies(Counts(0, 0, 0, 0), []) && Counts(0, 0, 0, 0).Total() == 0
  {
  }

  // ----- Published entries

  /** The sensitive-name rules, the redaction of a sensitive path, and the digest of one side. */
  datatype DriftPolicy = DriftPolicy(
    path: string -> bool, data: Json -> bool, redact: string -> string,
    digest: (string, Kind, string, Json) -> string)

  datatype DriftEntry = DriftEntry(
    path: string, kind: Kind, sensitive: bool, desiredHash: Option<string>, observedHash: Option<string>)

  function KeyPath(keys: seq<string>): (r: Path)
    ensures |r| == |keys|
  {
    seq(|keys|, i requires 0 <= i < |keys| => Key(keys[i]))
  }

  /** The text of a change's path. */
  function PathText(keys: seq<string>): string {
    DisplayPath(EncodePath(KeyPath(keys)))
  }

  predicate SensitiveChange(policy: DriftPolicy, c: Change) {
    policy.path(PathText(c.keys)) || (c.desired.Some? && policy.data(c.desired.value)) ||
    (c.observed.Some? && policy.data(c.observed.value))
  }

  function Hash(policy: DriftPolicy, c: Change, side: string, v: Option<Json>): Option<string> {
    if v.Some? then Some(policy.digest(PathText(c.keys), c.kind, side, v.value)) else None
  }

  /** `appendDriftChange`: a sensitive change is published without digests, its path redacted. */
  function Publish(policy: DriftPolicy, c: Change): DriftEntry {
    if SensitiveChange(policy, c) then DriftEntry(policy.redact(PathText(c.keys)), c.kind, true, None, None)
    else
      DriftEntry(PathText(c.keys), c.kind, false,
        Hash(policy, c, "desired", c.desired), Hash(policy, c, "observed", c.observed))
  }

  /** The text of a change's path names its keys, each escaped, behind slashes; the root is a lone slash. */
  lemma PathTextNames(keys: seq<string>)
    ensures keys == [] ==> PathText(keys) == "/"
    ensures keys != [] ==> PathNames(PathText(keys)) == keys && PathText(keys)[0] == '/'
  {
    if keys != [] {
      EncodePathSplits(KeyPath(keys));
      assert Names(KeyPath(keys)) == keys;
    }
  }

  /** A published change keeps its kind. When its path or one of its values is sensitive it shows a redacted path
      and no digest; otherwise its path and the digest of each side it has, bound to path, kind and side. */
  lemma PublishedExactly(policy: DriftPolicy, c: Change)
    ensures var e, text := Publish(policy, c), PathText(c.keys);
      var secret := policy.path(text) ||
        (exists v :: (c.desired == Some(v) || c.observed == Some(v)) && policy.data(v));
      && e.kind == c.kind && (e.sensitive <==> secret)
      && (secret ==> e.path == policy.redact(text) && e.desiredHash == None && e.observedHash == None)
      && (!secret ==>
            && e.path == text
            && (c.desired == None ==> e.desiredHash == None) && (c.observed == None ==> e.observedHash == None)
            && (forall v :: c.desired == Some(v) ==> e.desiredHash == Some(policy.digest(text, c.kind, "desired", v)))
            && (forall v :: c.observed == Some(v) ==>
                  e.observedHash == Some(policy.digest(text, c.kind, "observed", v))))
  {
    hide PathText;
  }

  function PublishAll(policy: DriftPolicy, changes: seq<Change>): (r: seq<DriftEntry>)
    ensures |r| == |changes| && forall i :: 0 <= i < |r| ==> r[i] == Publish(policy, changes[i])
  {
    seq(|changes|, i requires 0 <= i < |changes| => Publish(policy, changes[i]))
  }

  function KindText(kind: Kind): string {
    match kind
    case Missing => "missing"
    case Extra => "extra"
    case Changed => "changed"
    case Unknown => "unknown"
  }

  function EntryKey(e: DriftEntry): string {
    e.path + "\0" + KindText(e.kind)
  }

  /** Entries are ordered by path, and at one path by kind: changed, extra, missing, unknown. */
  lemma EntriesAreOrdered(e: DriftEntry, f: DriftEntry)
    requires '\0' !in e.path && '\0' !in f.path
    ensures Less(e.path, f.path) ==> Less(EntryKey(e), EntryKey(f))
    ensures e.path == f.path ==>
      (Less(EntryKey(e), EntryKey(f)) <==>
       (e.kind, f.kind) in {
         (Kind.Changed, Extra), (Kind.Changed, Missing), (Kind.Changed, Kind.Unknown),
         (Extra, Missing), (Extra, Kind.Unknown), (Missing, Kind.Unknown)})
  {
    var left, right := [e.path, KindText(e.kind)], [f.path, KindText(f.kind)];
    KindTextsAreOrdered(e.kind, f.kind);
    assert Join(left, "\0") == EntryKey(e) && Join(right, "\0") == EntryKey(f) by {
      assert left[1..] == [KindText(e.kind)] && right[1..] == [KindText(f.kind)];
    }
    if Less(e.path, f.path) {
      JoinOrders(left, right, 0);
    }
    if e.path == f.path {
      LessAfterSame(e.path + "\0", KindText(e.kind), KindText(f.kind));
    }
  }

  lemma KindTextsAreOrdered(k: Kind, l: Kind)
    ensures KindText(k) in {"missing", "extra", "changed", "unknown"} && '\0' !in KindText(k)
    ensures Less(KindText(k), KindText(l)) <==>
      (k, l) in {
        (Kind.Changed, Extra), (Kind.Changed, Missing), (Kind.Changed, Kind.Unknown),
        (Extra, Missing), (Extra, Kind.Unknown), (Missing, Kind.Unknown)}
  {
    LessIsIrreflexive(KindText(k));
  }

  function EntryKinds(entries: seq<DriftEntry>): (r: seq<Kind>)
    ensures |r| == |entries|
  {
    seq(|entries|, i requires 0 <= i < |entries| => entries[i].kind)
  }

  // ----- The report

  datatype DriftReport = DriftReport(clean: bool, summary: Counts, entries: seq<DriftEntry>)

  const CRITICAL_KEYS: set<string> := {"projection_version", "actions_policy", "rulesets", "organization"}

  /** `narrowToCritical`. */
  function Narrow(fields: map<string, Json>): map<string, Json> {
    map k | k in CRITICAL_KEYS && k in fields :: fields[k]
  }

  /** The state `Report` compares: the managed projection when the observation carries one, narrowed
      to the critical surface when the observation was taken at that scope. */
  function DesiredSide(
    desired: map<string, Json>, observed: map<string, Json>, project: map<string, Json> -> map<string, Json>): Json
  {
    var side := if Field(observed, "managed_projection").Obj? then project(desired) else desired;
    Obj(if StringValue(Field(observed, "observation_scope")) == "critical" then Narrow(side) else side)
  }

  function ObservedSide(observed: map<string, Json>): Json {
    var managed := Field(observed, "managed_projection");
    var side := if managed.Obj? then managed.fields else observed;
    Obj(if StringValue(Field(observed, "observation_scope")) == "critical" then Narrow(side) else side)
  }

  /** Which keys each side of a report has, and with which values: those of the managed projection if the
      observation carries one, and of these only the four critical ones if it was taken at that scope. */
  lemma SidesExactly(
    desired: map<string, Json>, observed: map<string, Json>, project: map<string, Json> -> map<string, Json>,
    key: string)
    ensures var managed := "managed_projection" in observed && observed["managed_projection"].Obj?;
      var critical := "observation_scope" in observed && observed["observation_scope"] == Str("critical");
      var d, o := DesiredSide(desired, observed, project), ObservedSide(observed);
      var fullDesired := if managed then project(desired) else desired;
      var fullObserved := if managed then observed["managed_projection"].fields else observed;
      var shown := !critical || key in {"projection_version", "actions_policy", "rulesets", "organization"};
      && d.Obj? && (key in d.fields <==> shown && key in fullDesired)
      && (key in d.fields ==> d.fields[key] == fullDesired[key])
      && o.Obj? && (key in o.fields <==> shown && key in fullObserved)
      && (key in o.fields ==> o.fields[key] == fullObserved[key])
  {
  }

  /** The changes on record when two states have been compared from an empty record. */
  ghost function Reported(volatile: set<string>, desired: Json, observed: Json): seq<Change> {
    Kept(Diff(volatile, Normalize(volatile, desired), Normalize(volatile, observed)), 0)
  }

  /** `Report`. */
  method Report(
    volatile: set<string>, policy: DriftPolicy, desired: map<string, Json>, observed: map<string, Json>,
    project: map<string, Json> -> map<string, Json>) returns (report: DriftReport)
    ensures var d, o := DesiredSide(desired, observed, project), ObservedSide(observed);
      var changes := Reported(volatile, d, o);
      && (report.clean <==> Alike(volatile, d, o) && !HoldsUnknown(Normalize(volatile, o)))
      && report.entries == SortBy(EntryKey, PublishAll(policy, changes))
      && (forall c :: c in changes ==> IsDifference(Normalize(volatile, d), Normalize(volatile, o), c))
      && (|changes| < 10_000 ==>
            ApplyAll(Normalize(volatile, o), changes) == Normalize(volatile, d) &&
            CountsPlaces(report.summary, Normalize(volatile, d), Normalize(volatile, o)))
      && report.summary.Total() == |report.entries| == |changes|
      && Tallies(report.summary, Kinds(changes))
  {
    hide *;
    var d, o := DesiredSide(desired, observed, project), ObservedSide(observed);
    var log := new ChangeLog();
    Compare(volatile, Normalize(volatile, d), Normalize(volatile, o), [], log);
    var changes := log.changes;
    ReportedChanges(volatile, d, o, changes);
    var entries := SortBy(EntryKey, PublishAll(policy, changes));
    SortedEntryKinds(policy, changes);
    var counts := Count(entries);
    TalliesAgree(counts, EntryKinds(entries), Kinds(changes));
    if |changes| < 10_000 {
      TalliesCountPlaces(volatile, d, o, counts);
    }
    report := DriftReport(|entries| == 0, counts, entries);
  }

  lemma ReportedChanges(volatile: set<string>, d: Json, o: Json, changes: seq<Change>)
    requires changes == [] + At([], Capped(volatile, Normalize(volatile, d), Normalize(volatile, o), 0))
    ensures changes == Reported(volatile, d, o)
    ensures changes == [] <==> Alike(volatile, d, o) && !HoldsUnknown(Normalize(volatile, o))
    ensures |changes| < 10_000 ==>
      changes == Diff(volatile, Normalize(volatile, d), Normalize(volatile, o)) &&
      ApplyAll(Normalize(volatile, o), changes) == Normalize(volatile, d)
    ensures forall c :: c in changes ==> IsDifference(Normalize(volatile, d), Normalize(volatile, o), c)
  {
    hide IsDifference, Diff, Capped, Kept, Normalize, Alike, HoldsUnknown, ApplyAll, At;
    var capped := Capped(volatile, Normalize(volatile, d), Normalize(volatile, o), 0);
    AtRoot(capped);
    assert [] + capped == capped;
    CappedIsKept(volatile, Normalize(volatile, d), Normalize(volatile, o), 0);
    CappedUnderCap(volatile, Normalize(volatile, d), Normalize(volatile, o));
    NormalizedCleanExactly(volatile, d, o);
    NormalizedRebuild(volatile, d, o);
    var full := Diff(volatile, Normalize(volatile, d), Normalize(volatile, o));
    KeptIsPart(full, 0);
    forall c | c in changes ensures IsDifference(Normalize(volatile, d), Normalize(volatile, o), c) {
      NormalizedDiffExactly(volatile, d, o, c);
    }
  }

  /** The entries of a comparison of two states are where their canonical forms differ, and what they hold. */
  lemma NormalizedDiffExactly(volatile: set<string>, d: Json, o: Json, c: Change)
    ensures c in Diff(volatile, Normalize(volatile, d), Normalize(volatile, o)) <==>
      IsDifference(Normalize(volatile, d), Normalize(volatile, o), c)
  {
    hide HasNoVolatile, Diff, Normalize, IsNormal, IsDifference;
    NormalizeIsNormal(volatile, d);
    NormalizeIsNormal(volatile, o);
    NormalHasNoVolatile(volatile, Normalize(volatile, d));
    NormalHasNoVolatile(volatile, Normalize(volatile, o));
    DiffExactly(volatile, Normalize(volatile, d), Normalize(volatile, o), c);
  }

  /** The four counts of a report are numbers of places. */
  ghost predicate CountsPlaces(counts: Counts, desired: Json, observed: Json) {
    && IsCount(counts.missing, desired, observed, Missing) && IsCount(counts.extra, desired, observed, Extra)
    && IsCount(counts.changed, desired, observed, Changed) && IsCount(counts.unknown, desired, observed, Unknown)
  }

  lemma TalliesCountPlaces(volatile: set<string>, d: Json, o: Json, counts: Counts)
    requires Tallies(counts, Kinds(Diff(volatile, Normalize(volatile, d), Normalize(volatile, o))))
    ensures CountsPlaces(counts, Normalize(volatile, d), Normalize(volatile, o))
  {
    hide HasNoVolatile, Diff, Normalize, IsNormal, IsCount;
    NormalizeIsNormal(volatile, d);
    NormalizeIsNormal(volatile, o);
    NormalHasNoVolatile(volatile, Normalize(volatile, d));
    NormalHasNoVolatile(volatile, Normalize(volatile, o));
    forall kind: Kind
      ensures IsCount(multiset(Kinds(Diff(volatile, Normalize(volatile, d), Normalize(volatile, o))))[kind],
        Normalize(volatile, d), Normalize(volatile, o), kind)
    {
      DiffCounts(volatile, Normalize(volatile, d), Normalize(volatile, o), kind);
    }
  }

  lemma NormalizedRebuild(volatile: set<string>, d: Json, o: Json)
    ensures ApplyAll(Normalize(volatile, o), Diff(volatile, Normalize(volatile, d), Normalize(volatile, o))) ==
            Normalize(volatile, d)
  {
    hide HasNoVolatile, Diff, Normalize, IsNormal, ApplyAll;
    NormalizeIsNormal(volatile, d);
    NormalizeIsNormal(volatile, o);
    NormalHasNoVolatile(volatile, Normalize(volatile, d));
    NormalHasNoVolatile(volatile, Normalize(volatile, o));
    Rebuild(volatile, Normalize(volatile, d), Normalize(volatile, o));
  }

  lemma SortedEntryKinds(policy: DriftPolicy, changes: seq<Change>)
    ensures var entries := SortBy(EntryKey, PublishAll(policy, changes));
      |entries| == |changes| && multiset(EntryKinds(entries)) == multiset(Kinds(changes))
  {
    hide SortBy, Publish, EntryKey;
    var published := PublishAll(policy, changes);
    SortByIsSortedPermutation(EntryKey, published);
    EntryKindsForgetOrder(SortBy(EntryKey, published), published);
    forall i | 0 <= i < |changes| ensures EntryKinds(published)[i] == Kinds(changes)[i] {
      PublishKeepsKind(policy, changes[i]);
    }
    assert EntryKinds(published) == Kinds(changes);
  }

  lemma PublishKeepsKind(policy: DriftPolicy, c: Change)
    ensures Publish(policy, c).kind == c.kind
  {
  }

  lemma {:induction false} EntryKindsForgetOrder(xs: seq<DriftEntry>, ys: seq<DriftEntry>)
    requires multiset(xs) == multiset(ys)
    ensures multiset(EntryKinds(xs)) == multiset(EntryKinds(ys))
  {
    var p := FromMultiset(xs, ys);
    ToMultiset(EntryKinds(xs), EntryKinds(ys), p);
  }

  lemma TalliesAgree(counts: Counts, kinds: seq<Kind>, others: seq<Kind>)
    requires Tallies(counts, kinds) && multiset(kinds) == multiset(others)
    ensures Tallies(counts, others)
  {
  }

  // ----- Past the cap

  /** The list outgrows the cap exactly when, past the first ten thousand entries of the full difference,
      there is a missing or extra entry of an object that has an entry among them. */
  lemma OutgrowsCapExactly(volatile: set<string>, desired: Json, observed: Json)
    ensures var full := Diff(volatile, Normalize(volatile, desired), Normalize(volatile, observed));
      |Reported(volatile, desired, observed)| > 10_000 <==>
      exists j :: 10_000 <= j < |full| && IsDirect(full[j]) && Started(full, 0, full[j])
  {
    hide Diff, Kept, Normalize, Started, IsDirect;
    KeptOverflows(Diff(volatile, Normalize(volatile, desired), Normalize(volatile, observed)), 0);
  }

  function Numerals(n: nat): (r: set<string>) {
    set i | 0 <= i < n :: Itoa(i)
  }

  lemma {:induction false} NumeralsSize(n: nat)
    ensures |Numerals(n)| == n
  {
    hide Itoa;
    if n > 0 {
      NumeralsSize(n - 1);
      if Itoa(n - 1) in Numerals(n - 1) {
        var i :| 0 <= i < n - 1 && Itoa(i) == Itoa(n - 1);
        ItoaIsInjective(i, n - 1);
      }
      assert Numerals(n) == Numerals(n - 1) + {Itoa(n - 1)};
    }
  }

  /** An object with so many keys, all null. */
  function Many(n: nat): map<string, Json> {
    map k | k in Numerals(n) :: Null
  }

  lemma {:induction false} MissingKeysAreAllReported(
    volatile: set<string>, desired: Json, observed: Json, keys: seq<string>, n: nat)
    requires desired.Obj? && observed.Obj?
    requires forall k :: k in keys ==> k in desired.fields && k !in observed.fields
    ensures |CappedKeys(volatile, desired, observed, keys, n)| == |keys|
    decreases |keys|
  {
    hide Capped;
    if keys != [] {
      MissingKeysAreAllReported(volatile, desired, observed, keys[1..], n + 1);
    }
  }

  lemma ManyIsNormal(volatile: set<string>, n: nat)
    requires volatile !! Numerals(n)
    ensures Normalize(volatile, Obj(Many(n))) == Obj(Many(n)) && Normalize(volatile, Obj(map[])) == Obj(map[])
  {
    assert Normalize(volatile, Obj(Many(n))).fields == Many(n);
    assert Normalize(volatile, Obj(map[])).fields == map[];
  }

  lemma NothingIsKnown()
    ensures !IsUnknown(Obj(map[]))
  {
    assert |Fold("")| == 0 && |Fold("unknown")| == 7;
  }

  /** An object with 10,001 keys, none of which is observed, is reported in full: the list outgrows the cap. */
  lemma OneObjectOutgrowsCap(volatile: set<string>, project: map<string, Json> -> map<string, Json>)
    requires volatile !! Numerals(10_001)
    ensures var desired: map<string, Json>, observed: map<string, Json> := Many(10_001), map[];
      |Reported(volatile, DesiredSide(desired, observed, project), ObservedSide(observed))| == 10_001
  {
    hide Numerals, Diff, Kept, Normalize, IsUnknown, DesiredSide, ObservedSide, Many;
    PlainSides(Many(10_001), project);
    ManyMissingAreReported(volatile, 10_001);
  }

  /** An observation without a scope and without a projection is compared as it stands. */
  lemma PlainSides(desired: map<string, Json>, project: map<string, Json> -> map<string, Json>)
    ensures DesiredSide(desired, map[], project) == Obj(desired) && ObservedSide(map[]) == Obj(map[])
  {
  }

  lemma ManyMissingAreReported(volatile: set<string>, n: nat)
    requires volatile !! Numerals(n)
    ensures |Reported(volatile, Obj(Many(n)), Obj(map[]))| == n
  {
    hide Numerals, Diff, Kept, Normalize, IsUnknown, CappedKeys;
    var desired, observed := Obj(Many(n)), Obj(map[]);
    ManyIsNormal(volatile, n);
    NothingIsKnown();
    NumeralsSize(n);
    var keys := ComparedKeys(volatile, desired, observed);
    assert desired.fields.Keys + observed.fields.Keys - volatile == Numerals(n);
    MissingKeysAreAllReported(volatile, desired, observed, keys, 0);
    CappedIsKept(volatile, desired, observed, 0);
  }
}
