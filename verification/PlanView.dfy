/** The approver's view as it is built and published: one field per entry, sorted by path. */
module PlanView {
  import opened Collections
  import opened Wrappers
  import opened Text
  import opened Ordering
  import opened Values
  import opened Pointers
  import opened PlanWalk
  import opened PlanPaths
  import opened PlanLookup

  /** A published field; a sensitive one carries no digests. */
  datatype FieldView = FieldView(path: string, sensitive: bool, digests: Option<(string, string)>)

  /** A digest of one side at a shown path. */
  type Digest = (string, string, State) -> string

  class FieldLog {
    var fields: seq<FieldView>

    constructor ()
      ensures fields == []
    {
      fields := [];
    }

    method Append(field: FieldView)
      modifies this
      ensures fields == old(fields) + [field]
    {
      fields := fields + [field];
    }
  }

  function Hashed(digest: Digest, path: string, before: State, after: State): FieldView {
    FieldView(path, false, Some((digest(path, "before", before), digest(path, "after", after))))
  }

  /** How an entry of a view that starts at `at` is published. */
  function Published(digest: Digest, at: Path, before: State, after: State, e: Entry): FieldView {
    var path := Shown(at + e.path);
    if e.sensitive then FieldView(path, true, None)
    else Hashed(digest, path, before.At(e.path), after.At(e.path))
  }

  function PublishedAll(digest: Digest, at: Path, before: State, after: State, entries: seq<Entry>): (r: seq<FieldView>)
    ensures |r| == |entries|
    ensures forall i :: 0 <= i < |entries| ==> r[i] == Published(digest, at, before, after, entries[i])
  {
    seq(|entries|, i requires 0 <= i < |entries| => Published(digest, at, before, after, entries[i]))
  }

  lemma PublishedBelow(digest: Digest, at: Path, before: State, after: State, seg: Segment, entries: seq<Entry>)
    ensures PublishedAll(digest, at, before, after, EntriesBelow(seg, entries)) ==
            PublishedAll(digest, at + [seg], before.Child(seg), after.Child(seg), entries)
  {
    hide Shown, State.Child;
    var below := EntriesBelow(seg, entries);
    forall i | 0 <= i < |entries|
      ensures Published(digest, at, before, after, below[i]) ==
              Published(digest, at + [seg], before.Child(seg), after.Child(seg), entries[i])
    {
      assert at + ([seg] + entries[i].path) == at + [seg] + entries[i].path;
      assert below[i].path[0] == seg && below[i].path[1..] == entries[i].path;
    }
  }

  lemma PublishedConcat(digest: Digest, at: Path, before: State, after: State, xs: seq<Entry>, ys: seq<Entry>)
    ensures PublishedAll(digest, at, before, after, xs + ys) ==
            PublishedAll(digest, at, before, after, xs) + PublishedAll(digest, at, before, after, ys)
  {
    hide Published;
  }

  lemma PublishedNone(digest: Digest, at: Path, before: State, after: State)
    ensures PublishedAll(digest, at, before, after, []) == []
  {
    hide Published;
  }

  lemma PublishedHere(digest: Digest, at: Path, before: State, after: State)
    ensures PublishedAll(digest, at, before, after, [Entry([], true)]) == [FieldView(Shown(at), true, None)]
    ensures PublishedAll(digest, at, before, after, [Entry([], false)]) == [Hashed(digest, Shown(at), before, after)]
  {
    hide Shown;
    assert at + [] == at;
  }

  /** `collectChangedFields`. The path a child gets is the text of the way down to it. */
  method CollectChangedFields(
    policy: Policy, digest: Digest, before: Marked, after: Marked, ghost at: Path, path: string, inherited: bool,
    result: FieldLog)
    requires path == EncodePath(at)
    modifies result
    ensures result.fields == old(result.fields) +
      PublishedAll(digest, at, before.state, after.state, View(policy, before, after, at, inherited))
    decreases before.state.Present?, before.state.Value(), after.state.Present?, after.state.Value(), 1
  {
    hide *;
    PublishedNone(digest, at, before.state, after.state);
    PublishedHere(digest, at, before.state, after.state);
    ViewCases(policy, before, after, at, inherited);
    ShownIsDisplay(at);
    if EqualState(before.state, after.state) {
      return;
    }
    var sensitive := inherited || IsTrue(before.sensitive) || IsTrue(after.sensitive) || policy.path(path);
    if sensitive {
      result.Append(FieldView(DisplayPath(path), true, None));
      return;
    }
    var steps := Steps(before.state, after.state);
    if steps == [] {
      result.Append(Hashed(digest, DisplayPath(path), before.state, after.state));
    } else {
      CollectFieldsBelow(policy, digest, before, after, steps, at, path, result);
    }
  }

  lemma ShownIsDisplay(p: Path)
    ensures Shown(p) == DisplayPath(EncodePath(p))
  {
  }

  lemma ViewCases(policy: Policy, before: Marked, after: Marked, at: Path, inherited: bool)
    ensures var sensitive := inherited || IsTrue(before.sensitive) || IsTrue(after.sensitive) ||
              policy.path(EncodePath(at));
      View(policy, before, after, at, inherited) ==
        if before.state == after.state then []
        else if sensitive then [Entry([], true)]
        else if Steps(before.state, after.state) == [] then [Entry([], false)]
        else ViewBelow(policy, before, after, at, Steps(before.state, after.state))
  {
    hide ViewBelow, Steps, EncodePath, IsTrue;
  }

  method CollectFieldsBelow(
    policy: Policy, digest: Digest, before: Marked, after: Marked, steps: seq<Segment>, ghost at: Path, path: string,
    result: FieldLog)
    requires path == EncodePath(at)
    requires forall seg :: seg in steps ==> IsStep(before.state, after.state, seg)
    modifies result
    ensures result.fields == old(result.fields) +
      PublishedAll(digest, at, before.state, after.state, ViewBelow(policy, before, after, at, steps))
    decreases before.state.Present?, before.state.Value(), after.state.Present?, after.state.Value(), 0
  {
    hide *;
    ghost var found: seq<Entry> := [];
    PublishedNone(digest, at, before.state, after.state);
    for i := 0 to |steps|
      invariant result.fields == old(result.fields) + PublishedAll(digest, at, before.state, after.state, found)
      invariant found + ViewBelow(policy, before, after, at, steps[i..]) == ViewBelow(policy, before, after, at, steps)
    {
      var seg := steps[i];
      assert IsStep(before.state, after.state, seg);
      MarkedStep(before, after, seg);
      EncodeChild(at, seg);
      CollectChangedFields(policy, digest, before.Child(seg), after.Child(seg), at + [seg],
        path + "/" + Token(seg), InheritsMark(policy, seg), result);
      ghost var below := ChildView(policy, before, after, at, seg);
      ghost var here := EntriesBelow(seg, below);
      PublishedBelow(digest, at, before.state, after.state, seg, below);
      PublishedConcat(digest, at, before.state, after.state, found, here);
      ViewBelowStep(policy, before, after, at, steps, i);
      Associate(found, here, ViewBelow(policy, before, after, at, steps[i + 1..]));
      found := found + here;
    }
    ViewBelowNothing(policy, before, after, at, steps[|steps|..]);
    assert found + [] == found;
  }

  lemma MarkedStep(before: Marked, after: Marked, seg: Segment)
    requires IsStep(before.state, after.state, seg)
    ensures before.Child(seg).state == before.state.Child(seg) && after.Child(seg).state == after.state.Child(seg)
    ensures (before.state.Present?, before.state.Value(), after.state.Present?, after.state.Value() decreases to
      before.Child(seg).state.Present?, before.Child(seg).state.Value(),
      after.Child(seg).state.Present?, after.Child(seg).state.Value())
  {
    StepShrinks(before.state, after.state, seg);
  }

  lemma ViewBelowStep(policy: Policy, before: Marked, after: Marked, at: Path, steps: seq<Segment>, i: nat)
    requires i < |steps| && forall seg :: seg in steps ==> IsStep(before.state, after.state, seg)
    ensures ViewBelow(policy, before, after, at, steps[i..]) ==
      EntriesBelow(steps[i], ChildView(policy, before, after, at, steps[i])) +
      ViewBelow(policy, before, after, at, steps[i + 1..])
    ensures ChildView(policy, before, after, at, steps[i]) ==
      View(policy, before.Child(steps[i]), after.Child(steps[i]), at + [steps[i]], InheritsMark(policy, steps[i]))
  {
    hide View, IsStep, Marked.Child, InheritsMark, EntriesBelow;
    assert steps[i..][0] == steps[i] && steps[i..][1..] == steps[i + 1..];
  }

  lemma ViewBelowNothing(policy: Policy, before: Marked, after: Marked, at: Path, steps: seq<Segment>)
    requires steps == []
    ensures ViewBelow(policy, before, after, at, steps) == []
  {
  }

  // ----- No two entries share a shown path

  lemma StepsShareKind(before: State, after: State, a: Segment, b: Segment)
    requires IsStep(before, after, a) && IsStep(before, after, b) && Name(a) == Name(b)
    ensures a == b
  {
    if a.Index? && b.Index? {
      ItoaIsInjective(a.i, b.i);
    }
  }

  lemma ViewMembers(policy: Policy, before: Marked, after: Marked, at: Path, inherited: bool, e: Entry)
    requires e in View(policy, before, after, at, inherited) && e.path != []
    ensures IsStep(before.state, after.state, e.path[0])
    ensures e.(path := e.path[1..]) in ChildView(policy, before, after, at, e.path[0])
    ensures forall f :: f in View(policy, before, after, at, inherited) ==> f.path != []
  {
    hide IsStep, Marked.Child, InheritsMark, IsSensitive, ChildView, ViewBelow;
    var steps := Steps(before.state, after.state);
    forall f | f in View(policy, before, after, at, inherited)
      ensures f.path != [] && f.path[0] in steps
      ensures f.(path := f.path[1..]) in ChildView(policy, before, after, at, f.path[0])
    {
      InViewBelow(policy, before, after, at, steps, f);
    }
  }

  lemma {:induction false} NamesDetermineEntryPath(
    policy: Policy, before: Marked, after: Marked, at: Path, inherited: bool, d: Entry, e: Entry)
    requires d in View(policy, before, after, at, inherited) && e in View(policy, before, after, at, inherited)
    requires Names(d.path) == Names(e.path)
    ensures d.path == e.path
    decreases |d.path|
  {
    hide View, IsStep, State.Child, Marked.Child, InheritsMark, Name;
    assert |d.path| == |Names(d.path)| == |Names(e.path)| == |e.path|;
    if d.path != [] {
      var seg := d.path[0];
      ViewMembers(policy, before, after, at, inherited, d);
      ViewMembers(policy, before, after, at, inherited, e);
      NamesTail(d.path);
      NamesTail(e.path);
      StepsShareKind(before.state, after.state, seg, e.path[0]);
      NamesDetermineEntryPath(policy, before.Child(seg), after.Child(seg), at + [seg],
        InheritsMark(policy, seg), d.(path := d.path[1..]), e.(path := e.path[1..]));
      assert d.path == [seg] + d.path[1..] && e.path == [seg] + e.path[1..];
    }
  }

  /** Different entries of a view are shown at different paths. */
  lemma EntriesAreShownApart(
    policy: Policy, before: Marked, after: Marked, inherited: bool, i: nat, j: nat)
    requires i < j < |View(policy, before, after, [], inherited)|
    ensures var entries := View(policy, before, after, [], inherited);
      Shown(entries[i].path) != Shown(entries[j].path)
  {
    hide View, Names, DisplayPath, EncodePath;
    var entries := View(policy, before, after, [], inherited);
    var p, q := entries[i].path, entries[j].path;
    ViewHasNoNesting(policy, before, after, [], inherited);
    assert Apart(p, q);
    assert p != [] && q != [] && p != q;
    if Shown(p) == Shown(q) {
      DisplayDeterminesNames(p, q);
      NamesDetermineEntryPath(policy, before, after, [], inherited, entries[i], entries[j]);
    }
  }

  // ----- What is sensitive

  /** The marker in force at a position: one step at a time, as the walker passes it down. */
  function MarkAt(v: Json, q: Path): Json
    decreases |q|
  {
    if q == [] then v else MarkAt(SensitivityChild(v, q[0]), q[1..])
  }

  ghost predicate MarkedAbove(v: Json, q: Path, r: Path) {
    r <= q && Key("") !in r && Present(v).At(r) == Present(Bool(true))
  }

  lemma {:induction false} NullStaysNull(q: Path)
    ensures MarkAt(Null, q) == Null
    decreases |q|
  {
    if q != [] {
      NullStaysNull(q[1..]);
    }
  }

  lemma {:induction false} TrueStaysTrue(q: Path)
    ensures MarkAt(Bool(true), q) == Bool(true)
    decreases |q|
  {
    if q != [] {
      TrueStaysTrue(q[1..]);
    }
  }

  /** A position is marked exactly when a true marker stands at it or above it, on a way without empty
      keys: a marker behind an empty key is never read. */
  lemma {:induction false} MarkAtExactly(v: Json, q: Path)
    ensures IsTrue(MarkAt(v, q)) <==> exists r :: MarkedAbove(v, q, r)
    decreases |q|
  {
    hide State.Child;
    if IsTrue(v) {
      TrueStaysTrue(q);
      assert MarkedAbove(v, q, []);
    } else if q != [] {
      var child := SensitivityChild(v, q[0]);
      MarkAtExactly(child, q[1..]);
      MarkChild(v, q[0]);
      NullStaysNull(q[1..]);
      MarkedAboveChild(v, q, child);
    }
  }

  lemma MarkChild(v: Json, seg: Segment)
    requires !IsTrue(v)
    ensures SensitivityChild(v, seg) ==
      if seg != Key("") && Present(v).Child(seg).Present? then Present(v).Child(seg).value else Null
  {
  }

  lemma MarkedAboveChild(v: Json, q: Path, child: Json)
    requires !IsTrue(v) && q != [] && child == SensitivityChild(v, q[0])
    ensures (exists r :: MarkedAbove(v, q, r)) <==>
      q[0] != Key("") && Present(v).Child(q[0]).Present? && exists r :: MarkedAbove(child, q[1..], r)
  {
    hide State.Child, SensitivityChild;
    MarkChild(v, q[0]);
    if r :| MarkedAbove(v, q, r) {
      assert r != [] && r[0] == q[0] && r[0] in r;
      AbsentBelow(r[1..]);
      assert MarkedAbove(child, q[1..], r[1..]);
    }
    if q[0] != Key("") && Present(v).Child(q[0]).Present? {
      forall r | MarkedAbove(child, q[1..], r) ensures MarkedAbove(v, q, [q[0]] + r) {
        assert ([q[0]] + r)[1..] == r;
        assert q == [q[0]] + q[1..];
        PrefixBelow(q[0], r, q[1..]);
      }
    }
  }

  /** No name is sensitive. */
  function QuietPolicy(): Policy {
    Policy(path => false, key => false)
  }

  /** A marker behind an empty key is ignored, and its value is digested. */
  lemma EmptyKeyHidesMarker()
    ensures var value, marker := Obj(map["" := Str("x")]), Obj(map["" := Bool(true)]);
      Entry([Key("")], false) in View(QuietPolicy(), Marked(Absent, Null), Marked(Present(value), marker), [], false)
  {
    var value, marker := Obj(map["" := Str("x")]), Obj(map["" := Bool(true)]);
    var before, after := Marked(Absent, Null), Marked(Present(value), marker);
    var steps, entry := Steps(before.state, after.state), Entry([Key("")], false);
    assert IsStep(before.state, after.state, Key(""));
    assert after.Child(Key("")) == Marked(Present(Str("x")), Null);
    assert before.Child(Key("")) == Marked(Absent, Null);
    StringIsOneEntry([] + [Key("")]);
    assert entry.(path := entry.path[1..]) == Entry([], false);
    InViewBelow(QuietPolicy(), before, after, [], steps, entry);
  }

  lemma StringIsOneEntry(at: Path)
    ensures View(QuietPolicy(), Marked(Absent, Null), Marked(Present(Str("x")), Null), at, false) == [Entry([], false)]
  {
    ScalarsHaveNoSteps(Absent, Present(Str("x")));
  }

  /** The position itself is sensitive: by marker on either side, by path, by its own key, or from the start. */
  predicate SensitiveAt(policy: Policy, before: Marked, after: Marked, at: Path, inherited: bool, q: Path) {
    IsTrue(MarkAt(before.sensitive, q)) || IsTrue(MarkAt(after.sensitive, q)) || policy.path(EncodePath(at + q)) ||
    (if q == [] then inherited else InheritsMark(policy, q[|q| - 1]))
  }

  lemma SensitiveStep(policy: Policy, before: Marked, after: Marked, at: Path, inherited: bool, q: Path)
    ensures SensitiveAt(policy, before, after, at, inherited, []) <==> IsSensitive(policy, before, after, at, inherited)
    ensures q != [] ==>
      (SensitiveAt(policy, before, after, at, inherited, q) <==>
       SensitiveAt(policy, before.Child(q[0]), after.Child(q[0]), at + [q[0]], InheritsMark(policy, q[0]), q[1..]))
  {
    hide State.Child, SensitivityChild, EncodePath, InheritsMark;
    assert at + [] == at;
    if q != [] {
      assert at + [q[0]] + q[1..] == at + q;
    }
  }

  /** An entry is sensitive exactly when its own position is, and it never lies below a sensitive one: no
      entry stands at or under a sensitive position with a digest. (The digest of an entry above one, where
      container kinds differ, covers the whole value.) */
  lemma {:induction false} EntriesAreSensitiveExactly(
    policy: Policy, before: Marked, after: Marked, at: Path, inherited: bool, e: Entry, q: Path)
    requires e in View(policy, before, after, at, inherited) && q <= e.path
    ensures SensitiveAt(policy, before, after, at, inherited, q) <==> q == e.path && e.sensitive
    decreases |q|
  {
    hide View, SensitiveAt, IsSensitive, State.Child, Marked.Child, SensitivityChild, InheritsMark;
    SensitiveStep(policy, before, after, at, inherited, q);
    ViewCases(policy, before, after, at, inherited);
    EntrySensitivity(policy, before, after, at, inherited, e);
    if q != [] {
      ViewMembers(policy, before, after, at, inherited, e);
      assert e.path == [e.path[0]] + e.path[1..] && q == [q[0]] + q[1..];
      EntriesAreSensitiveExactly(policy, before.Child(q[0]), after.Child(q[0]), at + [q[0]],
        InheritsMark(policy, q[0]), e.(path := e.path[1..]), q[1..]);
    }
  }

  lemma EntrySensitivity(policy: Policy, before: Marked, after: Marked, at: Path, inherited: bool, e: Entry)
    requires e in View(policy, before, after, at, inherited)
    ensures IsSensitive(policy, before, after, at, inherited) <==> e.path == [] && e.sensitive
  {
    hide IsSensitive, State.Child, Marked.Child, SensitivityChild, InheritsMark, IsStep, ViewBelow;
    if before.state != after.state && !IsSensitive(policy, before, after, at, inherited) &&
      Steps(before.state, after.state) != []
    {
      InViewBelow(policy, before, after, at, Steps(before.state, after.state), e);
    }
  }

  function FieldPath(field: FieldView): string {
    field.path
  }

  function FieldPaths(fields: seq<FieldView>): (r: seq<string>)
    ensures |r| == |fields|
    ensures forall i :: 0 <= i < |fields| ==> r[i] == fields[i].path
  {
    seq(|fields|, i requires 0 <= i < |fields| => fields[i].path)
  }

  lemma PublishedHasNoRepeats(policy: Policy, digest: Digest, before: Marked, after: Marked, inherited: bool)
    ensures NoRepeats(FieldPaths(
      PublishedAll(digest, [], before.state, after.state, View(policy, before, after, [], inherited))))
  {
    hide View, Shown;
    var entries := View(policy, before, after, [], inherited);
    var fields := PublishedAll(digest, [], before.state, after.state, entries);
    forall i, j | 0 <= i < j < |fields| ensures FieldPaths(fields)[i] != FieldPaths(fields)[j] {
      EntriesAreShownApart(policy, before, after, inherited, i, j);
      assert [] + entries[i].path == entries[i].path && [] + entries[j].path == entries[j].path;
    }
  }

  /** Fields at different paths have one sorted arrangement, strictly increasing. */
  lemma SortedWithoutRepeats(fields: seq<FieldView>, sorted: seq<FieldView>)
    requires NoRepeats(FieldPaths(fields))
    requires multiset(sorted) == multiset(fields) && SortedBy(FieldPath, sorted)
    ensures Increasing(FieldPaths(sorted))
    ensures TellsApart(FieldPath, multiset(fields))
  {
    forall i, j | 0 <= i < j < |fields| ensures fields[i] != fields[j] {
      assert FieldPaths(fields)[i] != FieldPaths(fields)[j];
    }
    RearrangedNoRepeats(fields, sorted);
    forall x, y | x in multiset(fields) && y in multiset(fields) && FieldPath(x) == FieldPath(y) ensures x == y {
      var i :| 0 <= i < |fields| && fields[i] == x;
      var j :| 0 <= j < |fields| && fields[j] == y;
      assert FieldPaths(fields)[i] == FieldPaths(fields)[j];
    }
    forall i, j | 0 <= i < j < |sorted| ensures Less(sorted[i].path, sorted[j].path) {
      assert Leq(FieldPath(sorted[i]), FieldPath(sorted[j]));
      assert sorted[i] in multiset(sorted) && sorted[j] in multiset(sorted);
    }
  }

  /** The published fields of a view, sorted. */
  ghost function Projection(policy: Policy, digest: Digest, before: Marked, after: Marked, inherited: bool)
    : seq<FieldView>
  {
    SortBy(FieldPath,
      PublishedAll(digest, [], before.state, after.state, View(policy, before, after, [], inherited)))
  }

  /** `changedFieldProjection`: what the approver sees of one resource, each path once, in order of path.
      The order does not depend on how the library sorts. */
  method ChangedFieldProjection(policy: Policy, digest: Digest, before: Marked, after: Marked, inherited: bool)
    returns (fields: seq<FieldView>)
    ensures fields == Projection(policy, digest, before, after, inherited)
    ensures multiset(fields) ==
      multiset(PublishedAll(digest, [], before.state, after.state, View(policy, before, after, [], inherited)))
    ensures Increasing(FieldPaths(fields))
    ensures fields == [] <==> before.state == after.state
  {
    hide *;
    RootEncodes();
    var log := new FieldLog();
    CollectChangedFields(policy, digest, before, after, [], "", inherited, log);
    var collected := log.fields;
    fields := SortBy(FieldPath, collected);
    SortByIsSortedPermutation(FieldPath, collected);
    PublishedHasNoRepeats(policy, digest, before, after, inherited);
    assert collected == PublishedAll(digest, [], before.state, after.state, View(policy, before, after, [], inherited));
    SortedWithoutRepeats(collected, fields);
    ViewIsEmpty(policy, before, after, [], inherited);
    ProjectionIsSorted(policy, digest, before, after, inherited);
  }

  lemma ProjectionIsSorted(policy: Policy, digest: Digest, before: Marked, after: Marked, inherited: bool)
    ensures Projection(policy, digest, before, after, inherited) == SortBy(FieldPath,
      PublishedAll(digest, [], before.state, after.state, View(policy, before, after, [], inherited)))
  {
    hide SortBy, View;
  }

  /** Every changed path of an update or create has exactly one published field at it or above it, and
      one strictly above is sensitive and carries no digest. */
  lemma ProjectionOmitsNothing(policy: Policy, digest: Digest, before: Marked, after: Marked, inherited: bool, p: Path)
    returns (e: Entry)
    requires p in Changed(before.state, after.state)
    ensures e in View(policy, before, after, [], inherited) && e.path <= p
    ensures Published(digest, [], before.state, after.state, e) in
      PublishedAll(digest, [], before.state, after.state, View(policy, before, after, [], inherited))
    ensures e.path != p ==> Published(digest, [], before.state, after.state, e) == FieldView(Shown(e.path), true, None)
    ensures forall f :: f in View(policy, before, after, [], inherited) && f.path <= p ==> f == e
  {
    hide View, Changed, Shown, State.At;
    e := ViewCovers(policy, before, after, [], inherited, p);
    assert [] + e.path == e.path;
    var entries := View(policy, before, after, [], inherited);
    var k :| 0 <= k < |entries| && entries[k] == e;
    assert PublishedAll(digest, [], before.state, after.state, entries)[k] ==
      Published(digest, [], before.state, after.state, e);
    ViewCoversOnce(policy, before, after, [], inherited, p);
    forall f | f in entries && f.path <= p ensures f == e {
      var j :| 0 <= j < |entries| && entries[j] == f;
      assert CoveredBy(entries, p, j) && CoveredBy(entries, p, k);
    }
  }

  // ----- What one published field shows

  /** A position is secret: a true marker stands at or above it on either side, on a way without empty keys, or
      the rules name its path or its last key, or the whole resource is. */
  ghost predicate IsSecret(policy: Policy, before: Marked, after: Marked, inherited: bool, q: Path) {
    || (exists r :: MarkedAbove(before.sensitive, q, r)) || (exists r :: MarkedAbove(after.sensitive, q, r))
    || policy.path(EncodePath(q))
    || (if q == [] then inherited else q[|q| - 1].Key? && policy.key(q[|q| - 1].name))
  }

  lemma SecretExactly(policy: Policy, before: Marked, after: Marked, inherited: bool, q: Path)
    ensures SensitiveAt(policy, before, after, [], inherited, q) <==> IsSecret(policy, before, after, inherited, q)
  {
    hide EncodePath, MarkedAbove, MarkAt;
    MarkAtExactly(before.sensitive, q);
    MarkAtExactly(after.sensitive, q);
    assert [] + q == q;
  }

  /** A field stands for a changed position that no secret one is above; it has no digests when the position is
      secret, and otherwise digests of exactly what stood and what will stand there. */
  ghost predicate ShowsAt(
    policy: Policy, digest: Digest, before: Marked, after: Marked, inherited: bool, field: FieldView, q: Path)
  {
    && field.path == Shown(q) && before.state.At(q) != after.state.At(q)
    && (forall r :: r <= q && r != q ==> !IsSecret(policy, before, after, inherited, r))
    && if IsSecret(policy, before, after, inherited, q) then field.sensitive && field.digests == None
       else
         !field.sensitive &&
         field.digests ==
           Some((digest(Shown(q), "before", before.state.At(q)), digest(Shown(q), "after", after.state.At(q))))
  }

  lemma {:induction false} EntriesDiffer(
    policy: Policy, before: Marked, after: Marked, at: Path, inherited: bool, e: Entry)
    requires e in View(policy, before, after, at, inherited)
    ensures before.state.At(e.path) != after.state.At(e.path)
    decreases |e.path|
  {
    hide IsSensitive, State.Child, Marked.Child, SensitivityChild, InheritsMark, IsStep, ViewBelow, View;
    ViewCases(policy, before, after, at, inherited);
    if e.path != [] {
      ViewMembers(policy, before, after, at, inherited, e);
      MarkedStep(before, after, e.path[0]);
      EntriesDiffer(policy, before.Child(e.path[0]), after.Child(e.path[0]), at + [e.path[0]],
        InheritsMark(policy, e.path[0]), e.(path := e.path[1..]));
    }
  }

  /** Every published field shows one changed position. */
  lemma FieldsShow(
    policy: Policy, digest: Digest, before: Marked, after: Marked, inherited: bool, field: FieldView)
    returns (q: Path)
    requires field in Projection(policy, digest, before, after, inherited)
    ensures ShowsAt(policy, digest, before, after, inherited, field, q)
  {
    hide View, Shown, State.At, SortBy, IsSecret, SensitiveAt;
    var entries := View(policy, before, after, [], inherited);
    var all := PublishedAll(digest, [], before.state, after.state, entries);
    SortByIsSortedPermutation(FieldPath, all);
    assert field in multiset(Projection(policy, digest, before, after, inherited));
    var i :| 0 <= i < |all| && all[i] == field;
    var e := entries[i];
    q := e.path;
    assert [] + q == q;
    EntriesDiffer(policy, before, after, [], inherited, e);
    forall r | r <= q ensures IsSecret(policy, before, after, inherited, r) <==> r == q && e.sensitive {
      SecretExactly(policy, before, after, inherited, r);
      EntriesAreSensitiveExactly(policy, before, after, [], inherited, e, r);
    }
  }
}
