/** The two walkers over a plan's before and after values: the changed paths, which decide what a plan
    may write, and the approver's view, which cuts off at sensitive positions. */
module PlanWalk {
  import opened Collections
  import opened Ordering
  import opened Values
  import opened Pointers

  /** One side of a change at one position. */
  datatype State = Absent | Present(value: Json) {
    predicate IsMap() {
      Present? && value.Obj?
    }

    predicate IsList() {
      Present? && value.Arr?
    }

    function Fields(): map<string, Json> {
      if IsMap() then value.fields else map[]
    }

    function Items(): seq<Json> {
      if IsList() then value.items else []
    }

    function Value(): Json {
      if Present? then value else Null
    }

    /** The state one step down; absent where there is nothing. */
    function Child(seg: Segment): State {
      match seg
      case Key(name) => if name in Fields() then Present(Fields()[name]) else Absent
      case Index(i) => if i < |Items()| then Present(Items()[i]) else Absent
    }

    function At(path: Path): State
      decreases |path|
    {
      if path == [] then this else Child(path[0]).At(path[1..])
    }
  }

  /** Both sides are objects or absent, and not both absent. */
  predicate BothMaps(before: State, after: State) {
    (before.IsMap() || before.Absent?) && (after.IsMap() || after.Absent?) && (before.IsMap() || after.IsMap())
  }

  predicate BothLists(before: State, after: State) {
    (before.IsList() || before.Absent?) && (after.IsList() || after.Absent?) && (before.IsList() || after.IsList())
  }

  predicate IsStep(before: State, after: State, seg: Segment) {
    match seg
    case Key(name) => BothMaps(before, after) && (name in before.Fields() || name in after.Fields())
    case Index(i) => BothLists(before, after) && (i < |before.Items()| || i < |after.Items()|)
  }

  function KeySteps(keys: set<string>): (r: seq<Segment>)
    ensures forall seg :: seg in r <==> seg.Key? && seg.name in keys
    ensures NoRepeats(r)
  {
    var sorted := SortedKeys(keys);
    IncreasingIsDistinct(sorted);
    var r := seq(|sorted|, i requires 0 <= i < |sorted| => Key(sorted[i]));
    assert forall i :: 0 <= i < |sorted| ==> r[i] == Key(sorted[i]);
    r
  }

  function IndexSteps(n: nat): (r: seq<Segment>)
    ensures forall seg :: seg in r <==> seg.Index? && seg.i < n
    ensures NoRepeats(r)
  {
    var r := seq(n, i requires 0 <= i < n => Index(i));
    assert forall i :: 0 <= i < n ==> r[i] == Index(i);
    r
  }

  /** The steps both walkers descend by: the union of keys, in order, or the positions of the longer list. */
  function Steps(before: State, after: State): (r: seq<Segment>)
    ensures forall seg :: seg in r <==> IsStep(before, after, seg)
    ensures NoRepeats(r)
  {
    if BothMaps(before, after) then KeySteps(before.Fields().Keys + after.Fields().Keys)
    else if BothLists(before, after) then
      IndexSteps(if |before.Items()| < |after.Items()| then |after.Items()| else |before.Items()|)
    else []
  }

  function Prefixed(seg: Segment, paths: seq<Path>): (r: seq<Path>)
    ensures |r| == |paths|
  {
    seq(|paths|, i requires 0 <= i < |paths| => [seg] + paths[i])
  }

  /** `collectChangedPlanPaths`: the positions where descending stops at a difference. */
  function Changed(before: State, after: State): seq<Path>
    decreases before.Present?, before.Value(), after.Present?, after.Value(), 1, 0
  {
    if before == after then []
    else
      var steps := Steps(before, after);
      if steps == [] then [[]] else ChangedBelow(before, after, steps)
  }

  function ChangedBelow(before: State, after: State, steps: seq<Segment>): seq<Path>
    requires forall seg :: seg in steps ==> IsStep(before, after, seg)
    decreases before.Present?, before.Value(), after.Present?, after.Value(), 0, |steps|
  {
    if steps == [] then []
    else
      assert IsStep(before, after, steps[0]);
      Prefixed(steps[0], Changed(before.Child(steps[0]), after.Child(steps[0]))) +
      ChangedBelow(before, after, steps[1..])
  }

  // ----- What the changed paths say

  lemma InPrefixed(seg: Segment, paths: seq<Path>, q: Path)
    ensures q in Prefixed(seg, paths) <==> q != [] && q[0] == seg && q[1..] in paths
  {
    var r := Prefixed(seg, paths);
    if q in r {
      var i :| 0 <= i < |r| && r[i] == q;
      assert q[1..] == paths[i];
    }
    if q != [] && q[0] == seg && q[1..] in paths {
      var i :| 0 <= i < |paths| && paths[i] == q[1..];
      assert r[i] == [seg] + q[1..] == q;
    }
  }

  lemma {:induction false} InChangedBelow(before: State, after: State, steps: seq<Segment>, q: Path)
    requires forall seg :: seg in steps ==> IsStep(before, after, seg)
    ensures q in ChangedBelow(before, after, steps) <==>
      q != [] && q[0] in steps && q[1..] in Changed(before.Child(q[0]), after.Child(q[0]))
    decreases |steps|
  {
    hide Changed, IsStep, State.Child;
    if steps != [] {
      InPrefixed(steps[0], Changed(before.Child(steps[0]), after.Child(steps[0])), q);
      InChangedBelow(before, after, steps[1..], q);
      assert steps == [steps[0]] + steps[1..];
    }
  }

  /** Where the walk descends, nothing lies outside its steps. */
  lemma ChildOutsideSteps(before: State, after: State, seg: Segment)
    requires Steps(before, after) != [] && seg !in Steps(before, after)
    ensures before.Child(seg) == Absent == after.Child(seg)
  {
    assert IsStep(before, after, Steps(before, after)[0]);
    assert !IsStep(before, after, seg);
  }

  lemma MapsDiffer(m: map<string, Json>, n: map<string, Json>) returns (k: string)
    requires m != n
    ensures k in m || k in n
    ensures k in m && k in n ==> m[k] != n[k]
  {
    if m.Keys == n.Keys {
      assert exists k :: k in m && m[k] != n[k];
      k :| k in m && m[k] != n[k];
    } else {
      assert exists k :: (k in m) != (k in n);
      k :| (k in m) != (k in n);
    }
  }

  /** Two different states that the walk descends into differ at some step. */
  lemma DifferBelow(before: State, after: State) returns (seg: Segment)
    requires before != after && Steps(before, after) != []
    ensures seg in Steps(before, after) && before.Child(seg) != after.Child(seg)
  {
    hide Steps;
    assert IsStep(before, after, Steps(before, after)[0]);
    if BothMaps(before, after) {
      if before.Fields() == after.Fields() {
        seg := Steps(before, after)[0];
      } else {
        var k := MapsDiffer(before.Fields(), after.Fields());
        seg := Key(k);
        assert IsStep(before, after, seg);
      }
    } else {
      var x, y := before.Items(), after.Items();
      if |x| != |y| || x == y {
        seg := Index(if |x| < |y| then |x| else if |y| < |x| then |y| else 0);
      } else {
        var i :| 0 <= i < |x| && x[i] != y[i];
        seg := Index(i);
      }
      assert IsStep(before, after, seg);
    }
  }

  /** No path is collected exactly when nothing changed. */
  lemma {:induction false} NothingChanged(before: State, after: State)
    ensures Changed(before, after) == [] <==> before == after
    decreases before.Present?, before.Value(), after.Present?, after.Value()
  {
    hide IsStep, BothMaps, BothLists;
    if before != after && Steps(before, after) != [] {
      var seg := DifferBelow(before, after);
      assert IsStep(before, after, seg);
      StepShrinks(before, after, seg);
      NothingChanged(before.Child(seg), after.Child(seg));
      var p := Changed(before.Child(seg), after.Child(seg))[0];
      assert ([seg] + p)[1..] == p;
      InChangedBelow(before, after, Steps(before, after), [seg] + p);
    }
  }

  /** A step makes one side smaller and leaves the other smaller, absent or as it was. */
  lemma StepShrinks(before: State, after: State, seg: Segment)
    requires IsStep(before, after, seg)
    ensures (before.Present?, before.Value(), after.Present?, after.Value() decreases to
      before.Child(seg).Present?, before.Child(seg).Value(), after.Child(seg).Present?, after.Child(seg).Value())
  {
  }

  /** Every collected path leads to a difference the walk could not descend into. */
  lemma {:induction false} ChangedIsDifferent(before: State, after: State, p: Path)
    requires p in Changed(before, after)
    ensures before.At(p) != after.At(p) && Steps(before.At(p), after.At(p)) == []
    decreases |p|
  {
    hide IsStep, BothMaps, BothLists;
    if Steps(before, after) != [] {
      InChangedBelow(before, after, Steps(before, after), p);
      ChangedIsDifferent(before.Child(p[0]), after.Child(p[0]), p[1..]);
    }
  }

  /** Every difference, anywhere, is at or below a collected path, or is a container with a collected path inside. */
  lemma {:induction false} ChangedCovers(before: State, after: State, s: Path) returns (p: Path)
    requires before.At(s) != after.At(s)
    ensures p in Changed(before, after)
    ensures p <= s || (s <= p && Steps(before.At(s), after.At(s)) != [])
    decreases |s|
  {
    hide IsStep, BothMaps, BothLists, State.Child;
    if Steps(before, after) == [] {
      p := [];
    } else if s == [] {
      NothingChanged(before, after);
      p := Changed(before, after)[0];
    } else {
      if s[0] !in Steps(before, after) {
        ChildOutsideSteps(before, after, s[0]);
      }
      var q := ChangedCovers(before.Child(s[0]), after.Child(s[0]), s[1..]);
      p := [s[0]] + q;
      CoversBelow(before, after, s, q);
    }
  }

  lemma CoversBelow(before: State, after: State, s: Path, q: Path)
    requires before != after && s != [] && s[0] in Steps(before, after)
    requires q in Changed(before.Child(s[0]), after.Child(s[0]))
    ensures [s[0]] + q in Changed(before, after)
    ensures q <= s[1..] ==> [s[0]] + q <= s
    ensures s[1..] <= q ==> s <= [s[0]] + q
  {
    hide IsStep, BothMaps, BothLists, State.Child, Steps;
    var p := [s[0]] + q;
    assert p[1..] == q && s == [s[0]] + s[1..];
    InChangedBelow(before, after, Steps(before, after), p);
  }

  // ----- The approver's view

  /** One side with the sensitivity markers that run parallel to it. */
  datatype Marked = Marked(state: State, sensitive: Json) {
    function Child(seg: Segment): Marked {
      Marked(state.Child(seg), SensitivityChild(sensitive, seg))
    }
  }

  /** `sensitivityTrue`. */
  predicate IsTrue(v: Json) {
    v == Bool(true)
  }

  /** `sensitivityChild`: a true marker covers everything below it. An empty key has no marker of its own. */
  function SensitivityChild(v: Json, seg: Segment): Json {
    if IsTrue(v) then Bool(true)
    else
      match seg
      case Key(name) => if name != "" && v.Obj? then Field(v.fields, name) else Null
      case Index(i) => if v.Arr? && i < |v.items| then v.items[i] else Null
  }

  /** The sensitive-name rules: by full path, and by the last key. */
  datatype Policy = Policy(path: string -> bool, key: string -> bool)

  datatype Entry = Entry(path: Path, sensitive: bool)

  predicate IsSensitive(policy: Policy, before: Marked, after: Marked, at: Path, inherited: bool) {
    inherited || IsTrue(before.sensitive) || IsTrue(after.sensitive) || policy.path(EncodePath(at))
  }

  predicate InheritsMark(policy: Policy, seg: Segment) {
    seg.Key? && policy.key(seg.name)
  }

  function EntriesBelow(seg: Segment, entries: seq<Entry>): (r: seq<Entry>)
    ensures |r| == |entries|
  {
    seq(|entries|, i requires 0 <= i < |entries| => entries[i].(path := [seg] + entries[i].path))
  }

  /** `collectChangedFields`, with paths relative to where it starts. */
  function View(policy: Policy, before: Marked, after: Marked, at: Path, inherited: bool): seq<Entry>
    decreases before.state.Present?, before.state.Value(), after.state.Present?, after.state.Value(), 1, 0
  {
    if before.state == after.state then []
    else if IsSensitive(policy, before, after, at, inherited) then [Entry([], true)]
    else
      var steps := Steps(before.state, after.state);
      if steps == [] then [Entry([], false)] else ViewBelow(policy, before, after, at, steps)
  }

  function ViewBelow(policy: Policy, before: Marked, after: Marked, at: Path, steps: seq<Segment>): seq<Entry>
    requires forall seg :: seg in steps ==> IsStep(before.state, after.state, seg)
    decreases before.state.Present?, before.state.Value(), after.state.Present?, after.state.Value(), 0, |steps|
  {
    if steps == [] then []
    else
      var seg := steps[0];
      assert IsStep(before.state, after.state, seg);
      EntriesBelow(seg, View(policy, before.Child(seg), after.Child(seg), at + [seg], InheritsMark(policy, seg))) +
      ViewBelow(policy, before, after, at, steps[1..])
  }

  /** The view of one child. */
  function ChildView(policy: Policy, before: Marked, after: Marked, at: Path, seg: Segment): seq<Entry> {
    View(policy, before.Child(seg), after.Child(seg), at + [seg], InheritsMark(policy, seg))
  }

  lemma InEntriesBelow(seg: Segment, entries: seq<Entry>, e: Entry)
    ensures e in EntriesBelow(seg, entries) <==>
      e.path != [] && e.path[0] == seg && e.(path := e.path[1..]) in entries
  {
    var r := EntriesBelow(seg, entries);
    if e in r {
      var i :| 0 <= i < |r| && r[i] == e;
      assert e.path[1..] == entries[i].path;
    }
    if e.path != [] && e.path[0] == seg && e.(path := e.path[1..]) in entries {
      var i :| 0 <= i < |entries| && entries[i] == e.(path := e.path[1..]);
      assert e.path == [seg] + e.path[1..];
      assert r[i] == e;
    }
  }

  lemma {:induction false} InViewBelow(
    policy: Policy, before: Marked, after: Marked, at: Path, steps: seq<Segment>, e: Entry)
    requires forall seg :: seg in steps ==> IsStep(before.state, after.state, seg)
    ensures e in ViewBelow(policy, before, after, at, steps) <==>
      e.path != [] && e.path[0] in steps &&
      e.(path := e.path[1..]) in ChildView(policy, before, after, at, e.path[0])
    decreases |steps|
  {
    hide View, IsStep, Marked.Child, InheritsMark;
    if steps != [] {
      InEntriesBelow(steps[0], ChildView(policy, before, after, at, steps[0]), e);
      InViewBelow(policy, before, after, at, steps[1..], e);
      assert steps == [steps[0]] + steps[1..];
    }
  }

  /** Neither path leads to or through the other's end. */
  predicate Apart(p: Path, q: Path) {
    !(p <= q) && !(q <= p)
  }

  ghost predicate NoNesting(entries: seq<Entry>) {
    forall i, j :: 0 <= i < j < |entries| ==> Apart(entries[i].path, entries[j].path)
  }

  lemma PrefixBelow(seg: Segment, p: Path, q: Path)
    ensures [seg] + p <= [seg] + q <==> p <= q
  {
    var p', q' := [seg] + p, [seg] + q;
    assert p'[1..] == p && q'[1..] == q;
  }

  lemma ApartBelow(seg: Segment, p: Path, q: Path)
    requires Apart(p, q)
    ensures Apart([seg] + p, [seg] + q)
  {
    PrefixBelow(seg, p, q);
    PrefixBelow(seg, q, p);
  }

  /** Entries are pairwise non-nested. */
  lemma {:induction false} ViewHasNoNesting(policy: Policy, before: Marked, after: Marked, at: Path, inherited: bool)
    ensures NoNesting(View(policy, before, after, at, inherited))
    decreases before.state.Present?, before.state.Value(), after.state.Present?, after.state.Value(), 1, 0
  {
    hide IsStep, IsSensitive;
    if before.state != after.state && !IsSensitive(policy, before, after, at, inherited) {
      ViewBelowHasNoNesting(policy, before, after, at, Steps(before.state, after.state));
    }
  }

  lemma {:induction false} ViewBelowHasNoNesting(
    policy: Policy, before: Marked, after: Marked, at: Path, steps: seq<Segment>)
    requires NoRepeats(steps) && forall seg :: seg in steps ==> IsStep(before.state, after.state, seg)
    ensures NoNesting(ViewBelow(policy, before, after, at, steps))
    decreases before.state.Present?, before.state.Value(), after.state.Present?, after.state.Value(), 0, |steps|
  {
    if steps != [] {
      var seg := steps[0];
      StepShrinks(before.state, after.state, seg);
      hide View, IsStep, InheritsMark, State.Child, SensitivityChild, Apart;
      var head := EntriesBelow(seg, ChildView(policy, before, after, at, seg));
      var tail := ViewBelow(policy, before, after, at, steps[1..]);
      ViewHasNoNesting(policy, before.Child(seg), after.Child(seg), at + [seg], InheritsMark(policy, seg));
      ViewBelowHasNoNesting(policy, before, after, at, steps[1..]);
      forall i, j | 0 <= i < j < |head| ensures Apart(head[i].path, head[j].path) {
        var entries := ChildView(policy, before, after, at, seg);
        ApartBelow(seg, entries[i].path, entries[j].path);
      }
      forall i, j | 0 <= i < |head| && 0 <= j < |tail| ensures Apart(head[i].path, tail[j].path) {
        InViewBelow(policy, before, after, at, steps[1..], tail[j]);
        assert tail[j].path[0] in steps[1..];
        ApartHeads(head[i].path, tail[j].path);
      }
    }
  }

  lemma ApartHeads(p: Path, q: Path)
    requires p != [] && q != [] && p[0] != q[0]
    ensures Apart(p, q)
  {
  }

  /** The view omits nothing: every changed path has an entry at it or above it, and an entry strictly
      above a changed path is a sensitive marker. */
  lemma {:induction false} ViewCovers(
    policy: Policy, before: Marked, after: Marked, at: Path, inherited: bool, p: Path) returns (e: Entry)
    requires p in Changed(before.state, after.state)
    ensures e in View(policy, before, after, at, inherited)
    ensures e.path <= p && (e.path != p ==> e.sensitive)
    decreases |p|
  {
    hide IsStep, IsSensitive, State.Child, SensitivityChild, InheritsMark, Changed, Steps, ViewBelow;
    ChangedCases(before.state, after.state, p);
    if IsSensitive(policy, before, after, at, inherited) {
      e := Entry([], true);
    } else if Steps(before.state, after.state) == [] {
      e := Entry([], false);
    } else {
      var below := ViewCovers(
        policy, before.Child(p[0]), after.Child(p[0]), at + [p[0]], InheritsMark(policy, p[0]), p[1..]);
      e := below.(path := [p[0]] + below.path);
      ViewHoldsChildEntry(policy, before, after, at, inherited, p[0], below);
      PrefixBelow(p[0], below.path, p[1..]);
      assert p == [p[0]] + p[1..];
    }
  }

  /** A collected path is the position itself or continues at one of the steps. */
  lemma ChangedCases(before: State, after: State, p: Path)
    requires p in Changed(before, after)
    ensures before != after
    ensures Steps(before, after) == [] ==> p == []
    ensures Steps(before, after) != [] ==>
      p != [] && p[0] in Steps(before, after) && p[1..] in Changed(before.Child(p[0]), after.Child(p[0]))
  {
    hide IsStep, State.Child, ChangedBelow;
    if Steps(before, after) != [] {
      InChangedBelow(before, after, Steps(before, after), p);
    }
  }

  lemma ViewHoldsChildEntry(
    policy: Policy, before: Marked, after: Marked, at: Path, inherited: bool, seg: Segment, below: Entry)
    requires before.state != after.state && !IsSensitive(policy, before, after, at, inherited)
    requires seg in Steps(before.state, after.state)
    requires below in ChildView(policy, before, after, at, seg)
    ensures below.(path := [seg] + below.path) in View(policy, before, after, at, inherited)
  {
    hide IsStep, IsSensitive, State.Child, SensitivityChild, InheritsMark, Steps;
    var e := below.(path := [seg] + below.path);
    assert e.(path := e.path[1..]) == below;
    InViewBelow(policy, before, after, at, Steps(before.state, after.state), e);
  }

  /** The view invents nothing: every entry stands at or above a changed path. */
  lemma {:induction false} ViewIsChanged(
    policy: Policy, before: Marked, after: Marked, at: Path, inherited: bool, e: Entry) returns (p: Path)
    requires e in View(policy, before, after, at, inherited)
    ensures p in Changed(before.state, after.state) && e.path <= p
    decreases |e.path|
  {
    hide IsStep, IsSensitive, State.Child, SensitivityChild, InheritsMark;
    if IsSensitive(policy, before, after, at, inherited) || Steps(before.state, after.state) == [] {
      NothingChanged(before.state, after.state);
      p := Changed(before.state, after.state)[0];
    } else {
      var steps := Steps(before.state, after.state);
      InViewBelow(policy, before, after, at, steps, e);
      var q := ViewIsChanged(policy, before.Child(e.path[0]), after.Child(e.path[0]), at + [e.path[0]],
        InheritsMark(policy, e.path[0]), e.(path := e.path[1..]));
      p := [e.path[0]] + q;
      assert p[1..] == q && e.path == [e.path[0]] + e.path[1..];
      InChangedBelow(before.state, after.state, steps, p);
    }
  }

  ghost predicate CoveredBy(entries: seq<Entry>, p: Path, i: nat) {
    i < |entries| && entries[i].path <= p
  }

  /** Every changed path has exactly one entry at it or above it. */
  lemma ViewCoversOnce(policy: Policy, before: Marked, after: Marked, at: Path, inherited: bool, p: Path)
    requires p in Changed(before.state, after.state)
    ensures exists i :: CoveredBy(View(policy, before, after, at, inherited), p, i)
    ensures forall i: nat, j: nat ::
      (CoveredBy(View(policy, before, after, at, inherited), p, i) &&
       CoveredBy(View(policy, before, after, at, inherited), p, j)) ==> i == j
  {
    hide View, Changed;
    var entries := View(policy, before, after, at, inherited);
    ViewHasNoNesting(policy, before, after, at, inherited);
    var e := ViewCovers(policy, before, after, at, inherited, p);
    var k :| 0 <= k < |entries| && entries[k] == e;
    assert CoveredBy(entries, p, k);
    forall i: nat, j: nat | CoveredBy(entries, p, i) && CoveredBy(entries, p, j) ensures i == j {
      PrefixesNest(entries[i].path, entries[j].path, p);
    }
  }

  lemma PrefixesNest(p: Path, q: Path, r: Path)
    requires p <= r && q <= r
    ensures !Apart(p, q)
  {
    if |p| <= |q| {
      assert p == r[..|p|] == q[..|p|];
    } else {
      assert q == r[..|q|] == p[..|q|];
    }
  }

  /** The view is empty only when nothing changed. */
  lemma ViewIsEmpty(policy: Policy, before: Marked, after: Marked, at: Path, inherited: bool)
    ensures View(policy, before, after, at, inherited) == [] <==> before.state == after.state
  {
    hide Changed;
    NothingChanged(before.state, after.state);
    if before.state != after.state {
      var p := Changed(before.state, after.state)[0];
      var e := ViewCovers(policy, before, after, at, inherited, p);
    }
  }
}
