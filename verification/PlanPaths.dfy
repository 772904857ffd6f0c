/** The walker over changed paths as it runs, and the write list it enforces. */
module PlanPaths {
  import opened Collections
  import opened Wrappers
  import opened Text
  import opened Values
  import opened Canonical
  import opened Pointers
  import opened PlanWalk
  import opened PlanLookup

  /** `equalPlanFieldValue` and `equalFieldState`. */
  predicate EqualState(before: State, after: State)
    ensures EqualState(before, after) <==> before == after
  {
    hide CanonicalText;
    if before.Present? && after.Present? then
      CanonicalTextIsInjectiveHere(before.value, after.value);
      CanonicalText(before.value) == CanonicalText(after.value)
    else before.Absent? && after.Absent?
  }

  lemma CanonicalTextIsInjectiveHere(v: Json, w: Json)
    ensures CanonicalText(v) == CanonicalText(w) <==> v == w
  {
    hide CanonicalText;
    if CanonicalText(v) == CanonicalText(w) {
      CanonicalTextIsInjective(v, w);
    }
  }

  class PathSet {
    var paths: set<string>

    constructor ()
      ensures paths == {}
    {
      paths := {};
    }

    method Add(path: string)
      modifies this
      ensures paths == old(paths) + {path}
    {
      paths := paths + {path};
    }
  }

  /** Paths below a position, as shown. */
  function ShownSet(path: string, ps: seq<Path>): (r: set<string>)
    ensures forall p :: p in ps ==> DisplayPath(path + EncodePath(p)) in r
  {
    set p | p in ps :: DisplayPath(path + EncodePath(p))
  }

  lemma ShownSetNone(path: string)
    ensures ShownSet(path, []) == {}
  {
  }

  lemma ShownSetHere(path: string)
    ensures ShownSet(path, [[]]) == {DisplayPath(path)}
  {
    RootEncodes();
    assert path + "" == path;
    var here: seq<Path> := [[]];
    assert here[0] in here;
  }

  lemma ShownSetConcat(path: string, xs: seq<Path>, ys: seq<Path>)
    ensures ShownSet(path, xs + ys) == ShownSet(path, xs) + ShownSet(path, ys)
  {
    hide EncodePath;
    assert forall p :: p in xs + ys <==> p in xs || p in ys;
  }

  lemma ShownSetPrefixed(path: string, seg: Segment, ps: seq<Path>)
    ensures ShownSet(path, Prefixed(seg, ps)) == ShownSet(path + "/" + Token(seg), ps)
  {
    hide EncodePath, Token;
    var deeper := path + "/" + Token(seg);
    forall shown | shown in ShownSet(path, Prefixed(seg, ps)) ensures shown in ShownSet(deeper, ps) {
      var p :| p in Prefixed(seg, ps) && shown == DisplayPath(path + EncodePath(p));
      InPrefixed(seg, ps, p);
      assert p == [seg] + p[1..];
      EncodeStep(path, seg, p[1..]);
    }
    forall shown | shown in ShownSet(deeper, ps) ensures shown in ShownSet(path, Prefixed(seg, ps)) {
      var p :| p in ps && shown == DisplayPath(deeper + EncodePath(p));
      assert ([seg] + p)[1..] == p;
      InPrefixed(seg, ps, [seg] + p);
      EncodeStep(path, seg, p);
    }
  }

  /** `collectChangedPlanPaths`. */
  method CollectChangedPlanPaths(before: State, after: State, path: string, result: PathSet)
    modifies result
    ensures result.paths == old(result.paths) + ShownSet(path, Changed(before, after))
    decreases before.Present?, before.Value(), after.Present?, after.Value(), 1
  {
    hide ShownSet, ChangedBelow, BothMaps, BothLists, IsStep;
    ShownSetNone(path);
    ShownSetHere(path);
    if EqualState(before, after) {
      return;
    }
    var steps := Steps(before, after);
    if steps == [] {
      result.Add(DisplayPath(path));
    } else {
      CollectChangedBelow(before, after, steps, path, result);
    }
  }

  method CollectChangedBelow(before: State, after: State, steps: seq<Segment>, path: string, result: PathSet)
    requires forall seg :: seg in steps ==> IsStep(before, after, seg)
    modifies result
    ensures result.paths == old(result.paths) + ShownSet(path, ChangedBelow(before, after, steps))
    decreases before.Present?, before.Value(), after.Present?, after.Value(), 0
  {
    hide Changed, ChangedBelow, EncodePath, Token, ShownSet, State.Child, State.Value, Prefixed, IsStep;
    ghost var found: seq<Path> := [];
    ShownSetNone(path);
    for i := 0 to |steps|
      invariant result.paths == old(result.paths) + ShownSet(path, found)
      invariant found + ChangedBelow(before, after, steps[i..]) == ChangedBelow(before, after, steps)
    {
      var seg := steps[i];
      assert IsStep(before, after, seg);
      StepShrinks(before, after, seg);
      CollectChangedPlanPaths(before.Child(seg), after.Child(seg), path + "/" + Token(seg), result);
      ghost var here := Prefixed(seg, Changed(before.Child(seg), after.Child(seg)));
      ShownSetPrefixed(path, seg, Changed(before.Child(seg), after.Child(seg)));
      ShownSetConcat(path, found, here);
      ChangedBelowStep(before, after, steps, i);
      Associate(found, here, ChangedBelow(before, after, steps[i + 1..]));
      found := found + here;
    }
    ChangedBelowNothing(before, after, steps[|steps|..]);
    assert found + [] == found;
  }

  lemma ChangedBelowStep(before: State, after: State, steps: seq<Segment>, i: nat)
    requires i < |steps| && forall seg :: seg in steps ==> IsStep(before, after, seg)
    ensures ChangedBelow(before, after, steps[i..]) ==
      Prefixed(steps[i], Changed(before.Child(steps[i]), after.Child(steps[i]))) +
      ChangedBelow(before, after, steps[i + 1..])
  {
    hide Changed, State.Child, Prefixed, IsStep;
    assert steps[i..][0] == steps[i] && steps[i..][1..] == steps[i + 1..];
  }

  lemma ChangedBelowNothing(before: State, after: State, steps: seq<Segment>)
    requires steps == []
    ensures ChangedBelow(before, after, steps) == []
  {
  }

  // ----- The write list

  predicate IsNumber(segment: string) {
    Atoi(segment).Some?
  }

  function Star(segment: string): string {
    if IsNumber(segment) then "*" else segment
  }

  function StarAll(segments: seq<string>): (r: seq<string>)
    ensures |r| == |segments|
    ensures forall i :: 0 <= i < |segments| ==> r[i] == Star(segments[i])
  {
    seq(|segments|, i requires 0 <= i < |segments| => Star(segments[i]))
  }

  /** `normalizePlanFieldPath`. */
  method NormalizePlanFieldPath(path: string) returns (normalized: string)
    ensures normalized == NormalizedPath(path)
  {
    if path == "" {
      return "/";
    }
    var segments := RawSegments(path);
    ghost var raw := segments;
    for i := 0 to |segments|
      invariant |segments| == |raw|
      invariant forall j :: 0 <= j < i ==> segments[j] == Star(raw[j])
      invariant forall j :: i <= j < |raw| ==> segments[j] == raw[j]
    {
      if IsNumber(segments[i]) {
        segments := segments[i := "*"];
      }
    }
    assert segments == StarAll(raw);
    return "/" + Join(segments, "/");
  }

  function NormalizedPath(path: string): string {
    if path == "" then "/" else "/" + Join(StarAll(RawSegments(path)), "/")
  }

  /** Either text of the root stays the root. */
  lemma NormalizedRoot()
    ensures NormalizedPath("") == "/" == NormalizedPath("/")
  {
    assert RawSegments("/") == [""];
    assert StarAll([""]) == [""];
  }

  lemma {:induction false} SlashJoin(tokens: seq<string>)
    requires tokens != []
    ensures "/" + Join(tokens, "/") == JoinTokens(tokens)
  {
    if |tokens| > 1 {
      SlashJoin(tokens[1..]);
      Associate("/", tokens[0], "/" + Join(tokens[1..], "/"));
      Associate(tokens[0], "/", Join(tokens[1..], "/"));
    } else {
      assert JoinTokens(tokens[1..]) == "";
      assert tokens[0] + "" == tokens[0];
    }
  }

  /** A walked path keeps its tokens, with every decimal one replaced by a star. */
  lemma NormalizedWalk(p: Path)
    requires p != []
    ensures NormalizedPath(DisplayPath(EncodePath(p))) == JoinTokens(StarAll(Tokens(p)))
  {
    hide Star;
    forall i | 0 <= i < |p| ensures '/' !in Token(p[i]) {
      UnescapeToken(p[i]);
    }
    JoinedTokensSplit(Tokens(p));
    SlashJoin(StarAll(Tokens(p)));
  }

  /** The write list cannot tell list positions apart. */
  lemma PositionsNormalizeAlike(p: Path, i: nat, j: nat, q: Path)
    requires i < INT64_LIMIT && j < INT64_LIMIT
    ensures NormalizedPath(DisplayPath(EncodePath(p + [Index(i)] + q))) ==
            NormalizedPath(DisplayPath(EncodePath(p + [Index(j)] + q)))
  {
    hide NormalizedPath, JoinTokens, EncodePath, StarAll, Tokens;
    NormalizedWalk(p + [Index(i)] + q);
    NormalizedWalk(p + [Index(j)] + q);
    StarredPosition(p, i, q);
    StarredPosition(p, j, q);
  }

  lemma StarredPosition(p: Path, i: nat, q: Path)
    requires i < INT64_LIMIT
    ensures StarAll(Tokens(p + [Index(i)] + q)) == StarAll(Tokens(p)) + ["*"] + StarAll(Tokens(q))
  {
    hide Token, Star;
    StarsConcat(p + [Index(i)], q);
    StarsConcat(p, [Index(i)]);
    StarredIndex(i);
  }

  lemma StarsConcat(p: Path, q: Path)
    ensures StarAll(Tokens(p + q)) == StarAll(Tokens(p)) + StarAll(Tokens(q))
  {
    hide Token, Star;
  }

  lemma StarredIndex(i: nat)
    requires i < INT64_LIMIT
    ensures StarAll(Tokens([Index(i)])) == ["*"]
  {
    AtoiOfItoa(i);
  }

  /** What the catalogue of managed writes says about one resource type. */
  datatype WriteList = WriteList(patterns: Option<seq<string>>, computed: seq<string>)

  ghost predicate KnownComputed(list: WriteList, path: string, after: Json, afterUnknown: Json) {
    NormalizedPath(path) in list.computed &&
    ValueAtPath(after, path) == Some(Null) && UnknownAtPath(afterUnknown, path)
  }

  /** `knownComputedUnknownPath`. */
  method KnownComputedUnknownPath(list: WriteList, path: string, after: Json, afterUnknown: Json)
    returns (known: bool)
    ensures known <==> KnownComputed(list, path, after, afterUnknown)
  {
    hide NormalizedPath, ValueAtPath, UnknownAtPath;
    var normalized := NormalizePlanFieldPath(path);
    if normalized !in list.computed {
      return false;
    }
    var value, found := PlanValueAtPath(after, path);
    var unknown := PlanUnknownAtPath(afterUnknown, path);
    return found && value == Null && unknown;
  }

  /** `afterUnknownPathsAllowed`. */
  method AfterUnknownPathsAllowed(list: WriteList, after: Json, afterUnknown: Json) returns (allowed: bool)
    ensures allowed <==>
      forall p :: p in UnknownPaths(afterUnknown) ==> KnownComputed(list, Shown(p), after, afterUnknown)
  {
    hide *;
    ghost var ps := UnknownPaths(afterUnknown);
    var paths := UnknownPathTexts(afterUnknown);
    for i := 0 to |paths|
      invariant forall j :: 0 <= j < i ==> KnownComputed(list, Shown(ps[j]), after, afterUnknown)
    {
      var known := KnownComputedUnknownPath(list, paths[i], after, afterUnknown);
      if !known {
        return false;
      }
    }
    return true;
  }

  method UnknownPathTexts(v: Json) returns (paths: seq<string>)
    ensures |paths| == |UnknownPaths(v)|
    ensures forall i :: 0 <= i < |paths| ==> paths[i] == Shown(UnknownPaths(v)[i])
  {
    hide *;
    var found := new PathList();
    CollectTrueUnknownPaths(v, "", found);
    paths := found.paths;
    ShownAllFromRoot(UnknownPaths(v));
  }

  lemma ShownAllFromRoot(ps: seq<Path>)
    ensures forall i :: 0 <= i < |ps| ==> ShownAll("", ps)[i] == Shown(ps[i])
  {
    hide EncodePath;
    forall p: Path ensures "" + EncodePath(p) == EncodePath(p) {
    }
  }

  /** A walked path as reports show it. */
  function Shown(p: Path): string {
    DisplayPath(EncodePath(p))
  }

  predicate Listed(list: WriteList, path: string) {
    list.patterns.Some? && NormalizedPath(path) in list.patterns.value
  }

  function Side(v: Option<map<string, Json>>): State {
    if v.Some? then Present(Obj(v.value)) else Absent
  }

  /** Everything changed is on the write list, or on a create a computed value not yet known; and
      everything unknown is such a value. */
  ghost predicate ChangeAllowed(
    list: WriteList, action: string,
    before: Option<map<string, Json>>, after: Option<map<string, Json>>, afterUnknown: Json)
  {
    && list.patterns.Some? && after.Some? && (action == "update" ==> before.Some?)
    && (forall p :: p in UnknownPaths(afterUnknown) ==>
          KnownComputed(list, Shown(p), Obj(after.value), afterUnknown))
    && (forall p :: p in Changed(Side(before), Side(after)) ==>
          PathAllowed(list, action, Shown(p), Obj(after.value), afterUnknown))
  }

  ghost predicate PathAllowed(list: WriteList, action: string, path: string, after: Json, afterUnknown: Json) {
    Listed(list, path) || (action == "create" && KnownComputed(list, path, after, afterUnknown))
  }

  /** `managedChangedFieldsAllowed`. */
  method ManagedChangedFieldsAllowed(
    list: WriteList, action: string,
    before: Option<map<string, Json>>, after: Option<map<string, Json>>, afterUnknown: Json)
    returns (allowed: bool)
    ensures allowed <==> ChangeAllowed(list, action, before, after, afterUnknown)
  {
    hide KnownComputed, UnknownPaths, Changed, EncodePath, NormalizedPath;
    if list.patterns.None? || after.None? || (action == "update" && before.None?) {
      return false;
    }
    var unknownsAllowed := AfterUnknownPathsAllowed(list, Obj(after.value), afterUnknown);
    if !unknownsAllowed {
      return false;
    }
    allowed := ChangedPathsAllowed(list, action, Side(before), Side(after), Obj(after.value), afterUnknown);
  }

  method ChangedPathsAllowed(
    list: WriteList, action: string, before: State, after: State, afterValue: Json, afterUnknown: Json)
    returns (allowed: bool)
    requires list.patterns.Some?
    ensures allowed <==> forall p :: p in Changed(before, after) ==>
      PathAllowed(list, action, Shown(p), afterValue, afterUnknown)
  {
    hide *;
    var paths := ChangedPathTexts(before, after);
    ShownFromRoot(Changed(before, after));
    var rest := paths;
    while rest != {}
      invariant rest <= paths
      invariant forall path :: path in paths - rest ==>
        PathAllowed(list, action, path, afterValue, afterUnknown)
    {
      var path :| path in rest;
      var pathAllowed := IsPathAllowed(list, action, path, afterValue, afterUnknown);
      if !pathAllowed {
        return false;
      }
      rest := rest - {path};
    }
    assert forall path :: path in paths ==> path in paths - rest;
    return true;
  }

  method IsPathAllowed(list: WriteList, action: string, path: string, after: Json, afterUnknown: Json)
    returns (allowed: bool)
    requires list.patterns.Some?
    ensures allowed <==> PathAllowed(list, action, path, after, afterUnknown)
  {
    hide KnownComputed, NormalizedPath;
    var normalized := NormalizePlanFieldPath(path);
    if normalized in list.patterns.value {
      return true;
    }
    var known := KnownComputedUnknownPath(list, path, after, afterUnknown);
    return action == "create" && known;
  }

  method ChangedPathTexts(before: State, after: State) returns (paths: set<string>)
    ensures paths == ShownSet("", Changed(before, after))
  {
    hide *;
    var collected := new PathSet();
    CollectChangedPlanPaths(before, after, "", collected);
    paths := collected.paths;
  }

  lemma ShownFromRoot(ps: seq<Path>)
    ensures forall p :: p in ps ==> Shown(p) in ShownSet("", ps)
    ensures forall path :: path in ShownSet("", ps) ==> exists p :: p in ps && path == Shown(p)
  {
    hide EncodePath;
    forall p | p in ps ensures "" + EncodePath(p) == EncodePath(p) {
    }
  }

  // ----- What an accepted change can touch

  predicate IsScalar(state: State) {
    state.Present? && !state.value.Obj? && !state.value.Arr?
  }

  /** Two values of which one is a container and the other not a container of the same kind. */
  predicate KindsClash(before: State, after: State) {
    before.Present? && after.Present? && before.value != after.value &&
    (before.IsMap() || before.IsList() || after.IsMap() || after.IsList()) &&
    !(before.IsMap() && after.IsMap()) && !(before.IsList() && after.IsList())
  }

  lemma {:induction false} AtConcat(state: State, p: Path, q: Path)
    ensures state.At(p + q) == state.At(p).At(q)
    decreases |p|
  {
    hide State.Child;
    if p == [] {
      assert p + q == q;
    } else {
      assert (p + q)[0] == p[0] && (p + q)[1..] == p[1..] + q;
      AtConcat(state.Child(p[0]), p[1..], q);
    }
  }

  lemma ScalarsHaveNoSteps(before: State, after: State)
    requires IsScalar(before) || IsScalar(after)
    ensures Steps(before, after) == []
  {
  }

  /** Where the walk stops although one side goes on, the container kinds clash. */
  lemma StopsAtClash(before: State, after: State, seg: Segment)
    requires before != after && Steps(before, after) == []
    requires before.Child(seg).Present? || after.Child(seg).Present?
    ensures KindsClash(before, after)
  {
    assert !IsStep(before, after, seg);
  }

  /** A scalar that differs has a changed path at it, or above it where the container kinds clash. */
  lemma ScalarDifferenceIsCollected(before: State, after: State, s: Path) returns (p: Path)
    requires before.At(s) != after.At(s) && (IsScalar(before.At(s)) || IsScalar(after.At(s)))
    ensures p in Changed(before, after) && p <= s
    ensures p != s ==> KindsClash(before.At(p), after.At(p))
  {
    hide Changed, Steps, State.Child, KindsClash;
    ScalarsHaveNoSteps(before.At(s), after.At(s));
    p := ChangedCovers(before, after, s);
    ChangedIsDifferent(before, after, p);
    if p != s {
      var rest := s[|p|..];
      assert s == p + rest && rest != [];
      AtConcat(before, p, rest);
      AtConcat(after, p, rest);
      AbsentBelow(rest[1..]);
      StopsAtClash(before.At(p), after.At(p), rest[0]);
    }
  }

  /** An accepted change touches a scalar only where its own path is allowed, or below an allowed
      position whose container kind changed. */
  lemma AcceptedTouchesOnlyAllowed(
    list: WriteList, action: string,
    before: Option<map<string, Json>>, after: Option<map<string, Json>>, afterUnknown: Json, s: Path)
    returns (p: Path)
    requires ChangeAllowed(list, action, before, after, afterUnknown)
    requires Side(before).At(s) != Side(after).At(s)
    requires IsScalar(Side(before).At(s)) || IsScalar(Side(after).At(s))
    ensures p <= s && PathAllowed(list, action, Shown(p), Obj(after.value), afterUnknown)
    ensures p != s ==> KindsClash(Side(before).At(p), Side(after).At(p))
  {
    hide Changed, State.At, IsScalar, KindsClash, Listed, Shown, KnownComputed, UnknownPaths, PathAllowed;
    p := ScalarDifferenceIsCollected(Side(before), Side(after), s);
  }

  /** An accepted update changes a scalar only if its own path is on the write list, or if a listed
      position above it changed container kind. */
  lemma UpdateTouchesOnlyListed(
    list: WriteList, action: string,
    before: Option<map<string, Json>>, after: Option<map<string, Json>>, afterUnknown: Json, s: Path)
    returns (p: Path)
    requires ChangeAllowed(list, action, before, after, afterUnknown) && action != "create"
    requires Side(before).At(s) != Side(after).At(s)
    requires IsScalar(Side(before).At(s)) || IsScalar(Side(after).At(s))
    ensures p <= s && Listed(list, Shown(p))
    ensures p != s ==> KindsClash(Side(before).At(p), Side(after).At(p))
  {
    hide State.At, IsScalar, KindsClash, Listed, Shown, KnownComputed, ChangeAllowed, Side;
    p := AcceptedTouchesOnlyAllowed(list, action, before, after, afterUnknown, s);
  }

  /** An accepted create sets a scalar only if its own path is on the write list, or if it is a listed
      computed value, null for now and marked unknown. */
  lemma CreateSetsOnlyListed(list: WriteList, after: map<string, Json>, afterUnknown: Json, s: Path)
    requires ChangeAllowed(list, "create", None, Some(after), afterUnknown)
    requires IsScalar(Present(Obj(after)).At(s)) && Addressable(s) && s != [Key("")]
    ensures Listed(list, Shown(s)) ||
      (NormalizedPath(Shown(s)) in list.computed &&
       Present(Obj(after)).At(s) == Present(Null) && UnknownAtPath(afterUnknown, Shown(s)))
  {
    hide Changed, State.At, Listed, Shown, UnknownPaths, ValueAtPath, UnknownAtPath, NormalizedPath;
    AbsentBelow(s);
    var p := ScalarDifferenceIsCollected(Absent, Present(Obj(after)), s);
    AbsentBelow(p);
    assert p == s;
    LookupShows(Obj(after), s);
  }

  lemma LookupShows(v: Json, p: Path)
    requires Present(v).At(p).Present? && Addressable(p) && p != [Key("")]
    ensures ValueAtPath(v, Shown(p)) == Some(Present(v).At(p).value)
  {
    hide ValueAtPath, EncodePath;
    LookupUndoesWalk(v, p);
  }
}
