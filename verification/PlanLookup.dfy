/** The look-ups by path text, and the walker over unknown markers: each undoes the other. */
module PlanLookup {
  import opened Collections
  import opened Wrappers
  import opened Text
  import opened Values
  import opened Pointers
  import opened PlanWalk

  /** One look-up step: an object key, or a list index in decimal. */
  function Descend(v: Json, name: string): Option<Json> {
    match v
    case Obj(fields) => if name in fields then Some(fields[name]) else None
    case Arr(items) =>
      (match Atoi(name)
       case Some(i) => if 0 <= i < |items| then Some(items[i]) else None
       case None => None)
    case _ => None
  }

  function Resolve(v: Json, names: seq<string>): Option<Json>
    decreases |names|
  {
    if names == [] then Some(v)
    else
      match Descend(v, names[0])
      case Some(child) => Resolve(child, names[1..])
      case None => None
  }

  predicate IsRootPath(path: string) {
    path == "" || path == "/"
  }

  function ValueAtPath(root: Json, path: string): Option<Json> {
    if IsRootPath(path) then Some(root) else Resolve(root, PathNames(path))
  }

  /** `planValueAtPath`. */
  method PlanValueAtPath(root: Json, path: string) returns (value: Json, exists_: bool)
    ensures ValueAtPath(root, path) == if exists_ then Some(value) else None
  {
    hide Descend, PathNames;
    var current := root;
    if IsRootPath(path) {
      return current, true;
    }
    var names := PathNames(path);
    for i := 0 to |names|
      invariant Resolve(current, names[i..]) == Resolve(root, names)
    {
      assert names[i..][0] == names[i] && names[i..][1..] == names[i + 1..];
      var child := Descend(current, names[i]);
      if child.None? {
        return Null, false;
      }
      current := child.value;
    }
    return current, true;
  }

  /** A true marker at a position covers everything below it. */
  predicate UnknownAlong(v: Json, names: seq<string>)
    decreases |names|
  {
    IsTrue(v) ||
    (names != [] && Descend(v, names[0]).Some? && UnknownAlong(Descend(v, names[0]).value, names[1..]))
  }

  predicate UnknownAtPath(root: Json, path: string) {
    IsTrue(root) || (!IsRootPath(path) && UnknownAlong(root, PathNames(path)))
  }

  /** Either text of the root leads to the root. */
  lemma RootIsFound(root: Json)
    ensures ValueAtPath(root, "") == Some(root) == ValueAtPath(root, "/")
    ensures UnknownAtPath(root, "") == (root == Bool(true)) == UnknownAtPath(root, "/")
  {
  }

  /** `planUnknownAtPath`. */
  method PlanUnknownAtPath(root: Json, path: string) returns (unknown: bool)
    ensures unknown == UnknownAtPath(root, path)
  {
    hide Descend, PathNames;
    var current := root;
    if IsTrue(current) {
      return true;
    }
    if IsRootPath(path) {
      return IsTrue(current);
    }
    var names := PathNames(path);
    for i := 0 to |names|
      invariant UnknownAlong(current, names[i..]) == UnknownAlong(root, names)
    {
      if IsTrue(current) {
        return true;
      }
      assert names[i..][0] == names[i] && names[i..][1..] == names[i + 1..];
      var child := Descend(current, names[i]);
      if child.None? {
        return false;
      }
      current := child.value;
    }
    return IsTrue(current);
  }

  // ----- The walker over unknown markers

  function UnknownPaths(v: Json): seq<Path>
    decreases v, 1, 0
  {
    match v
    case Bool(b) => if b then [[]] else []
    case Obj(fields) => UnknownBelow(v, KeySteps(fields.Keys))
    case Arr(items) => UnknownBelow(v, IndexSteps(|items|))
    case _ => []
  }

  function UnknownBelow(v: Json, steps: seq<Segment>): seq<Path>
    requires forall seg :: seg in steps ==> Present(v).Child(seg).Present?
    decreases v, 0, |steps|
  {
    if steps == [] then []
    else Prefixed(steps[0], UnknownPaths(Present(v).Child(steps[0]).value)) + UnknownBelow(v, steps[1..])
  }

  /** Paths in the order the walker finds them, as text. */
  class PathList {
    var paths: seq<string>

    constructor ()
      ensures paths == []
    {
      paths := [];
    }

    method Append(path: string)
      modifies this
      ensures paths == old(paths) + [path]
    {
      paths := paths + [path];
    }
  }

  function ShownAll(path: string, ps: seq<Path>): (r: seq<string>)
    ensures |r| == |ps|
  {
    seq(|ps|, i requires 0 <= i < |ps| => DisplayPath(path + EncodePath(ps[i])))
  }

  lemma EncodeStep(path: string, seg: Segment, p: Path)
    ensures path + EncodePath([seg] + p) == (path + "/" + Token(seg)) + EncodePath(p)
  {
    EncodePathConcat([seg], p);
    EncodeChild([], seg);
    assert [] + [seg] == [seg] && EncodePath([]) == [] && [] + "/" == "/";
    assert EncodePath([seg]) == "/" + Token(seg);
    Associate(path, "/", Token(seg));
    Associate(path, "/" + Token(seg), EncodePath(p));
  }

  lemma ShownPrefixed(path: string, seg: Segment, ps: seq<Path>)
    ensures ShownAll(path, Prefixed(seg, ps)) == ShownAll(path + "/" + Token(seg), ps)
  {
    hide EncodePath, Token;
    forall i | 0 <= i < |ps|
      ensures ShownAll(path, Prefixed(seg, ps))[i] == ShownAll(path + "/" + Token(seg), ps)[i]
    {
      EncodeStep(path, seg, ps[i]);
    }
  }

  /** `collectTrueUnknownPaths`. */
  method CollectTrueUnknownPaths(value: Json, path: string, result: PathList)
    modifies result
    ensures result.paths == old(result.paths) + ShownAll(path, UnknownPaths(value))
    decreases value, 1
  {
    hide UnknownBelow;
    match value
    case Bool(b) =>
      if b {
        result.Append(DisplayPath(path));
        assert path + EncodePath([]) == path;
      }
    case Obj(fields) => CollectBelow(value, KeySteps(fields.Keys), path, result);
    case Arr(items) => CollectBelow(value, IndexSteps(|items|), path, result);
    case _ =>
  }

  method CollectBelow(value: Json, steps: seq<Segment>, path: string, result: PathList)
    requires forall seg :: seg in steps ==> Present(value).Child(seg).Present?
    modifies result
    ensures result.paths == old(result.paths) + ShownAll(path, UnknownBelow(value, steps))
    decreases value, 0
  {
    hide UnknownPaths, UnknownBelow, EncodePath, Token, ShownAll, State.Child, Prefixed;
    ghost var found: seq<Path> := [];
    ShownNone(path);
    for i := 0 to |steps|
      invariant result.paths == old(result.paths) + ShownAll(path, found)
      invariant found + UnknownBelow(value, steps[i..]) == UnknownBelow(value, steps)
    {
      var child := Present(value).Child(steps[i]).value;
      ChildIsSmaller(value, steps[i]);
      CollectTrueUnknownPaths(child, path + "/" + Token(steps[i]), result);
      ghost var here := Prefixed(steps[i], UnknownPaths(child));
      ShownPrefixed(path, steps[i], UnknownPaths(child));
      ShownConcat(path, found, here);
      UnknownBelowStep(value, steps, i);
      Associate(found, here, UnknownBelow(value, steps[i + 1..]));
      Associate(old(result.paths), ShownAll(path, found), ShownAll(path, here));
      found := found + here;
    }
    UnknownBelowNothing(value, steps[|steps|..]);
    assert found + [] == found;
  }

  lemma ChildIsSmaller(v: Json, seg: Segment)
    requires Present(v).Child(seg).Present?
    ensures (v decreases to Present(v).Child(seg).value)
  {
  }

  lemma UnknownBelowStep(v: Json, steps: seq<Segment>, i: nat)
    requires i < |steps| && forall seg :: seg in steps ==> Present(v).Child(seg).Present?
    ensures UnknownBelow(v, steps[i..]) ==
      Prefixed(steps[i], UnknownPaths(Present(v).Child(steps[i]).value)) + UnknownBelow(v, steps[i + 1..])
  {
    hide UnknownPaths, State.Child, Prefixed;
    assert steps[i..][0] == steps[i] && steps[i..][1..] == steps[i + 1..];
  }

  lemma UnknownBelowNothing(v: Json, steps: seq<Segment>)
    requires steps == []
    ensures UnknownBelow(v, steps) == []
  {
  }

  lemma ShownNone(path: string)
    ensures ShownAll(path, []) == []
  {
  }

  lemma ShownConcat(path: string, xs: seq<Path>, ys: seq<Path>)
    ensures ShownAll(path, xs + ys) == ShownAll(path, xs) + ShownAll(path, ys)
  {
  }

  // ----- Walker and look-ups undo each other

  /** List positions that decimal parsing can give back; Go has no longer lists. */
  predicate Addressable(p: Path) {
    forall i :: 0 <= i < |p| && p[i].Index? ==> p[i].i < INT64_LIMIT
  }

  lemma NamesTail(p: Path)
    requires p != []
    ensures Names(p) != [] && Names(p)[0] == Name(p[0]) && Names(p)[1..] == Names(p[1..])
  {
  }

  /** One encoded step leads to the child. */
  lemma DescendToChild(v: Json, seg: Segment)
    requires Present(v).Child(seg).Present? && (seg.Index? ==> seg.i < INT64_LIMIT)
    ensures Descend(v, Name(seg)) == Some(Present(v).Child(seg).value)
  {
    if seg.Index? {
      AtoiOfItoa(seg.i);
    }
  }

  lemma {:induction false} ResolveFollows(v: Json, p: Path)
    requires Present(v).At(p).Present? && Addressable(p)
    ensures Resolve(v, Names(p)) == Some(Present(v).At(p).value)
    decreases |p|
  {
    hide Descend, State.Child;
    if p != [] {
      AbsentBelow(p[1..]);
      NamesTail(p);
      DescendToChild(v, p[0]);
      ResolveFollows(Present(v).Child(p[0]).value, p[1..]);
    }
  }

  lemma {:induction false} AbsentBelow(p: Path)
    ensures Absent.At(p) == Absent
    decreases |p|
  {
    if p != [] {
      AbsentBelow(p[1..]);
    }
  }

  lemma ShownPathNames(p: Path)
    requires p != []
    ensures var path := DisplayPath(EncodePath(p));
      PathNames(path) == Names(p) && (IsRootPath(path) <==> p == [Key("")])
  {
    hide PathNames, EncodePath;
    EncodePathSplits(p);
    EncodePathSplits([Key("")]);
    if EncodePath(p) == "/" {
      LoneEmptyKey();
      assert Names(p) == Names([Key("")]);
      assert |p| == 1;
      IndexIsNotEmpty(p[0]);
    } else if p == [Key("")] {
      LoneEmptyKey();
    }
  }

  lemma RootEncodes()
    ensures EncodePath([]) == ""
  {
  }

  lemma LoneEmptyKey()
    ensures EncodePath([Key("")]) == "/"
  {
    assert Tokens([Key("")]) == [Token(Key(""))];
    assert EscapePointer("") == "";
  }

  lemma IndexIsNotEmpty(seg: Segment)
    ensures Name(seg) == "" ==> seg == Key("")
  {
  }

  /** The look-up returns the value the encoding walk visited, for every path but a lone empty key,
      which shows as the root. */
  lemma LookupUndoesWalk(v: Json, p: Path)
    requires Present(v).At(p).Present? && Addressable(p)
    ensures ValueAtPath(v, DisplayPath(EncodePath(p))) == Some(Present(v).At(p).value) <==> p != [Key("")]
    ensures p == [Key("")] ==> ValueAtPath(v, DisplayPath(EncodePath(p))) == Some(v)
  {
    hide Descend, PathNames, EncodePath, Resolve, Names;
    if p == [] {
      RootEncodes();
    } else {
      ShownPathNames(p);
      ResolveFollows(v, p);
      if p == [Key("")] {
        assert p[1..] == [];
        ChildIsSmaller(v, Key(""));
      }
    }
  }

  lemma {:induction false} InUnknownBelow(v: Json, steps: seq<Segment>, p: Path)
    requires forall seg :: seg in steps ==> Present(v).Child(seg).Present?
    ensures p in UnknownBelow(v, steps) <==>
      p != [] && p[0] in steps && p[1..] in UnknownPaths(Present(v).Child(p[0]).value)
    decreases |steps|
  {
    hide UnknownPaths, State.Child;
    if steps != [] {
      InPrefixed(steps[0], UnknownPaths(Present(v).Child(steps[0]).value), p);
      InUnknownBelow(v, steps[1..], p);
      assert steps == [steps[0]] + steps[1..];
    }
  }

  lemma UnknownPathsCases(v: Json, p: Path)
    ensures p in UnknownPaths(v) <==>
      if p == [] then IsTrue(v)
      else Present(v).Child(p[0]).Present? && p[1..] in UnknownPaths(Present(v).Child(p[0]).value)
  {
    hide UnknownBelow;
    if v.Obj? {
      InUnknownBelow(v, KeySteps(v.fields.Keys), p);
    } else if v.Arr? {
      InUnknownBelow(v, IndexSteps(|v.items|), p);
    }
  }

  /** The walker collects exactly the positions of true markers. */
  lemma {:induction false} UnknownPathsAreTrueMarkers(v: Json, p: Path)
    ensures p in UnknownPaths(v) <==> Present(v).At(p) == Present(Bool(true))
    decreases |p|
  {
    hide UnknownPaths, State.Child;
    UnknownPathsCases(v, p);
    if p != [] {
      AbsentBelow(p[1..]);
      var child := Present(v).Child(p[0]);
      if child.Present? {
        UnknownPathsAreTrueMarkers(child.value, p[1..]);
      }
    }
  }

  /** The segments a look-up actually follows, for as long as there is something to follow. */
  function Followed(v: Json, names: seq<string>): Path
    decreases |names|
  {
    if names == [] || Descend(v, names[0]).None? then []
    else
      var seg := if v.Obj? then Key(names[0]) else Index(Atoi(names[0]).value);
      [seg] + Followed(Descend(v, names[0]).value, names[1..])
  }

  /** Whatever the path text: it is unknown exactly when a collected path is a prefix of the positions followed. */
  lemma {:induction false} UnknownAlongExactly(v: Json, names: seq<string>)
    ensures UnknownAlong(v, names) <==> exists q :: q in UnknownPaths(v) && q <= Followed(v, names)
    decreases |names|
  {
    hide UnknownPaths, State.Child;
    var followed := Followed(v, names);
    UnknownPathsCases(v, []);
    if IsTrue(v) {
      assert [] in UnknownPaths(v) && [] <= followed;
    } else if names != [] && Descend(v, names[0]).Some? {
      var seg, child := followed[0], Descend(v, names[0]).value;
      DescendIsChild(v, names[0], seg);
      UnknownAlongExactly(child, names[1..]);
      UnknownBelowChild(v, seg, followed[1..]);
      assert followed == [seg] + followed[1..];
    }
  }

  lemma DescendIsChild(v: Json, name: string, seg: Segment)
    requires Descend(v, name).Some? && seg == if v.Obj? then Key(name) else Index(Atoi(name).value)
    ensures Present(v).Child(seg) == Present(Descend(v, name).value)
  {
  }

  /** Below an untrue marker, the collected paths along a route are those of the child. */
  lemma UnknownBelowChild(v: Json, seg: Segment, rest: Path)
    requires !IsTrue(v) && Present(v).Child(seg).Present?
    ensures (exists q :: q in UnknownPaths(v) && q <= [seg] + rest) <==>
      (exists q :: q in UnknownPaths(Present(v).Child(seg).value) && q <= rest)
  {
    hide UnknownPaths, State.Child;
    var child := Present(v).Child(seg).value;
    if q :| q in UnknownPaths(v) && q <= [seg] + rest {
      UnknownPathsAreTrueMarkers(v, q);
      assert q != [];
      UnknownPathsAreTrueMarkers(child, q[1..]);
      assert q == [seg] + q[1..];
      PrefixBelow(seg, q[1..], rest);
      assert q[1..] in UnknownPaths(child) && q[1..] <= rest;
    }
    if q :| q in UnknownPaths(child) && q <= rest {
      var longer := [seg] + q;
      assert longer[1..] == q;
      UnknownPathsAreTrueMarkers(child, q);
      UnknownPathsAreTrueMarkers(v, longer);
      PrefixBelow(seg, q, rest);
      assert longer in UnknownPaths(v) && longer <= [seg] + rest;
    }
  }

  /** Keys at objects and positions at lists, for as far as the path leads anywhere. */
  predicate Fits(v: Json, p: Path)
    decreases |p|
  {
    p == [] ||
    ((v.Obj? ==> p[0].Key?) && (v.Arr? ==> p[0].Index?) &&
     (Present(v).Child(p[0]).Present? ==> Fits(Present(v).Child(p[0]).value, p[1..])))
  }

  lemma DescendFits(v: Json, seg: Segment)
    requires (v.Obj? ==> seg.Key?) && (v.Arr? ==> seg.Index?) && (seg.Index? ==> seg.i < INT64_LIMIT)
    ensures Present(v).Child(seg).Present? ==> Descend(v, Name(seg)) == Some(Present(v).Child(seg).value)
    ensures Present(v).Child(seg).Absent? ==> Descend(v, Name(seg)) == None
  {
    if seg.Index? {
      AtoiOfItoa(seg.i);
    }
  }

  lemma {:induction false} UnknownAlongEncoded(v: Json, p: Path)
    requires Fits(v, p) && Addressable(p)
    ensures UnknownAlong(v, Names(p)) <==> exists q :: q in UnknownPaths(v) && q <= p
    decreases |p|
  {
    hide UnknownPaths, Descend, State.Child;
    UnknownPathsCases(v, []);
    if IsTrue(v) {
      assert [] in UnknownPaths(v) && [] <= p;
    } else if p != [] {
      NamesTail(p);
      DescendFits(v, p[0]);
      if Present(v).Child(p[0]).Present? {
        UnknownAlongEncoded(Present(v).Child(p[0]).value, p[1..]);
        UnknownBelowChild(v, p[0], p[1..]);
        assert p == [p[0]] + p[1..];
      } else {
        forall q | q in UnknownPaths(v) && q <= p ensures false {
          UnknownPathsCases(v, q);
        }
      }
    }
  }

  /** A canonically encoded path is unknown exactly when a collected path is a prefix of it. */
  lemma UnknownExactly(v: Json, p: Path)
    requires Fits(v, p) && Addressable(p) && p != [Key("")]
    ensures UnknownAtPath(v, DisplayPath(EncodePath(p))) <==> exists q :: q in UnknownPaths(v) && q <= p
  {
    hide UnknownPaths, UnknownAlong, PathNames, EncodePath, Names, Fits;
    UnknownAlongEncoded(v, p);
    UnknownPathsCases(v, []);
    if p == [] {
      RootEncodes();
      forall q | q in UnknownPaths(v) && q <= p ensures q == [] {
      }
      assert IsTrue(v) ==> [] in UnknownPaths(v) && [] <= p;
    } else {
      ShownPathNames(p);
      if IsTrue(v) {
        assert [] in UnknownPaths(v) && [] <= p;
      }
    }
  }

  lemma {:induction false} TrueMarkerFits(v: Json, p: Path)
    requires Present(v).At(p) == Present(Bool(true))
    ensures Fits(v, p)
    decreases |p|
  {
    if p != [] {
      AbsentBelow(p[1..]);
      TrueMarkerFits(Present(v).Child(p[0]).value, p[1..]);
    }
  }

  /** Every collected path is unknown to the look-up, unless it is a lone empty key: that one shows as
      the root, where the look-up finds an object. */
  lemma CollectedIsUnknown(v: Json, p: Path)
    requires p in UnknownPaths(v) && Addressable(p)
    ensures UnknownAtPath(v, DisplayPath(EncodePath(p))) <==> p != [Key("")]
  {
    hide UnknownPaths, UnknownAlong, PathNames, EncodePath, Names, Fits;
    UnknownPathsAreTrueMarkers(v, p);
    TrueMarkerFits(v, p);
    if p == [Key("")] {
      ShownPathNames(p);
      assert p[1..] == [];
    } else {
      UnknownExactly(v, p);
      assert p <= p;
    }
  }

  /** A marker under a lone empty key is collected, and shown as the root, where the look-up misses it. */
  lemma LoneEmptyKeyIsMissed()
    ensures var v, p := Obj(map["" := Bool(true)]), [Key("")];
      p in UnknownPaths(v) && !UnknownAtPath(v, DisplayPath(EncodePath(p)))
  {
    hide UnknownPaths, UnknownAtPath, EncodePath;
    var v, p := Obj(map["" := Bool(true)]), [Key("")];
    assert p[1..] == [];
    assert Present(v).Child(Key("")) == Present(Bool(true));
    UnknownPathsAreTrueMarkers(v, p);
    CollectedIsUnknown(v, p);
  }

  /** A padded list position is followed by the look-up although no walker writes it: the look-up then
      reports unknown while no collected path is a prefix. */
  lemma PaddedIndexIsFollowed()
    ensures var v, p := Arr([Bool(false), Bool(true)]), [Key("01")];
      UnknownAtPath(v, DisplayPath(EncodePath(p))) &&
      forall q: Path :: q in UnknownPaths(v) ==> !(Names(q) <= Names(p))
  {
    hide EncodePath, PathNames;
    var v, p := Arr([Bool(false), Bool(true)]), [Key("01")];
    ShownPathNames(p);
    assert Names(p) == ["01"];
    assert DigitsValue("01") == 1 by {
      assert "01"[..1] == "0" && "0"[..0] == "";
    }
    assert Descend(v, "01") == Some(Bool(true));
    assert UnknownAlong(Bool(true), ["01"][1..]);
    forall q: Path | q in UnknownPaths(v) ensures !(Names(q) <= ["01"]) {
      UnknownPathsCases(v, q);
      assert q != [] && q[0].Index?;
      assert Itoa(0) == "0" && Itoa(1) == "1";
      assert Names(q)[0] == Itoa(q[0].i);
    }
  }
}
