/** `alignShape` and `narrowToCritical`: what they do to the differences that can be reported. */
module Alignment {
  import opened Wrappers
  import opened Text
  import opened Values
  import opened KeyPaths
  import opened Normalization
  import opened Drift
  import opened DriftReports

  const UNKNOWN_VALUE: Json := Obj(map["status" := Str("unknown")])

  /** The observed state cut down to the desired shape; what was not observed becomes unknown. */
  function AlignShape(shape: Json, observed: Json): Json
    decreases shape
  {
    if !shape.Obj? then (if observed.Null? then UNKNOWN_VALUE else observed)
    else if !observed.Obj? then UNKNOWN_VALUE
    else Obj(map k | k in shape.fields ::
      if k in observed.fields then AlignShape(shape.fields[k], observed.fields[k]) else UNKNOWN_VALUE)
  }

  // ----- What stands where in the aligned state

  /** As far as shape and observation are both objects: where the shape ends in a leaf the aligned state has the
      observed value, where the observation ends first, is null at a leaf or is no object, it has the unknown
      marker, and where both go on, it has exactly the keys of the shape. */
  lemma {:induction false} AlignedAt(shape: Json, observed: Json, p: seq<string>)
    requires ObjectsAbove(shape, p) && ObjectsAbove(observed, p)
    ensures var s, o, a := ValueAt(shape, p), ValueAt(observed, p), ValueAt(AlignShape(shape, observed), p);
      && (s.None? ==> a.None?)
      && (s.Some? && o.None? ==> a == Some(Obj(map["status" := Str("unknown")])))
      && (s.Some? && o.Some? && !s.value.Obj? ==>
            a == if o.value == Null then Some(Obj(map["status" := Str("unknown")])) else o)
      && (s.Some? && o.Some? && s.value.Obj? && !o.value.Obj? ==> a == Some(Obj(map["status" := Str("unknown")])))
      && (s.Some? && o.Some? && s.value.Obj? && o.value.Obj? ==>
            a.Some? && a.value.Obj? && a.value.fields.Keys == s.value.fields.Keys)
    decreases |p|
  {
    if p != [] {
      assert p[..0] == [];
      var k, rest := p[0], p[1..];
      var m := AlignShape(shape, observed).fields;
      if k in shape.fields && k in observed.fields {
        ObjectsBelow(shape, p);
        ObjectsBelow(observed, p);
        AlignedAt(shape.fields[k], observed.fields[k], rest);
        assert m[k] == AlignShape(shape.fields[k], observed.fields[k]);
      } else {
        if |p| > 1 {
          ObjectsGoOn(shape, p);
          ObjectsGoOn(observed, p);
          assert false;
        }
        assert p == [k];
        ValueAtOne(shape, k);
        ValueAtOne(observed, k);
        assert k in shape.fields ==> m[k] == UNKNOWN_VALUE;
      }
    }
  }

  lemma ObjectsGoOn(v: Json, p: seq<string>)
    requires |p| > 1 && ObjectsAbove(v, p)
    ensures v.Obj? && p[0] in v.fields
  {
    assert p[..1] == [p[0]] && p[..0] == [];
    ValueAtOne(v, p[0]);
  }

  lemma ObjectsBelow(v: Json, p: seq<string>)
    requires p != [] && ObjectsAbove(v, p) && v.Obj? && p[0] in v.fields
    ensures ObjectsAbove(v.fields[p[0]], p[1..])
  {
    forall n | 0 <= n < |p[1..]|
      ensures ValueAt(v.fields[p[0]], p[1..][..n]) == ValueAt(v, p[..n + 1])
    {
      assert p[..n + 1][1..] == p[1..][..n];
    }
  }

  /** The observation agrees with the shape at every place: an object where the shape has one, and the same
      value, which is not null, at every leaf. */
  ghost predicate Agrees(shape: Json, observed: Json) {
    forall p :: ValueAt(shape, p).Some? ==> AgreesAt(shape, observed, p)
  }

  ghost predicate AgreesAt(shape: Json, observed: Json, p: seq<string>) {
    var s, o := ValueAt(shape, p), ValueAt(observed, p);
    s.Some? && o.Some? && if s.value.Obj? then o.value.Obj? else o == s && s.value != Null
  }

  lemma AgreesBelow(shape: Json, observed: Json, k: string)
    requires shape.Obj? && observed.Obj? && k in shape.fields && k in observed.fields
    requires Agrees(shape, observed)
    ensures Agrees(shape.fields[k], observed.fields[k])
  {
    forall p | ValueAt(shape.fields[k], p).Some? ensures AgreesAt(shape.fields[k], observed.fields[k], p) {
      assert ([k] + p)[1..] == p;
      assert AgreesAt(shape, observed, [k] + p);
    }
  }

  /** An observation that agrees with the shape is cut down to the shape itself. */
  lemma {:induction false} AgreementAligns(shape: Json, observed: Json)
    requires Agrees(shape, observed)
    ensures AlignShape(shape, observed) == shape
    decreases shape
  {
    assert AgreesAt(shape, observed, []);
    if shape.Obj? {
      var m := AlignShape(shape, observed).fields;
      forall k | k in shape.fields ensures k in m && m[k] == shape.fields[k] {
        ValueAtOne(shape, k);
        ValueAtOne(observed, k);
        assert AgreesAt(shape, observed, [k]);
        AgreesBelow(shape, observed, k);
        AgreementAligns(shape.fields[k], observed.fields[k]);
      }
      assert m == shape.fields;
    }
  }

  /** No place of a value along object keys is unknown. */
  ghost predicate AllKnown(v: Json) {
    forall p :: ValueAt(v, p).Some? ==> IsKnownAt(v, p)
  }

  ghost predicate IsKnownAt(v: Json, p: seq<string>) {
    ValueAt(v, p).Some? && !IsUnknown(ValueAt(v, p).value)
  }

  lemma KnownBelow(v: Json, k: string)
    requires v.Obj? && k in v.fields && AllKnown(v)
    ensures AllKnown(v.fields[k])
  {
    forall p | ValueAt(v.fields[k], p).Some? ensures IsKnownAt(v.fields[k], p) {
      assert ([k] + p)[1..] == p;
      assert IsKnownAt(v, [k] + p);
    }
  }

  lemma MarkerIsUnknown()
    ensures IsUnknown(UNKNOWN_VALUE)
  {
    var fields := map["status" := Str("unknown")];
    assert Field(fields, "status") == Str("unknown");
  }

  /** A shape without unknowns comes back exactly from the observations that agree with it. */
  lemma {:induction false} AlignedExactly(shape: Json, observed: Json)
    requires AllKnown(shape)
    ensures AlignShape(shape, observed) == shape <==> Agrees(shape, observed)
    decreases shape
  {
    hide IsUnknown;
    MarkerIsUnknown();
    assert ValueAt(shape, []) == Some(shape);
    assert IsKnownAt(shape, []);
    if Agrees(shape, observed) {
      AgreementAligns(shape, observed);
    }
    if AlignShape(shape, observed) == shape {
      if shape.Obj? {
        forall k | k in shape.fields ensures k in observed.fields && Agrees(shape.fields[k], observed.fields[k]) {
          KnownBelow(shape, k);
          assert IsKnownAt(shape, [k]) by { ValueAtOne(shape, k); }
          ValueAtOne(shape, k);
          AlignedExactly(shape.fields[k], observed.fields[k]);
        }
        AgreementRises(shape, observed);
      } else {
        LeafAgrees(shape, observed);
      }
    }
  }

  lemma LeafAgrees(shape: Json, observed: Json)
    requires !shape.Obj? && shape == observed && shape != Null
    ensures Agrees(shape, observed)
  {
    forall p | ValueAt(shape, p).Some? ensures AgreesAt(shape, observed, p) {
      assert p == [];
    }
  }

  lemma AgreementRises(shape: Json, observed: Json)
    requires shape.Obj? && observed.Obj?
    requires forall k :: k in shape.fields ==> k in observed.fields && Agrees(shape.fields[k], observed.fields[k])
    ensures Agrees(shape, observed)
  {
    forall p | ValueAt(shape, p).Some? ensures AgreesAt(shape, observed, p) {
      if p != [] {
        assert AgreesAt(shape.fields[p[0]], observed.fields[p[0]], p[1..]);
      }
    }
  }

  /** Wherever both sides are known objects they have the same keys. */
  ghost predicate Aligned(desired: Json, observed: Json)
    decreases desired
  {
    desired.Obj? && observed.Obj? && !IsUnknown(observed) ==>
      && desired.fields.Keys == observed.fields.Keys
      && forall k :: k in desired.fields ==> Aligned(desired.fields[k], observed.fields[k])
  }

  lemma UnknownValueIsUnknown(volatile: set<string>)
    requires "status" !in volatile
    ensures IsUnknown(Normalize(volatile, UNKNOWN_VALUE))
  {
    var fields := Normalize(volatile, UNKNOWN_VALUE).fields;
    assert "status" in fields && fields["status"] == Str("unknown");
  }

  lemma {:induction false} AlignShapeAligns(volatile: set<string>, shape: Json, observed: Json)
    requires "status" !in volatile
    ensures Aligned(Normalize(volatile, shape), Normalize(volatile, AlignShape(shape, observed)))
    decreases shape
  {
    hide IsUnknown;
    UnknownValueIsUnknown(volatile);
    if shape.Obj? && observed.Obj? {
      var d, o := Normalize(volatile, shape).fields, Normalize(volatile, AlignShape(shape, observed)).fields;
      assert d.Keys == o.Keys;
      forall k | k in d ensures Aligned(d[k], o[k]) {
        if k in observed.fields {
          AlignShapeAligns(volatile, shape.fields[k], observed.fields[k]);
        } else {
          assert o[k] == Normalize(volatile, UNKNOWN_VALUE);
        }
      }
    }
  }

  ghost predicate OnlyChangedOrUnknown(changes: seq<Change>) {
    forall i :: 0 <= i < |changes| ==> changes[i].kind == Kind.Changed || changes[i].kind == Kind.Unknown
  }

  lemma {:induction false} AlignedDiff(volatile: set<string>, desired: Json, observed: Json)
    requires Aligned(desired, observed)
    ensures OnlyChangedOrUnknown(Diff(volatile, desired, observed))
    decreases desired, 1, 0
  {
    hide IsUnknown;
    if desired.Obj? && observed.Obj? && !IsUnknown(observed) {
      AlignedDiffKeys(volatile, desired, observed, ComparedKeys(volatile, desired, observed));
    }
  }

  lemma {:induction false} AlignedDiffKeys(volatile: set<string>, desired: Json, observed: Json, keys: seq<string>)
    requires desired.Obj? && observed.Obj? && !IsUnknown(observed) && Aligned(desired, observed)
    requires forall k :: k in keys ==> k in desired.fields
    ensures OnlyChangedOrUnknown(DiffKeys(volatile, desired, observed, keys))
    decreases desired, 0, |keys|
  {
    hide IsUnknown, Diff;
    if keys != [] {
      AlignedDiff(volatile, desired.fields[keys[0]], observed.fields[keys[0]]);
      AlignedDiffKeys(volatile, desired, observed, keys[1..]);
    }
  }

  /** Compared with its own aligned observation, a desired shape never reports a missing or an extra
      entry, only changed or unknown ones. */
  lemma AlignedReportsNoMissingOrExtra(volatile: set<string>, shape: Json, observed: Json)
    requires "status" !in volatile
    ensures OnlyChangedOrUnknown(
      Diff(volatile, Normalize(volatile, shape), Normalize(volatile, AlignShape(shape, observed))))
  {
    hide Aligned, OnlyChangedOrUnknown, Diff, Normalize;
    AlignShapeAligns(volatile, shape, observed);
    AlignedDiff(volatile, Normalize(volatile, shape), Normalize(volatile, AlignShape(shape, observed)));
  }

  lemma {:induction false} KnownHoldsNoUnknown(volatile: set<string>, v: Json)
    requires AllKnown(v) && "status" !in volatile && "unknown" !in volatile
    ensures !HoldsUnknown(Normalize(volatile, v))
    decreases v
  {
    hide IsUnknown;
    assert IsKnownAt(v, []) by { assert ValueAt(v, []) == Some(v); }
    if v.Obj? {
      UnknownSurvives(volatile, v);
      var fields := Normalize(volatile, v).fields;
      forall k | k in fields ensures !HoldsUnknown(fields[k]) {
        KnownBelow(v, k);
        KnownHoldsNoUnknown(volatile, v.fields[k]);
      }
    }
  }

  lemma UnknownSurvives(volatile: set<string>, v: Json)
    requires "status" !in volatile && "unknown" !in volatile && v.Obj?
    ensures IsUnknown(Normalize(volatile, v)) <==> IsUnknown(v)
  {
    hide EqualFold;
    NormalKeepsScalars(volatile, Field(v.fields, "status"));
    NormalKeepsScalars(volatile, Field(v.fields, "unknown"));
  }

  lemma NormalKeepsScalars(volatile: set<string>, v: Json)
    ensures StringValue(Normalize(volatile, v)) == StringValue(v) && BoolValue(Normalize(volatile, v)) == BoolValue(v)
  {
  }

  /** A setting that is observed as it is desired is not reported: when the observation agrees with a shape
      without unknowns, whatever else it holds, the aligned comparison reports nothing. */
  lemma ConvergedReportsNothing(volatile: set<string>, shape: Json, observed: Json)
    requires "status" !in volatile && "unknown" !in volatile
    requires AllKnown(shape) && Agrees(shape, observed)
    ensures Diff(volatile, Normalize(volatile, shape), Normalize(volatile, AlignShape(shape, observed))) == []
  {
    hide Diff, Normalize, Alike, HoldsUnknown, AllKnown, Agrees, AlignShape;
    AgreementAligns(shape, observed);
    KnownHoldsNoUnknown(volatile, shape);
    NormalizedCleanExactly(volatile, shape, shape);
    NormalizeDecidesAlike(volatile, shape, shape);
  }

  // ----- Scopes

  lemma NarrowedIsAlike(volatile: set<string>, d: map<string, Json>, o: map<string, Json>)
    requires Alike(volatile, Obj(d), Obj(o))
    ensures Alike(volatile, Obj(Narrow(d)), Obj(Narrow(o)))
  {
    var d', o' := Narrow(d), Narrow(o);
    forall k | k !in volatile ensures k in d' <==> k in o' {
      assert k in d <==> k in o;
    }
    forall k | k in d' && k !in volatile ensures Alike(volatile, d'[k], o'[k]) {
      assert k in d && d'[k] == d[k] && o'[k] == o[k];
    }
  }

  lemma NarrowedHoldsNoUnknown(volatile: set<string>, o: map<string, Json>)
    requires !HoldsUnknown(Normalize(volatile, Obj(o)))
    ensures !HoldsUnknown(Normalize(volatile, Obj(Narrow(o))))
  {
    var full, narrowed := Normalize(volatile, Obj(o)).fields, Normalize(volatile, Obj(Narrow(o))).fields;
    assert "status" !in CRITICAL_KEYS && "unknown" !in CRITICAL_KEYS;
    assert !IsUnknown(Obj(narrowed));
    forall k | k in narrowed ensures !HoldsUnknown(narrowed[k]) {
      assert k in full && full[k] == narrowed[k];
    }
  }

  /** A pair of states that is clean at full scope is clean at the critical scope. */
  lemma CleanNarrows(volatile: set<string>, d: map<string, Json>, o: map<string, Json>)
    requires Diff(volatile, Normalize(volatile, Obj(d)), Normalize(volatile, Obj(o))) == []
    ensures Diff(volatile, Normalize(volatile, Obj(Narrow(d))), Normalize(volatile, Obj(Narrow(o)))) == []
  {
    hide Diff, Normalize, Alike, HoldsUnknown, Narrow;
    NormalizedCleanExactly(volatile, Obj(d), Obj(o));
    NarrowedIsAlike(volatile, d, o);
    NarrowedHoldsNoUnknown(volatile, o);
    NormalizedCleanExactly(volatile, Obj(Narrow(d)), Obj(Narrow(o)));
  }
}
