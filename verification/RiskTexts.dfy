/** The high-risk entries and the sensitive count of a summary, by the text of the entries. */
module RiskTexts {
  import opened Text
  import opened Ordering
  import opened Permutations
  import opened Values
  import opened Pointers
  import opened PlanWalk
  import opened PlanLookup
  import opened ChangeIds
  import opened PlanChanges
  import opened PlanSummary
  import opened PlanLedger
  import opened PlanDecision
  import opened PlanTexts
  import opened WriteTexts

  // ----- High-risk entries

  /** What a high-risk entry says of a write: its type, what was found, why, and the denial of a mixed plan. */
  ghost predicate RiskShows(rules: Rules, raw: Json, mixed: bool, e: Risk) {
    && e.kind == TypeText(raw) && Increasing(e.classes) && Increasing(e.reasons)
    && (forall c :: c in e.classes <==> HasClass(rules, raw, c) || (mixed && c == "authority_replacement"))
    && (forall reason :: reason in e.reasons <==>
          HasReason(rules, raw, reason) ||
          (mixed && reason == "governed revocations must be the only writes in a retirement plan"))
  }

  /** The entry of a write: the one found for it, raised when the plan is mixed. */
  ghost function FinalRisk(rules: Rules, rs: seq<Resource>, k: nat): Risk
    requires k < |rs|
  {
    var x := Rate(rules, rs[k], k + 1);
    if Mixed(rules, rs) then Denied(x) else RiskOf(x)
  }

  /** The high-risk entries are those of the writes with a reason, and of all writes when the plan is mixed. */
  lemma RisksAreTheWrites(rules: Rules, rs: seq<Resource>, e: Risk)
    ensures e in FinalRisks(rules, rs) <==>
      exists k :: 0 <= k < |rs| && rs[k].IsWrite() && (Mixed(rules, rs) || Reasons(rules, rs[k]) != {}) &&
        e == FinalRisk(rules, rs, k)
  {
    hide *;
    FinalParts(rules, rs);
    AllRatedAreTheWrites(rules, rs);
    InSorted(RiskId, DeniedRisks(AllRated(rules, rs)));
    InSorted(RiskId, Risks(AllRated(rules, rs)));
    if e in FinalRisks(rules, rs) {
      RiskComesFromWrite(rules, rs, e);
    }
    if k :|
      && 0 <= k < |rs| && rs[k].IsWrite() && (Mixed(rules, rs) || Reasons(rules, rs[k]) != {})
      && e == FinalRisk(rules, rs, k)
    {
      WriteHasRisk(rules, rs, k);
    }
  }

  lemma ReasonsAreGiven(rules: Rules, r: Resource, number: nat)
    ensures Rate(rules, r, number).reasons != [] <==> Reasons(rules, r) != {}
  {
    hide Reasons, SortedKeys, Classes, ChangedFields, ChangeId, WriteClass;
    assert |SortedKeys(Reasons(rules, r))| == |Reasons(rules, r)|;
  }

  lemma RiskComesFromWrite(rules: Rules, rs: seq<Resource>, e: Risk)
    requires e in if Mixed(rules, rs) then DeniedRisks(AllRated(rules, rs)) else Risks(AllRated(rules, rs))
    ensures exists k ::
      && 0 <= k < |rs| && rs[k].IsWrite() && (Mixed(rules, rs) || Reasons(rules, rs[k]) != {})
      && e == FinalRisk(rules, rs, k)
  {
    hide Rate, RatedUpTo, Mixed, Reasons, Resource.IsWrite, Denied, RiskOf, Risks;
    var rated := AllRated(rules, rs);
    RatedAreTheWrites(rules, rs, |rs|);
    var i: nat :| i < |rated| &&
      if Mixed(rules, rs) then e == Denied(rated[i]) else rated[i].reasons != [] && e == RiskOf(rated[i])
    by {
      if !Mixed(rules, rs) {
        RisksAreRated(rated, e);
      }
    }
    assert rated[i] in rated;
    var k := rated[i].number - 1;
    ReasonsAreGiven(rules, rs[k], k + 1);
  }

  lemma WriteHasRisk(rules: Rules, rs: seq<Resource>, k: nat)
    requires k < |rs| && rs[k].IsWrite() && (Mixed(rules, rs) || Reasons(rules, rs[k]) != {})
    ensures FinalRisk(rules, rs, k) in
      if Mixed(rules, rs) then DeniedRisks(AllRated(rules, rs)) else Risks(AllRated(rules, rs))
  {
    hide Rate, RatedUpTo, Mixed, Reasons, Resource.IsWrite, Denied, RiskOf, Risks;
    var rated, x := AllRated(rules, rs), Rate(rules, rs[k], k + 1);
    RatedAreTheWrites(rules, rs, |rs|);
    RateIsRated(rules, rs, k);
    var i :| 0 <= i < |rated| && rated[i] == x;
    if Mixed(rules, rs) {
      assert DeniedRisks(rated)[i] == Denied(x);
    } else {
      ReasonsAreGiven(rules, rs[k], k + 1);
      RisksAreRated(rated, RiskOf(x));
    }
  }

  lemma ReasonsByText(rules: Rules, raw: Json)
    ensures forall reason :: reason in Reasons(rules, Parse(raw)) <==> HasReason(rules, raw, reason)
    ensures Reasons(rules, Parse(raw)) == {} <==> forall c :: !HasClass(rules, raw, c)
  {
    hide Findings, Finds, Parse;
    var findings := Findings(rules, Parse(raw));
    forall f: Finding ensures f in findings <==> Finds(rules, raw, f.class_, f.reason) {
      FoundExactly(rules, raw, f);
    }
    forall class_, reason | Finds(rules, raw, class_, reason) ensures RawFinding(class_, reason) in findings {
      FoundHasReason(rules, raw, class_, reason);
      var f: Finding := RawFinding(class_, reason);
      assert f in findings;
    }
    if findings != {} {
      var f :| f in findings;
      assert HasClass(rules, raw, f.class_);
    }
  }

  lemma FinalRiskParts(rules: Rules, rs: seq<Resource>, k: nat)
    requires k < |rs|
    ensures var e, classes, reasons := FinalRisk(rules, rs, k), Classes(rules, rs[k]), Reasons(rules, rs[k]);
      && e.id == ChangeId(k + 1) && e.kind == rs[k].kind && Increasing(e.classes) && Increasing(e.reasons)
      && (forall reason :: reason in e.reasons <==> reason in reasons || (Mixed(rules, rs) && reason == MIXED_REASON))
      && (forall c :: c in e.classes <==>
            (c in classes && (reasons != {} || !Mixed(rules, rs))) || (Mixed(rules, rs) && c == AUTHORITY_REPLACEMENT))
  {
    hide Classes, Reasons, Mixed, SortedKeys, ChangedFields, ChangeId, WriteClass;
    ReasonsAreGiven(rules, rs[k], k + 1);
    OneIsIncreasing(AUTHORITY_REPLACEMENT);
    OneIsIncreasing(MIXED_REASON);
  }

  lemma OneIsIncreasing(s: string)
    ensures Increasing([s])
  {
  }

  /** The high-risk entries of a summary: one for every write in which something is found, and for every write
      of a mixed plan; each shows its write. */
  lemma RisksByText(rules: Rules, changes: seq<Json>, order: seq<Json>)
    requires IsInOrder(order, changes)
    ensures var risks, mixed :=
        Summarized(rules, SortedResourceChanges(changes)).highRisk, MixesDeletes(rules, changes);
      && (forall e :: e in risks ==> exists k: nat ::
            k < |order| && IsWriting(order[k]) && e.id == ChangeId(k + 1) && RiskShows(rules, order[k], mixed, e))
      && (forall k: nat ::
            k < |order| && IsWriting(order[k]) && (mixed || exists c :: HasClass(rules, order[k], c)) ==>
            exists e :: e in risks && e.id == ChangeId(k + 1))
  {
    hide *;
    var rs, mixed := SortedResourceChanges(changes), MixesDeletes(rules, changes);
    OrderIsSorted(order, changes);
    SummaryParts(rules, rs);
    MixedByText(rules, changes);
    var risks := FinalRisks(rules, rs);
    forall e | e in risks ensures exists k: nat ::
      k < |order| && IsWriting(order[k]) && e.id == ChangeId(k + 1) && RiskShows(rules, order[k], mixed, e)
    {
      RisksAreTheWrites(rules, rs, e);
      var k :| 0 <= k < |rs| && rs[k].IsWrite() && (Mixed(rules, rs) || Reasons(rules, rs[k]) != {}) &&
        e == FinalRisk(rules, rs, k);
      ParsedWrites(order[k]);
      RiskShowsEntry(rules, rs, order[k], k);
    }
    forall k: nat | k < |order| && IsWriting(order[k]) && (mixed || exists c :: HasClass(rules, order[k], c))
      ensures exists e :: e in risks && e.id == ChangeId(k + 1)
    {
      ParsedWrites(order[k]);
      ReasonsByText(rules, order[k]);
      FinalRiskParts(rules, rs, k);
      RisksAreTheWrites(rules, rs, FinalRisk(rules, rs, k));
    }
  }

  lemma RiskShowsEntry(rules: Rules, rs: seq<Resource>, raw: Json, k: nat)
    requires k < |rs| && rs[k] == Parse(raw) && (Mixed(rules, rs) || Reasons(rules, rs[k]) != {})
    ensures FinalRisk(rules, rs, k).id == ChangeId(k + 1)
    ensures RiskShows(rules, raw, Mixed(rules, rs), FinalRisk(rules, rs, k))
  {
    hide Parse, Mixed, FinalRisk, Classes, Reasons, HasClass, HasReason, TypeText, ChangeId;
    ParsedFields(raw);
    FinalRiskParts(rules, rs, k);
    ReasonsByText(rules, raw);
    forall c ensures c in Classes(rules, Parse(raw)) <==>
      HasClass(rules, raw, c) || (c == "routine_write" && forall other :: !HasClass(rules, raw, other))
    {
      ClassesByText(rules, raw, c);
    }
  }

  // ----- Sensitive entries

  /** A true marker stands somewhere in a marker tree. */
  ghost predicate HasTrue(v: Json) {
    exists p: Path :: Present(v).At(p) == Present(Bool(true))
  }

  lemma {:induction false} ContainsSensitiveExactly(v: Json)
    ensures ContainsSensitive(v) <==> HasTrue(v)
    decreases v
  {
    if v == Bool(true) {
      assert Present(v).At([]) == Present(Bool(true));
    }
    if v.Obj? {
      forall k | k in v.fields ensures ContainsSensitive(v.fields[k]) <==> HasTrue(v.fields[k]) {
        ContainsSensitiveExactly(v.fields[k]);
      }
      if k :| k in v.fields && ContainsSensitive(v.fields[k]) {
        TrueBelow(v, Key(k));
      }
    }
    if v.Arr? {
      forall i | 0 <= i < |v.items| ensures ContainsSensitive(v.items[i]) <==> HasTrue(v.items[i]) {
        ContainsSensitiveExactly(v.items[i]);
      }
      if i :| 0 <= i < |v.items| && ContainsSensitive(v.items[i]) {
        TrueBelow(v, Index(i));
      }
    }
    if p: Path :| Present(v).At(p) == Present(Bool(true)) {
      if p != [] {
        AbsentBelow(p[1..]);
        var child := Present(v).Child(p[0]);
        assert child.At(p[1..]) == Present(Bool(true));
        assert child == Present(child.value);
        assert HasTrue(Present(v).Child(p[0]).value);
      }
    }
  }

  lemma TrueBelow(v: Json, seg: Segment)
    requires Present(v).Child(seg).Present? && HasTrue(Present(v).Child(seg).value)
    ensures HasTrue(v)
  {
    var p :| Present(Present(v).Child(seg).value).At(p) == Present(Bool(true));
    assert ([seg] + p)[1..] == p;
    assert Present(v).At([seg] + p) == Present(Bool(true));
  }

  ghost predicate MarksSensitive(raw: Json) {
    HasTrue(Inner(Inner(raw, "change"), "after_sensitive")) || HasTrue(Inner(Inner(raw, "change"), "before_sensitive"))
  }

  lemma SensitiveByText(raw: Json)
    ensures PlanSummary.IsSensitive(Parse(raw)) <==> MarksSensitive(raw)
  {
    hide Parse, ContainsSensitive, HasTrue;
    ParsedFields(raw);
    ContainsSensitiveExactly(Inner(Inner(raw, "change"), "after_sensitive"));
    ContainsSensitiveExactly(Inner(Inner(raw, "change"), "before_sensitive"));
  }

  ghost function Marks(changes: seq<Json>): (r: seq<bool>)
    ensures |r| == |changes| && forall i :: 0 <= i < |r| ==> r[i] == MarksSensitive(changes[i])
  {
    seq(|changes|, i requires 0 <= i < |changes| => MarksSensitive(changes[i]))
  }

  lemma {:induction false} SensitiveCount(order: seq<Json>, n: nat)
    requires n <= |order|
    ensures SensitiveUpTo(ParseAll(order), n) == multiset(Marks(order)[..n])[true]
  {
    hide PlanSummary.IsSensitive, MarksSensitive, Parse;
    if n > 0 {
      SensitiveCount(order, n - 1);
      SensitiveByText(order[n - 1]);
      assert Marks(order)[..n] == Marks(order)[..n - 1] + [Marks(order)[n - 1]];
    }
  }

  /** The sensitive count is the number of entries that mark something. */
  lemma SensitiveAreCounted(rules: Rules, changes: seq<Json>)
    ensures Summarized(rules, SortedResourceChanges(changes)).sensitive == multiset(Marks(changes))[true]
  {
    hide *;
    var rs, sorted := SortedResourceChanges(changes), SortBy(RawKey, changes);
    SummaryParts(rules, rs);
    SummaryCounts(rules, changes);
    SensitiveCount(sorted, |sorted|);
    assert Marks(sorted)[..|sorted|] == Marks(sorted);
    SortByIsSortedPermutation(RawKey, changes);
    MarksForgetOrder(sorted, changes);
  }

  lemma MarksForgetOrder(xs: seq<Json>, ys: seq<Json>)
    requires multiset(xs) == multiset(ys)
    ensures multiset(Marks(xs)) == multiset(Marks(ys))
  {
    hide MarksSensitive;
    var p := FromMultiset(xs, ys);
    ToMultiset(Marks(xs), Marks(ys), p);
  }
}
