/** The blocker logic of `Build`, and what an eligible plan can contain. */
module PlanDecision {
  import opened Collections
  import opened Text
  import opened Ordering
  import opened Values
  import opened Pointers
  import opened PlanWalk
  import opened PlanPaths
  import opened PlanView
  import opened ChangeIds
  import opened Unions
  import opened PlanChanges
  import opened PlanSummary
  import opened PlanLedger

  /** The founder bootstrap exempts public visibility and nothing else. */
  predicate IsDenied(founder: bool, class_: string) {
    class_ in FUNDAMENTAL && !(founder && class_ == "public_visibility")
  }

  ghost predicate DeniesRisks(founder: bool, risks: seq<Risk>) {
    exists r :: r in risks && DeniesClasses(founder, r.classes)
  }

  ghost predicate DeniesClasses(founder: bool, classes: seq<string>) {
    exists c :: c in classes && IsDenied(founder, c)
  }

  ghost predicate ExpandsPrivilege(risks: seq<Risk>) {
    exists r :: r in risks && "privilege_expansion" in r.classes
  }

  datatype Phase = Adopt | Foundation | Enforce

  /** One case per message. */
  datatype Blocker =
    | Fundamental | AdoptWrites | RiskNotAcknowledged | RemovalNotAcknowledged | RemovalNotAnalysed | NothingRemoved

  datatype Decision = Decision(eligible: bool, requiresRisk: bool, requiresRemoval: bool, blockers: seq<Blocker>)

  /** The inputs to the decision besides the summary; `founder` is the founder public bootstrap. */
  datatype Review = Review(
    phase: Phase, riskAcknowledged: bool, removalAcknowledged: bool, analysisVerified: bool, founder: bool)

  ghost predicate Eligible(review: Review, summary: Summary) {
    && !DeniesRisks(review.founder, summary.highRisk)
    && (review.phase == Adopt ==> summary.writes == [])
    && (ExpandsPrivilege(summary.highRisk) ==> review.riskAcknowledged)
    && (if summary.destructive != [] then review.removalAcknowledged && review.analysisVerified
        else !review.removalAcknowledged && !review.analysisVerified)
  }

  /** The two flags `Build` collects over the high-risk entries. */
  method Scan(founder: bool, risks: seq<Risk>) returns (fundamental: bool, privilege: bool)
    ensures fundamental <==> DeniesRisks(founder, risks)
    ensures privilege <==> ExpandsPrivilege(risks)
  {
    hide IsDenied;
    fundamental, privilege := false, false;
    for i := 0 to |risks|
      invariant fundamental <==> DeniesRisks(founder, risks[..i])
      invariant privilege <==> ExpandsPrivilege(risks[..i])
    {
      var denied, expands := ScanClasses(founder, risks[i].classes);
      assert risks[..i + 1] == risks[..i] + [risks[i]];
      fundamental := fundamental || denied;
      privilege := privilege || expands;
    }
    assert risks[..|risks|] == risks;
  }

  method ScanClasses(founder: bool, classes: seq<string>) returns (fundamental: bool, privilege: bool)
    ensures fundamental <==> DeniesClasses(founder, classes)
    ensures privilege <==> "privilege_expansion" in classes
  {
    hide IsDenied;
    fundamental, privilege := false, false;
    for j := 0 to |classes|
      invariant fundamental <==> DeniesClasses(founder, classes[..j])
      invariant privilege <==> "privilege_expansion" in classes[..j]
    {
      assert classes[..j + 1] == classes[..j] + [classes[j]];
      if IsDenied(founder, classes[j]) {
        fundamental := true;
      }
      if classes[j] == "privilege_expansion" {
        privilege := true;
      }
    }
    assert classes[..|classes|] == classes;
  }

  /** The decision of `Build`: eligible exactly when nothing blocks. */
  method Decide(review: Review, summary: Summary) returns (decision: Decision)
    ensures decision.eligible <==> Eligible(review, summary)
    ensures decision.eligible <==> decision.blockers == []
    ensures decision.requiresRisk <==> ExpandsPrivilege(summary.highRisk)
    ensures decision.requiresRemoval <==> summary.destructive != []
  {
    hide DeniesRisks, ExpandsPrivilege;
    var fundamental, privilege := Scan(review.founder, summary.highRisk);
    var blockers: seq<Blocker> := [];
    if fundamental {
      blockers := blockers + [Fundamental];
    }
    if review.phase == Adopt && |summary.writes| > 0 {
      blockers := blockers + [AdoptWrites];
    }
    if privilege && !review.riskAcknowledged {
      blockers := blockers + [RiskNotAcknowledged];
    }
    var requiresRemoval := |summary.destructive| > 0;
    if requiresRemoval && !review.removalAcknowledged {
      blockers := blockers + [RemovalNotAcknowledged];
    }
    if requiresRemoval && !review.analysisVerified {
      blockers := blockers + [RemovalNotAnalysed];
    }
    if !requiresRemoval && (review.removalAcknowledged || review.analysisVerified) {
      blockers := blockers + [NothingRemoved];
    }
    decision := Decision(|blockers| == 0, privilege, requiresRemoval, blockers);
  }

  // ----- What is denied

  lemma DeniedClassesExactly(founder: bool, rules: Rules, r: Resource)
    ensures DeniesClasses(founder, SortedKeys(Classes(rules, r))) <==>
      exists c :: c in Classes(rules, r) && IsDenied(founder, c)
    ensures (exists c :: c in Classes(rules, r) && IsDenied(founder, c)) ==> SortedKeys(Reasons(rules, r)) != []
  {
    hide Findings, ClassesOf, SortedKeys, ReasonsOf;
    if c :| c in Classes(rules, r) && IsDenied(founder, c) {
      RoutineIsNotDenied(founder);
      var some :| some in Reasons(rules, r);
      assert some in SortedKeys(Reasons(rules, r));
    }
  }

  lemma RoutineIsNotDenied(founder: bool)
    ensures !IsDenied(founder, "routine_write")
    ensures IsDenied(founder, AUTHORITY_REPLACEMENT)
  {
  }

  /** Some change is denied by its own classes. */
  ghost predicate DeniesChange(founder: bool, rules: Rules, r: Resource) {
    r.IsWrite() && exists c :: c in Classes(rules, r) && IsDenied(founder, c)
  }

  lemma InSorted<T(!new)>(key: T -> string, xs: seq<T>)
    ensures forall x :: x in SortBy(key, xs) <==> x in xs
  {
    SortByIsSortedPermutation(key, xs);
    forall x ensures x in SortBy(key, xs) <==> x in xs {
      assert x in SortBy(key, xs) <==> x in multiset(SortBy(key, xs));
      assert x in xs <==> x in multiset(xs);
    }
  }

  /** The plan is denied exactly when some write is denied by its own classes, or a governed delete
      stands beside another write. */
  lemma DeniedExactly(founder: bool, rules: Rules, rs: seq<Resource>)
    ensures DeniesRisks(founder, FinalRisks(rules, rs)) <==>
      Mixed(rules, rs) || exists r :: r in rs && DeniesChange(founder, rules, r)
  {
    hide *;
    FinalParts(rules, rs);
    if Mixed(rules, rs) {
      MixedIsDenied(founder, rules, rs);
    } else {
      InSorted(RiskId, Risks(AllRated(rules, rs)));
      UnmixedIsDeniedExactly(founder, rules, rs);
      SameRisksDenied(founder, SortBy(RiskId, Risks(AllRated(rules, rs))), Risks(AllRated(rules, rs)));
    }
  }

  lemma SameRisksDenied(founder: bool, xs: seq<Risk>, ys: seq<Risk>)
    requires forall r :: r in xs <==> r in ys
    ensures DeniesRisks(founder, xs) <==> DeniesRisks(founder, ys)
  {
    hide DeniesClasses;
  }

  lemma MixedIsDenied(founder: bool, rules: Rules, rs: seq<Resource>)
    requires Mixed(rules, rs)
    ensures DeniesRisks(founder, FinalRisks(rules, rs))
  {
    hide ActionClass, SortBy, RatedUpTo, Rate, IsDenied, IsGovernedDelete, DeniesClasses, Denied;
    var rated := AllRated(rules, rs);
    var r :| r in rs && r.IsWrite() && !IsGovernedDelete(rules, r);
    var k :| 0 <= k < |rs| && rs[k] == r;
    RatedAreTheWrites(rules, rs, |rs|);
    RateNumber(rules, r, k + 1);
    assert IsRated(rules, rs, |rs|, Rate(rules, r, k + 1));
    var i :| 0 <= i < |rated| && rated[i] == Rate(rules, r, k + 1);
    InSorted(RiskId, DeniedRisks(rated));
    assert DeniedRisks(rated)[i] in DeniedRisks(rated);
    DeniedIsDenied(founder, rated[i]);
  }

  lemma DeniedIsDenied(founder: bool, x: Rated)
    ensures DeniesClasses(founder, Denied(x).classes)
  {
    hide IsDenied;
    RoutineIsNotDenied(founder);
    assert AUTHORITY_REPLACEMENT in Denied(x).classes;
  }

  lemma UnmixedIsDeniedExactly(founder: bool, rules: Rules, rs: seq<Resource>)
    ensures DeniesRisks(founder, Risks(AllRated(rules, rs))) <==>
      exists r :: r in rs && DeniesChange(founder, rules, r)
  {
    hide ActionClass, RatedUpTo, Risks, Rate, IsDenied, DeniesClasses, Classes, Reasons, SortedKeys, ChangeId;
    var rated := AllRated(rules, rs);
    RatedAreTheWrites(rules, rs, |rs|);
    if risk :| risk in Risks(rated) && DeniesClasses(founder, risk.classes) {
      RisksAreRated(rated, risk);
      var i :| 0 <= i < |rated| && rated[i].reasons != [] && risk == RiskOf(rated[i]);
      assert rated[i] in rated;
      var r := rs[rated[i].number - 1];
      RateParts(rules, r, rated[i].number);
      DeniedClassesExactly(founder, rules, r);
      assert r in rs && DeniesChange(founder, rules, r);
    }
    if r :| r in rs && DeniesChange(founder, rules, r) {
      var k :| 0 <= k < |rs| && rs[k] == r;
      var x := Rate(rules, r, k + 1);
      RateParts(rules, r, k + 1);
      DeniedClassesExactly(founder, rules, r);
      assert IsRated(rules, rs, |rs|, x);
      var i :| 0 <= i < |rated| && rated[i] == x;
      RisksAreRated(rated, RiskOf(x));
      assert RiskOf(x) in Risks(rated);
    }
  }

  lemma RateParts(rules: Rules, r: Resource, number: nat)
    ensures var x := Rate(rules, r, number);
      && x.number == number && x.write.id == ChangeId(number)
      && x.write.classes == SortedKeys(Classes(rules, r)) && x.reasons == SortedKeys(Reasons(rules, r))
  {
    hide SortedKeys, Classes, Reasons, ChangeId, WriteClass, ChangedFields;
  }

  /** Adding resource changes to a denied plan never makes it undenied. */
  lemma DenialIsMonotone(founder: bool, rules: Rules, fewer: seq<Json>, more: seq<Json>)
    requires multiset(fewer) <= multiset(more)
    requires DeniesRisks(founder, FinalRisks(rules, SortedResourceChanges(fewer)))
    ensures DeniesRisks(founder, FinalRisks(rules, SortedResourceChanges(more)))
  {
    hide *;
    var rs, qs := SortedResourceChanges(fewer), SortedResourceChanges(more);
    DeniedExactly(founder, rules, rs);
    DeniedExactly(founder, rules, qs);
    forall r | r in rs ensures r in qs {
      SortedResourceChangesHolds(fewer, r);
      SortedResourceChangesHolds(more, r);
      var raw :| raw in fewer && r == Parse(raw);
      assert raw in multiset(fewer) && raw in multiset(more);
    }
    if Mixed(rules, rs) {
      MixedIsMonotone(rules, rs, qs);
    }
  }

  lemma MixedIsMonotone(rules: Rules, rs: seq<Resource>, qs: seq<Resource>)
    requires forall r :: r in rs ==> r in qs
    requires Mixed(rules, rs)
    ensures Mixed(rules, qs)
  {
    hide IsGovernedDelete, Resource.IsWrite;
  }

  // ----- What an eligible plan can contain

  /** Only governed deletes are written. */
  ghost predicate OnlyGovernedDeletes(rules: Rules, rs: seq<Resource>) {
    forall r :: r in rs && r.IsWrite() ==> IsGovernedDelete(rules, r)
  }

  /** Only creates and updates are written, each of a managed type and within its write list. */
  ghost predicate OnlyListedChanges(rules: Rules, rs: seq<Resource>) {
    forall r :: r in rs && r.IsWrite() ==>
      Sets(r) && KeepsToList(rules, r) && ToLower(r.kind) in rules.managedTypes
  }

  lemma UndeniedIsSound(founder: bool, rules: Rules, r: Resource)
    requires r.IsWrite() && !DeniesChange(founder, rules, r)
    ensures IsGovernedDelete(rules, r) || (Sets(r) && KeepsToList(rules, r) && ToLower(r.kind) in rules.managedTypes)
  {
    hide ActionClass, Classes, KeepsToList, IsGovernedDelete, ToLower;
    forall c | c in Classes(rules, r) ensures c !in FUNDAMENTAL - {"public_visibility"} {
      assert !IsDenied(founder, c);
    }
    SoundChange(rules, r);
  }

  lemma UndeniedPlan(founder: bool, rules: Rules, rs: seq<Resource>)
    requires !DeniesRisks(founder, FinalRisks(rules, rs))
    ensures OnlyGovernedDeletes(rules, rs) || OnlyListedChanges(rules, rs)
  {
    hide ActionClass, Classes, FinalRisks, KeepsToList, IsGovernedDelete, ToLower, DeniesChange, Resource.IsWrite;
    DeniedExactly(founder, rules, rs);
    forall r | r in rs && r.IsWrite()
      ensures IsGovernedDelete(rules, r) ||
        (Sets(r) && KeepsToList(rules, r) && ToLower(r.kind) in rules.managedTypes)
    {
      UndeniedIsSound(founder, rules, r);
    }
    if !OnlyGovernedDeletes(rules, rs) {
      forall r | r in rs && r.IsWrite() ensures !IsGovernedDelete(rules, r) {
        var other :| other in rs && other.IsWrite() && !IsGovernedDelete(rules, other);
      }
    }
  }

  lemma {:induction false} InIdsUpTo(test: Resource -> bool, rs: seq<Resource>, n: nat, id: string)
    requires n <= |rs|
    ensures id in IdsUpTo(test, rs, n) <==> exists k :: 0 <= k < n && test(rs[k]) && id == ChangeId(k + 1)
  {
    hide ChangeId;
    if n > 0 {
      InIdsUpTo(test, rs, n - 1, id);
    }
  }

  lemma {:induction false} IdsHaveNoRepeats(test: Resource -> bool, rs: seq<Resource>, n: nat)
    requires n <= |rs|
    ensures NoRepeats(IdsUpTo(test, rs, n))
  {
    hide ChangeId;
    if n > 0 {
      IdsHaveNoRepeats(test, rs, n - 1);
      var front := IdsUpTo(test, rs, n - 1);
      if ChangeId(n) in front {
        InIdsUpTo(test, rs, n - 1, ChangeId(n));
        var k :| 0 <= k < n - 1 && ChangeId(n) == ChangeId(k + 1);
        ChangeIdIsInjective(n, k + 1);
      }
    }
  }

  lemma SortedIds(ids: seq<string>)
    requires NoRepeats(ids)
    ensures Increasing(SortBy(Identity, ids))
    ensures forall id :: id in SortBy(Identity, ids) <==> id in ids
  {
    hide SortBy;
    InSorted(Identity, ids);
    SortByIsSortedPermutation(Identity, ids);
    RearrangedNoRepeats(ids, SortBy(Identity, ids));
    SortedDistinct(SortBy(Identity, ids));
  }

  lemma SortedDistinct(ids: seq<string>)
    requires SortedBy(Identity, ids) && NoRepeats(ids)
    ensures Increasing(ids)
  {
    forall i, j | 0 <= i < j < |ids| ensures Less(ids[i], ids[j]) {
      assert Leq(Identity(ids[i]), Identity(ids[j]));
    }
  }

  /** An identifier list holds exactly the changes that satisfy a test, each once, in order. */
  ghost predicate ListsExactly(ids: seq<string>, test: Resource -> bool, rs: seq<Resource>) {
    Increasing(ids) && forall id :: id in ids <==> exists k :: 0 <= k < |rs| && test(rs[k]) && id == ChangeId(k + 1)
  }

  lemma SortedIdsListExactly(test: Resource -> bool, rs: seq<Resource>)
    ensures ListsExactly(SortBy(Identity, IdsUpTo(test, rs, |rs|)), test, rs)
  {
    hide SortBy, IdsUpTo, ChangeId;
    var ids := IdsUpTo(test, rs, |rs|);
    IdsHaveNoRepeats(test, rs, |rs|);
    SortedIds(ids);
    forall id ensures id in ids <==> exists k :: 0 <= k < |rs| && test(rs[k]) && id == ChangeId(k + 1) {
      InIdsUpTo(test, rs, |rs|, id);
    }
  }

  /** The removals are listed exactly: deletes, replacements and forgets; and so are the replacements. */
  lemma RemovalsAreListed(rules: Rules, rs: seq<Resource>)
    ensures ListsExactly(Summarized(rules, rs).destructive, Removes, rs)
    ensures ListsExactly(Summarized(rules, rs).replacements, Replaces, rs)
  {
    hide SortBy, IdsUpTo, ListsExactly, CountsOf, SensitiveUpTo, FinalWrites, FinalRisks;
    SortedIdsListExactly(Removes, rs);
    SortedIdsListExactly(Replaces, rs);
  }

  /** An eligible plan writes governed deletes alone, or creates and updates alone, and those keep to
      the write lists; removals are acknowledged and analysed; adoption writes nothing. */
  lemma EligiblePlan(rules: Rules, review: Review, changes: seq<Json>)
    requires Eligible(review, Summarized(rules, SortedResourceChanges(changes)))
    ensures var rs := SortedResourceChanges(changes);
      && (OnlyGovernedDeletes(rules, rs) || OnlyListedChanges(rules, rs))
      && ((exists r :: r in rs && r.Removes()) ==> review.removalAcknowledged && review.analysisVerified)
      && (review.phase == Adopt ==> forall r :: r in rs ==> !r.IsWrite())
  {
    hide SortedResourceChanges, OnlyGovernedDeletes, OnlyListedChanges, ActionClass, DeniesRisks, ChangeId, IdsUpTo,
      CountsOf, SensitiveUpTo, FinalWrites, FinalRisks, SortBy, Resource.IsWrite, Resource.Removes, ExpandsPrivilege;
    var rs := SortedResourceChanges(changes);
    UndeniedPlan(review.founder, rules, rs);
    RemovalsAreListed(rules, rs);
    if r :| r in rs && r.Removes() {
      var k :| 0 <= k < |rs| && rs[k] == r;
      assert Removes(rs[k]);
      assert ChangeId(k + 1) in Summarized(rules, rs).destructive;
    }
    if review.phase == Adopt {
      NoWritesMeans(rules, rs);
    }
  }

  lemma NoWritesMeans(rules: Rules, rs: seq<Resource>)
    requires FinalWrites(rules, rs) == []
    ensures forall r :: r in rs ==> !r.IsWrite()
  {
    hide Mixed, SortBy, RatedUpTo, Rate, Resource.IsWrite;
    var rated := AllRated(rules, rs);
    SortByIsSortedPermutation(WriteId, Writes(rated));
    SortByIsSortedPermutation(WriteId, DeniedWrites(rated));
    assert rated == [];
    RatedAreTheWrites(rules, rs, |rs|);
    forall r | r in rs ensures !r.IsWrite() {
      var k :| 0 <= k < |rs| && rs[k] == r;
      RateNumber(rules, r, k + 1);
      assert r.IsWrite() ==> IsRated(rules, rs, |rs|, Rate(rules, r, k + 1));
    }
  }

  /** No write of an eligible plan replaces, forgets or is of an unknown action. */
  lemma EligibleActions(rules: Rules, review: Review, changes: seq<Json>, r: Resource)
    requires Eligible(review, Summarized(rules, SortedResourceChanges(changes)))
    requires r in SortedResourceChanges(changes)
    ensures r.Action() in {Create, Update, Delete, Read, NoOp}
    ensures r.Action() == Delete ==> IsGovernedDelete(rules, r)
  {
    hide SortedResourceChanges, ActionClass, KeepsToList, ToLower, IsRetirement, Eligible, Summarized;
    EligiblePlan(rules, review, changes);
  }

  /** From the verdict down to single values: an update in an eligible plan changes a scalar only at a
      path its type lists, or below a listed position whose container kind changed. */
  lemma EligibleUpdateTouchesOnlyListed(rules: Rules, review: Review, changes: seq<Json>, r: Resource, s: Path)
    returns (p: Path)
    requires Eligible(review, Summarized(rules, SortedResourceChanges(changes)))
    requires r in SortedResourceChanges(changes) && r.Action() == Update
    requires Side(r.Before()).At(s) != Side(r.After()).At(s)
    requires IsScalar(Side(r.Before()).At(s)) || IsScalar(Side(r.After()).At(s))
    ensures p <= s && Listed(rules.lists(ToLower(r.kind)), Shown(p))
    ensures p != s ==> KindsClash(Side(r.Before()).At(p), Side(r.After()).At(p))
  {
    hide SortedResourceChanges, ActionClass, Eligible, Summarized, State.At, IsScalar, KindsClash, Listed, Shown,
      ChangeAllowed, ToLower, IsRetirement, Resource.IsReduction, Resource.Before, Resource.After;
    EligiblePlan(rules, review, changes);
    assert KeepsToList(rules, r);
    p := UpdateTouchesOnlyListed(rules.lists(ToLower(r.kind)), ActionText(r), r.Before(), r.After(),
      Field(r.change, "after_unknown"), s);
  }

  // ----- The entries kept in step

  ghost predicate HasRisk(risks: seq<Risk>, id: string, class_: string) {
    exists e :: e in risks && e.id == id && class_ in e.classes
  }

  /** Every write with a fundamental class has a high-risk entry that carries the class. */
  lemma FundamentalWritesAreListed(rules: Rules, rs: seq<Resource>, w: Write, class_: string)
    requires w in FinalWrites(rules, rs) && class_ in w.classes && class_ in FUNDAMENTAL
    ensures HasRisk(FinalRisks(rules, rs), w.id, class_)
  {
    hide *;
    FinalParts(rules, rs);
    var rated := AllRated(rules, rs);
    if Mixed(rules, rs) {
      InSorted(WriteId, DeniedWrites(rated));
      InSorted(RiskId, DeniedRisks(rated));
      var i :| 0 <= i < |rated| && DeniedWrites(rated)[i] == w;
      RatedWriteClasses(rules, rs, i);
      DeniedKeepsClass(rated[i], class_);
      assert DeniedRisks(rated)[i] in DeniedRisks(rated);
      RiskCarries(FinalRisks(rules, rs), DeniedRisks(rated)[i], class_);
    } else {
      InSorted(WriteId, Writes(rated));
      InSorted(RiskId, Risks(rated));
      var i :| 0 <= i < |rated| && Writes(rated)[i] == w;
      RatedWriteClasses(rules, rs, i);
      RisksAreRated(rated, RiskOf(rated[i]));
      RiskOfCarries(rated[i]);
      RiskCarries(FinalRisks(rules, rs), RiskOf(rated[i]), class_);
    }
  }

  lemma RiskCarries(risks: seq<Risk>, e: Risk, class_: string)
    requires e in risks && class_ in e.classes
    ensures HasRisk(risks, e.id, class_)
  {
  }

  lemma RiskOfCarries(x: Rated)
    ensures RiskOf(x).id == x.write.id && RiskOf(x).classes == x.write.classes
  {
  }

  /** A write without reasons is routine. */
  lemma RatedWriteClasses(rules: Rules, rs: seq<Resource>, i: nat)
    requires i < |AllRated(rules, rs)|
    ensures var x := AllRated(rules, rs)[i];
      x.reasons == [] ==> forall c :: c in x.write.classes ==> c !in FUNDAMENTAL
  {
    hide RatedUpTo, Rate, Findings, SortedKeys, ChangeId, ClassesOf;
    var rated := AllRated(rules, rs);
    RatedAreTheWrites(rules, rs, |rs|);
    assert rated[i] in rated;
    var r := rs[rated[i].number - 1];
    RateParts(rules, r, rated[i].number);
    RoutineIsNotDenied(false);
    if rated[i].reasons == [] {
      NoReasonsMeansRoutine(rules, r);
    }
  }

  lemma NoReasonsMeansRoutine(rules: Rules, r: Resource)
    requires SortedKeys(Reasons(rules, r)) == []
    ensures Classes(rules, r) == {"routine_write"}
  {
    hide SortedKeys, Findings;
    assert forall reason :: reason in Reasons(rules, r) ==> reason in SortedKeys(Reasons(rules, r));
  }

  lemma DeniedKeepsClass(x: Rated, class_: string)
    requires class_ in DenyWrite(x.write).classes
    requires x.reasons == [] ==> class_ !in x.write.classes || class_ !in FUNDAMENTAL
    requires class_ in FUNDAMENTAL
    ensures DenyWrite(x.write).id == x.write.id == Denied(x).id && class_ in Denied(x).classes
  {
    hide SortedKeys;
  }

  /** The classes a write ends up with. */
  ghost function FinalClasses(rules: Rules, rs: seq<Resource>, r: Resource): set<string> {
    Classes(rules, r) + (if Mixed(rules, rs) then {AUTHORITY_REPLACEMENT} else {})
  }

  ghost function FinalWrite(rules: Rules, rs: seq<Resource>, k: nat): Write
    requires k < |rs|
  {
    var classes := SortedKeys(FinalClasses(rules, rs, rs[k]));
    Write(ChangeId(k + 1), rs[k].kind, rs[k].actions, WriteClass(classes), classes, ChangedFields(rules, rs[k]))
  }

  /** The writes are exactly the changes that write, each with the classes found for it, and all of them
      denied when governed deletes stand beside other writes. */
  lemma WritesAreTheChanges(rules: Rules, rs: seq<Resource>, w: Write)
    ensures w in FinalWrites(rules, rs) <==>
      exists k :: 0 <= k < |rs| && rs[k].IsWrite() && w == FinalWrite(rules, rs, k)
  {
    hide *;
    FinalParts(rules, rs);
    var rated := AllRated(rules, rs);
    AllRatedAreTheWrites(rules, rs);
    InSorted(WriteId, DeniedWrites(rated));
    InSorted(WriteId, Writes(rated));
    forall i | 0 <= i < |rated|
      ensures 1 <= rated[i].number <= |rs| && rs[rated[i].number - 1].IsWrite()
      ensures (if Mixed(rules, rs) then DenyWrite(rated[i].write) else rated[i].write) ==
        FinalWrite(rules, rs, rated[i].number - 1)
    {
      assert rated[i] in rated;
      IsRatedMeans(rules, rs, rated[i]);
      RateEndsUp(rules, rs, rated[i].number - 1);
    }
    if k :| 0 <= k < |rs| && rs[k].IsWrite() && w == FinalWrite(rules, rs, k) {
      RateIsRated(rules, rs, k);
      var i :| 0 <= i < |rated| && rated[i] == Rate(rules, rs[k], k + 1);
      RateEndsUp(rules, rs, k);
      assert DeniedWrites(rated)[i] == DenyWrite(rated[i].write) && Writes(rated)[i] == rated[i].write;
    }
  }

  /** No change escapes the approver: every changed path of every write has a field of that write at it or
      above it, and one strictly above carries no digests. */
  lemma WritesShowEveryChange(rules: Rules, rs: seq<Resource>, k: nat, p: Path) returns (w: Write, q: Path)
    requires k < |rs| && rs[k].IsWrite()
    requires p in
      Changed(SideOf(rs[k], "before", "before_sensitive").state, SideOf(rs[k], "after", "after_sensitive").state)
    ensures w in FinalWrites(rules, rs) && w.id == ChangeId(k + 1) && q <= p
    ensures exists field :: field in w.fields && field.path == Shown(q) && (q != p ==> field.digests.None?)
  {
    hide *;
    w := FinalWrite(rules, rs, k);
    WritesAreTheChanges(rules, rs, w);
    FinalWriteParts(rules, rs, k);
    q := FieldsShowChange(rules, rs[k], p);
  }

  lemma FinalWriteParts(rules: Rules, rs: seq<Resource>, k: nat)
    requires k < |rs|
    ensures FinalWrite(rules, rs, k).id == ChangeId(k + 1)
    ensures FinalWrite(rules, rs, k).fields == ChangedFields(rules, rs[k])
  {
    hide Classes, FinalClasses, ChangeId, SortedKeys, ChangedFields, WriteClass;
  }

  lemma FieldsShowChange(rules: Rules, r: Resource, p: Path) returns (q: Path)
    requires p in Changed(SideOf(r, "before", "before_sensitive").state, SideOf(r, "after", "after_sensitive").state)
    ensures q <= p
    ensures exists field ::
      field in ChangedFields(rules, r) && field.path == Shown(q) && (q != p ==> field.digests.None?)
  {
    hide View, Changed, Shown, State.At, SortBy, SideOf, ViewPolicy, Join;
    var before, after := SideOf(r, "before", "before_sensitive"), SideOf(r, "after", "after_sensitive");
    var policy, digest := ViewPolicy(rules, r), rules.view.digest(r.kind, Join(r.actions, ","));
    var e := ProjectionOmitsNothing(policy, digest, before, after, rules.view.types(r.kind), p);
    q := e.path;
    assert [] + q == q;
    var field := Published(digest, [], before.state, after.state, e);
    InSorted(FieldPath,
      PublishedAll(digest, [], before.state, after.state, View(policy, before, after, [], rules.view.types(r.kind))));
    assert field in ChangedFields(rules, r) && field.path == Shown(q);
  }

  lemma AllRatedAreTheWrites(rules: Rules, rs: seq<Resource>)
    ensures forall x :: x in AllRated(rules, rs) <==> IsRated(rules, rs, |rs|, x)
  {
    RatedAreTheWrites(rules, rs, |rs|);
  }

  lemma IsRatedMeans(rules: Rules, rs: seq<Resource>, x: Rated)
    requires IsRated(rules, rs, |rs|, x)
    ensures 1 <= x.number <= |rs| && rs[x.number - 1].IsWrite() && x == Rate(rules, rs[x.number - 1], x.number)
  {
    hide Rate, Resource.IsWrite;
  }

  lemma RateIsRated(rules: Rules, rs: seq<Resource>, k: nat)
    requires k < |rs| && rs[k].IsWrite()
    ensures IsRated(rules, rs, |rs|, Rate(rules, rs[k], k + 1))
  {
    hide Rate, Resource.IsWrite;
    RateNumber(rules, rs[k], k + 1);
  }

  lemma RateEndsUp(rules: Rules, rs: seq<Resource>, k: nat)
    requires k < |rs|
    ensures var w := Rate(rules, rs[k], k + 1).write;
      (if Mixed(rules, rs) then DenyWrite(w) else w) == FinalWrite(rules, rs, k)
  {
    hide Classes, Reasons, Mixed, ChangeId, SortedKeys, ChangedFields;
    var classes := SortedKeys(Classes(rules, rs[k]));
    assert Elements(classes) == Classes(rules, rs[k]);
    if Mixed(rules, rs) {
      RoutineIsNotDenied(false);
      var denied := SortedKeys(Classes(rules, rs[k]) + {AUTHORITY_REPLACEMENT});
      assert AUTHORITY_REPLACEMENT in denied;
      DeniedWriteClass(denied);
    } else {
      assert Classes(rules, rs[k]) + {} == Classes(rules, rs[k]);
    }
  }

  lemma DeniedWriteClass(classes: seq<string>)
    requires AUTHORITY_REPLACEMENT in classes
    ensures WriteClass(classes) == "fundamental_deny"
  {
  }

  // ----- Counts and order

  lemma {:induction false} CountsAddUp(actions: seq<Action>)
    ensures var m := multiset(actions);
      m[Create] + m[Update] + m[Delete] + m[Replace] + m[Forget] + m[Read] + m[NoOp] + m[Unknown] == |actions|
  {
    if actions != [] {
      var head, tail := actions[0], actions[1..];
      CountsAddUp(tail);
      assert actions == [head] + tail;
      assert multiset(actions) == multiset{head} + multiset(tail);
      match head {
        case Create => case Update => case Delete => case Replace =>
        case Forget => case Read => case NoOp => case Unknown =>
      }
    }
  }

  /** The action counts are exact, and add up to the number of resource changes. */
  lemma EveryChangeIsCounted(rules: Rules, changes: seq<Json>)
    ensures var counts := Summarized(rules, SortedResourceChanges(changes)).counts;
      && counts.Keys == ALL_ACTIONS
      && counts[Create] + counts[Update] + counts[Delete] + counts[Replace] + counts[Forget] + counts[Read] +
         counts[NoOp] + counts[Unknown] == |changes|
  {
    hide SortedResourceChanges, FinalWrites, FinalRisks, IdsUpTo, SensitiveUpTo, SortBy;
    CountsAddUp(ActionsOf(SortedResourceChanges(changes)));
  }

  /** The summary does not depend on the order of `resource_changes`. */
  lemma SummaryForgetsOrder(rules: Rules, xs: seq<Json>, ys: seq<Json>)
    requires multiset(xs) == multiset(ys)
    ensures Summarized(rules, SortedResourceChanges(xs)) == Summarized(rules, SortedResourceChanges(ys))
  {
    hide *;
    SortedResourceChangesForgetsOrder(xs, ys);
  }
}
