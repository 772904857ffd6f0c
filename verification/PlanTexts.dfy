/** Plans by the text of their JSON: what `resource_changes` says decides counts, removals and the verdict. */
module PlanTexts {
  import opened Wrappers
  import opened Text
  import opened Ordering
  import opened Permutations
  import opened Values
  import opened Canonical
  import opened Pointers
  import opened PlanWalk
  import opened PlanPaths
  import opened ChangeIds
  import opened Unions
  import opened PlanChanges
  import opened PlanSummary
  import opened PlanLedger
  import opened PlanDecision

  // ----- What an entry says

  /** An object under a key, or nothing. */
  function Inner(v: Json, key: string): Json {
    if v.Obj? && key in v.fields then v.fields[key] else Null
  }

  /** The actions of an entry, joined by commas. */
  function ActionsText(raw: Json): string {
    Join(Strings(Inner(Inner(raw, "change"), "actions")), ",")
  }

  function AddressText(raw: Json): string {
    var address := Inner(raw, "address");
    if address.Str? then address.s else ""
  }

  /** The type of an entry: as given, or read off its address. */
  function TypeText(raw: Json): string {
    var kind := Inner(raw, "type");
    if kind.Str? && kind.s != "" then kind.s else KindFromAddress(Split(AddressText(raw), '.'))
  }

  function SideText(raw: Json, side: string): Option<Fields> {
    var v := Inner(Inner(raw, "change"), side);
    if v.Obj? then Some(v.fields) else None
  }

  const REMOVING: set<string> := {"delete", "forget", "delete,create", "create,delete"}
  const IDLE: set<string> := {"no-op", "read"}

  lemma ParsedAction(raw: Json)
    ensures Parse(raw).Action() ==
      var text := ActionsText(raw);
      if text == "no-op" then NoOp
      else if text == "read" then Read
      else if text == "create" then Create
      else if text == "update" then Update
      else if text == "delete" then Delete
      else if text == "forget" then Forget
      else if text == "delete,create" || text == "create,delete" then Replace
      else Action.Unknown
    ensures Parse(raw).IsWrite() <==> ActionsText(raw) !in IDLE
    ensures Parse(raw).Removes() <==> ActionsText(raw) in REMOVING
  {
    hide Join, KindFromAddress;
    var text := ActionsText(raw);
    assert Join(Parse(raw).actions, ",") == text;
  }

  lemma ParsedFields(raw: Json)
    ensures var r := Parse(raw);
      && r.address == AddressText(raw) && r.kind == TypeText(raw)
      && r.Before() == SideText(raw, "before") && r.After() == SideText(raw, "after")
      && forall key :: Field(r.change, key) == Inner(Inner(raw, "change"), key)
  {
    hide KindFromAddress, Split;
  }

  // ----- Counts

  function ActionsTexts(changes: seq<Json>): (r: seq<string>)
    ensures |r| == |changes| && forall i :: 0 <= i < |r| ==> r[i] == ActionsText(changes[i])
  {
    seq(|changes|, i requires 0 <= i < |changes| => ActionsText(changes[i]))
  }

  /** So many entries have this actions text. */
  function Occurs(changes: seq<Json>, text: string): nat {
    multiset(ActionsTexts(changes))[text]
  }

  lemma TextsForgetOrder(xs: seq<Json>, ys: seq<Json>)
    requires multiset(xs) == multiset(ys)
    ensures multiset(ActionsTexts(xs)) == multiset(ActionsTexts(ys))
  {
    hide ActionsText;
    var p := FromMultiset(xs, ys);
    ToMultiset(ActionsTexts(xs), ActionsTexts(ys), p);
  }

  /** The eight counts of the entries read so far. */
  ghost predicate CountsTexts(counts: multiset<Action>, texts: multiset<string>, size: nat) {
    && counts[NoOp] == texts["no-op"] && counts[Read] == texts["read"] && counts[Create] == texts["create"]
    && counts[Update] == texts["update"] && counts[Delete] == texts["delete"] && counts[Forget] == texts["forget"]
    && counts[Replace] == texts["delete,create"] + texts["create,delete"]
    && counts[Action.Unknown] + texts["no-op"] + texts["read"] + texts["create"] + texts["update"] +
       texts["delete"] + texts["forget"] + texts["delete,create"] + texts["create,delete"] == size
  }

  lemma CountOneText(counts: multiset<Action>, texts: multiset<string>, size: nat, raw: Json)
    requires CountsTexts(counts, texts, size)
    ensures CountsTexts(counts + multiset{Parse(raw).Action()}, texts + multiset{ActionsText(raw)}, size + 1)
  {
    hide ActionsText, Parse, Resource.Action;
    ParsedAction(raw);
  }

  lemma {:induction false} ParsedCounts(changes: seq<Json>)
    ensures CountsTexts(multiset(ActionsOf(ParseAll(changes))), multiset(ActionsTexts(changes)), |changes|)
    decreases |changes|
  {
    hide ActionsText, Parse, Resource.Action, CountsTexts;
    if changes == [] {
      NothingCounted();
    } else {
      var front, last := changes[..|changes| - 1], changes[|changes| - 1];
      ParsedCounts(front);
      CountOneText(multiset(ActionsOf(ParseAll(front))), multiset(ActionsTexts(front)), |front|, last);
      assert ActionsOf(ParseAll(changes)) == ActionsOf(ParseAll(front)) + [Parse(last).Action()];
      assert ActionsTexts(changes) == ActionsTexts(front) + [ActionsText(last)];
    }
  }

  lemma NothingCounted()
    ensures CountsTexts(multiset{}, multiset{}, 0)
    ensures multiset(ActionsOf(ParseAll([]))) == multiset{} && multiset(ActionsTexts([])) == multiset{}
  {
  }

  /** Each known action is counted as often as its text occurs among the entries, and everything else is
      counted as unknown. */
  lemma CountsAreOfTexts(rules: Rules, changes: seq<Json>)
    ensures var counts := Summarized(rules, SortedResourceChanges(changes)).counts;
      && counts.Keys == {Create, Update, Delete, Replace, Forget, Read, NoOp, Action.Unknown}
      && counts[NoOp] == Occurs(changes, "no-op") && counts[Read] == Occurs(changes, "read")
      && counts[Create] == Occurs(changes, "create") && counts[Update] == Occurs(changes, "update")
      && counts[Delete] == Occurs(changes, "delete") && counts[Forget] == Occurs(changes, "forget")
      && counts[Replace] == Occurs(changes, "delete,create") + Occurs(changes, "create,delete")
      && counts[Action.Unknown] ==
         |changes| - counts[NoOp] - counts[Read] - counts[Create] - counts[Update] - counts[Delete] -
         counts[Forget] - counts[Replace]
  {
    hide *;
    var sorted := SortBy(RawKey, changes);
    SortByIsSortedPermutation(RawKey, changes);
    SummaryCounts(rules, changes);
    ParsedCounts(sorted);
    TextsForgetOrder(sorted, changes);
    CountsTextsMeans(SortedResourceChanges(changes), changes);
  }

  lemma SummaryCounts(rules: Rules, changes: seq<Json>)
    ensures Summarized(rules, SortedResourceChanges(changes)).counts == CountsOf(SortedResourceChanges(changes))
    ensures SortedResourceChanges(changes) == ParseAll(SortBy(RawKey, changes))
  {
    hide ParseAll, SortBy, RawKey, FinalWrites, FinalRisks, IdsUpTo, SensitiveUpTo, CountsOf;
  }

  lemma CountsTextsMeans(rs: seq<Resource>, changes: seq<Json>)
    requires CountsTexts(multiset(ActionsOf(rs)), multiset(ActionsTexts(changes)), |changes|)
    ensures var counts := CountsOf(rs);
      && counts.Keys == {Create, Update, Delete, Replace, Forget, Read, NoOp, Action.Unknown}
      && counts[NoOp] == Occurs(changes, "no-op") && counts[Read] == Occurs(changes, "read")
      && counts[Create] == Occurs(changes, "create") && counts[Update] == Occurs(changes, "update")
      && counts[Delete] == Occurs(changes, "delete") && counts[Forget] == Occurs(changes, "forget")
      && counts[Replace] == Occurs(changes, "delete,create") + Occurs(changes, "create,delete")
      && counts[Action.Unknown] ==
         |changes| - counts[NoOp] - counts[Read] - counts[Create] - counts[Update] - counts[Delete] -
         counts[Forget] - counts[Replace]
  {
    hide ActionsTexts, ActionsOf;
  }

  // ----- Numbers

  /** The entries in the order in which they are numbered: by address, then by canonical text. */
  ghost predicate IsInOrder(order: seq<Json>, changes: seq<Json>) {
    multiset(order) == multiset(changes) && forall i, j :: 0 <= i < j < |order| ==> Precedes(order[i], order[j])
  }

  ghost predicate Precedes(x: Json, y: Json) {
    Less(AddressText(x), AddressText(y)) ||
    (AddressText(x) == AddressText(y) && Leq(CanonicalText(x), CanonicalText(y)))
  }

  lemma OrderIsSorted(order: seq<Json>, changes: seq<Json>)
    requires IsInOrder(order, changes)
    ensures SortedResourceChanges(changes) == ParseAll(order)
  {
    hide SortBy, CanonicalText, Parse, PairKey;
    forall i, j | 0 <= i < j < |order| ensures Leq(RawKey(order[i]), RawKey(order[j])) {
      assert Precedes(order[i], order[j]);
      PairKeyOrders(AddressOf(order[i]), CanonicalText(order[i]), AddressOf(order[j]), CanonicalText(order[j]));
    }
    SortByIsSortedPermutation(RawKey, changes);
    RawKeyTellsApart(multiset(order));
    SortedArrangementIsUnique(RawKey, order, SortBy(RawKey, changes));
  }

  /** The entries with the given actions texts are listed under their numbers, each once, increasing. */
  ghost predicate ListsTexts(ids: seq<string>, order: seq<Json>, texts: set<string>) {
    Increasing(ids) &&
    forall id :: id in ids <==> exists k: nat :: k < |order| && ActionsText(order[k]) in texts && id == ChangeId(k + 1)
  }

  /** The removals of a summary are the entries whose actions delete, forget or replace, and no others. */
  lemma RemovalsByText(rules: Rules, changes: seq<Json>, order: seq<Json>)
    requires IsInOrder(order, changes)
    ensures var summary := Summarized(rules, SortedResourceChanges(changes));
      && ListsTexts(summary.destructive, order, {"delete", "forget", "delete,create", "create,delete"})
      && ListsTexts(summary.replacements, order, {"delete,create", "create,delete"})
  {
    hide Summarized, SortedResourceChanges, ParseAll, ActionsText, ChangeId, Parse, IsInOrder, Resource.Action,
      Resource.Removes;
    OrderIsSorted(order, changes);
    var rs := ParseAll(order);
    RemovalsAreListed(rules, rs);
    forall k | 0 <= k < |order|
      ensures Removes(rs[k]) <==> ActionsText(order[k]) in REMOVING
      ensures Replaces(rs[k]) <==> ActionsText(order[k]) in {"delete,create", "create,delete"}
    {
      ParsedAction(order[k]);
    }
  }

  // ----- The verdict

  /** The entry revokes access or retires something the catalogue governs. */
  ghost predicate IsGoverned(rules: Rules, raw: Json) {
    ActionsText(raw) == "delete" && (Reduces(raw) || Retires(rules, raw))
  }

  ghost predicate Reduces(raw: Json) {
    ToLower(TypeText(raw)) in
      {"github_membership", "github_team_membership", "github_team_repository", "github_repository_collaborator"}
  }

  ghost predicate Retires(rules: Rules, raw: Json) {
    rules.retirement(ToLower(TypeText(raw)), AddressText(raw))
  }

  /** The classes that deny a plan; the founder bootstrap exempts public visibility. */
  ghost predicate Prohibits(founder: bool, class_: string) {
    (class_ == "public_visibility" && !founder) ||
    class_ in {
      "administrative_grant", "actions_policy_expansion", "destructive", "authority_replacement",
      "direct_collaborator", "environment_bypass", "oidc_mutation", "protection_weakening", "replacement",
      "security_weakening", "state_forget", "unknown_action", "unknown_change"}
  }

  /** The catalogue matchers find nothing that prohibits the entry. */
  ghost predicate CatalogAllows(founder: bool, rules: Rules, raw: Json) {
    forall f :: f in rules.others(Parse(raw)) ==> !Prohibits(founder, f.class_)
  }

  /** A write that a plan may hold: a governed delete, or a create or update within its write list. */
  ghost predicate MayWrite(founder: bool, rules: Rules, raw: Json) {
    var text, kind, change := ActionsText(raw), ToLower(TypeText(raw)), Inner(raw, "change");
    if text in {"create", "update"} then
      kind in rules.managedTypes && CatalogAllows(founder, rules, raw) &&
      ChangeAllowed(
        rules.lists(kind), text, SideText(raw, "before"), SideText(raw, "after"), Inner(change, "after_unknown"))
    else
      IsGoverned(rules, raw) && !rules.authorityUnknown(Inner(change, "after_unknown")) &&
      (Retires(rules, raw) || (kind in rules.managedTypes && CatalogAllows(founder, rules, raw)))
  }

  /** The entry asks for more privilege: it creates something, or the catalogue matchers say so. */
  ghost predicate Expands(rules: Rules, raw: Json) {
    ActionsText(raw) == "create" ||
    (!(ActionsText(raw) == "delete" && Retires(rules, raw)) &&
     exists f :: f in rules.others(Parse(raw)) && f.class_ == "privilege_expansion")
  }

  ghost predicate IsWriting(raw: Json) {
    ActionsText(raw) !in {"no-op", "read"}
  }

  /** What makes a plan eligible. */
  ghost predicate Permitted(rules: Rules, review: Review, changes: seq<Json>) {
    && (forall raw :: raw in changes && IsWriting(raw) ==> MayWrite(review.founder, rules, raw))
    && ((forall raw :: raw in changes && IsWriting(raw) ==> IsGoverned(rules, raw)) ||
        (forall raw :: raw in changes && IsWriting(raw) ==> !IsGoverned(rules, raw)))
    && (review.phase == Adopt ==> forall raw :: raw in changes ==> !IsWriting(raw))
    && ((exists raw :: raw in changes && IsWriting(raw) && Expands(rules, raw)) ==> review.riskAcknowledged)
    && (if exists raw :: raw in changes && ActionsText(raw) in {"delete", "forget", "delete,create", "create,delete"}
        then review.removalAcknowledged && review.analysisVerified
        else !review.removalAcknowledged && !review.analysisVerified)
  }

  lemma ProhibitsIsDenied(founder: bool, class_: string)
    ensures IsDenied(founder, class_) <==> Prohibits(founder, class_)
  {
  }

  lemma GovernedIs(rules: Rules, raw: Json)
    ensures IsGovernedDelete(rules, Parse(raw)) <==> IsGoverned(rules, raw)
    ensures IsRetirement(rules, Parse(raw)) <==> Retires(rules, raw)
    ensures Parse(raw).IsReduction() <==> Reduces(raw)
  {
    hide Parse, ActionsText, TypeText, AddressText, ToLower, Resource.Action;
    ParsedAction(raw);
    ParsedFields(raw);
  }

  // The findings of a change, part by part.

  /** A finding that denies. */
  ghost predicate DeniesIn(founder: bool, findings: set<Finding>) {
    exists f :: f in findings && IsDenied(founder, f.class_)
  }

  ghost predicate ExpandsIn(findings: set<Finding>) {
    exists f :: f in findings && f.class_ == "privilege_expansion"
  }

  lemma DeniesByFinding(founder: bool, rules: Rules, r: Resource)
    ensures (exists c :: c in Classes(rules, r) && IsDenied(founder, c)) <==> DeniesIn(founder, Findings(rules, r))
    ensures "privilege_expansion" in Classes(rules, r) <==> ExpandsIn(Findings(rules, r))
  {
    hide Findings, IsDenied;
    RoutineIsNotDenied(founder);
  }

  lemma PartsDecide(founder: bool, xs: set<Finding>, ys: set<Finding>)
    ensures DeniesIn(founder, xs + ys) <==> DeniesIn(founder, xs) || DeniesIn(founder, ys)
    ensures ExpandsIn(xs + ys) <==> ExpandsIn(xs) || ExpandsIn(ys)
  {
    hide IsDenied;
    if DeniesIn(founder, xs) {
      var f :| f in xs && IsDenied(founder, f.class_);
      assert f in xs + ys;
    }
    if DeniesIn(founder, ys) {
      var f :| f in ys && IsDenied(founder, f.class_);
      assert f in xs + ys;
    }
    if ExpandsIn(xs) {
      var f :| f in xs && f.class_ == "privilege_expansion";
      assert f in xs + ys;
    }
    if ExpandsIn(ys) {
      var f :| f in ys && f.class_ == "privilege_expansion";
      assert f in xs + ys;
    }
  }

  lemma OneDecides(founder: bool, f: Finding)
    ensures DeniesIn(founder, {f}) <==> IsDenied(founder, f.class_)
    ensures ExpandsIn({f}) <==> f.class_ == "privilege_expansion"
    ensures !DeniesIn(founder, {}) && !ExpandsIn({})
  {
    hide IsDenied;
    assert f in {f};
  }

  lemma FixedClasses(founder: bool)
    ensures IsDenied(founder, UNRECOGNIZED.class_) && IsDenied(founder, DELETION.class_)
    ensures IsDenied(founder, REPLACEMENT.class_) && IsDenied(founder, FORGETTING.class_)
    ensures IsDenied(founder, UNKNOWN_AUTHORITY.class_) && IsDenied(founder, UNMANAGED_TYPE.class_)
    ensures IsDenied(founder, UNLISTED_FIELD.class_)
    ensures !IsDenied(founder, REDUCTION.class_) && !IsDenied(founder, GOVERNED_RETIREMENT.class_)
    ensures !IsDenied(founder, CREATION.class_) && CREATION.class_ == "privilege_expansion"
    ensures "privilege_expansion" !in {
        UNRECOGNIZED.class_, DELETION.class_, REPLACEMENT.class_, FORGETTING.class_, UNKNOWN_AUTHORITY.class_,
        UNMANAGED_TYPE.class_, UNLISTED_FIELD.class_, REDUCTION.class_, GOVERNED_RETIREMENT.class_}
  {
  }

  /** The action itself denies everything but a governed delete, a create and an update. */
  lemma ActionDecides(founder: bool, rules: Rules, r: Resource)
    requires r.IsWrite()
    ensures DeniesIn(founder, ActionFindings(rules, r)) <==> !Sets(r) && !IsGovernedDelete(rules, r)
    ensures ExpandsIn(ActionFindings(rules, r)) <==> r.Action() == Create
  {
    hide IsDenied, DeniesIn, ExpandsIn, ActionClass, ToLower, IsRetirement, Resource.IsReduction;
    FixedClasses(founder);
    OneDecides(founder, UNRECOGNIZED);
    OneDecides(founder, REDUCTION);
    OneDecides(founder, GOVERNED_RETIREMENT);
    OneDecides(founder, DELETION);
    OneDecides(founder, REPLACEMENT);
    OneDecides(founder, FORGETTING);
    OneDecides(founder, CREATION);
  }

  /** A write that its findings do not deny. */
  ghost predicate Undenied(founder: bool, rules: Rules, r: Resource) {
    if Sets(r) then
      ToLower(r.kind) in rules.managedTypes && KeepsToList(rules, r) && !DeniesIn(founder, rules.others(r))
    else
      IsGovernedDelete(rules, r) && !rules.authorityUnknown(Field(r.change, "after_unknown")) &&
      (IsRetirement(rules, r) || (ToLower(r.kind) in rules.managedTypes && !DeniesIn(founder, rules.others(r))))
  }

  lemma FindingsDecide(founder: bool, rules: Rules, r: Resource)
    requires r.IsWrite()
    ensures DeniesIn(founder, Findings(rules, r)) <==> !Undenied(founder, rules, r)
    ensures ExpandsIn(Findings(rules, r)) <==>
      r.Action() == Create || (!(r.Action() == Delete && IsRetirement(rules, r)) && ExpandsIn(rules.others(r)))
  {
    hide IsDenied, DeniesIn, ExpandsIn, ActionClass, ToLower, IsRetirement, Resource.IsReduction, KeepsToList,
      ActionFindings;
    FixedClasses(founder);
    OneDecides(founder, UNKNOWN_AUTHORITY);
    OneDecides(founder, UNMANAGED_TYPE);
    OneDecides(founder, UNLISTED_FIELD);
    ActionDecides(founder, rules, r);
    var action, authority := ActionFindings(rules, r),
      if !Sets(r) && rules.authorityUnknown(Field(r.change, "after_unknown")) then {UNKNOWN_AUTHORITY} else {};
    var managed := if ToLower(r.kind) !in rules.managedTypes then {UNMANAGED_TYPE} else {};
    var listed := if Sets(r) && !KeepsToList(rules, r) then {UNLISTED_FIELD} else {};
    PartsDecide(founder, action, authority);
    PartsDecide(founder, managed, listed);
    PartsDecide(founder, managed + listed, rules.others(r));
    PartsDecide(founder, action + authority,
      if r.Action() == Delete && IsRetirement(rules, r) then {} else managed + listed + rules.others(r));
  }

  /** What the findings decide, by the text of the entry. */
  lemma FindingsByText(founder: bool, rules: Rules, raw: Json)
    requires IsWriting(raw)
    ensures Undenied(founder, rules, Parse(raw)) <==> MayWrite(founder, rules, raw)
    ensures
      Parse(raw).Action() == Create ||
      (!(Parse(raw).Action() == Delete && IsRetirement(rules, Parse(raw))) && ExpandsIn(rules.others(Parse(raw)))) <==>
      Expands(rules, raw)
  {
    hide Parse, ActionsText, TypeText, AddressText, ToLower, Resource.Action, IsDenied, Prohibits, IsRetirement,
      IsGovernedDelete, IsGoverned, ChangeAllowed, Inner, SideText, Retires, Resource.Before, Resource.After;
    forall class_ ensures IsDenied(founder, class_) <==> Prohibits(founder, class_) {
      ProhibitsIsDenied(founder, class_);
    }
    ParsedAction(raw);
    ParsedFields(raw);
    GovernedIs(rules, raw);
  }

  /** A write that asks for more privilege. */
  ghost predicate ExpandsChange(rules: Rules, r: Resource) {
    r.IsWrite() && "privilege_expansion" in Classes(rules, r)
  }

  /** The high-risk entries of an unmixed plan ask for more privilege exactly when some write does. */
  lemma ExpandsExactly(rules: Rules, rs: seq<Resource>)
    requires !Mixed(rules, rs)
    ensures ExpandsPrivilege(FinalRisks(rules, rs)) <==> exists r :: r in rs && ExpandsChange(rules, r)
  {
    hide *;
    FinalParts(rules, rs);
    InSorted(RiskId, Risks(AllRated(rules, rs)));
    SameRisksExpand(SortBy(RiskId, Risks(AllRated(rules, rs))), Risks(AllRated(rules, rs)));
    RatedExpandExactly(rules, rs);
  }

  lemma SameRisksExpand(xs: seq<Risk>, ys: seq<Risk>)
    requires forall r :: r in xs <==> r in ys
    ensures ExpandsPrivilege(xs) <==> ExpandsPrivilege(ys)
  {
  }

  lemma ExpandingHasReasons(rules: Rules, r: Resource)
    ensures "privilege_expansion" in Classes(rules, r) ==> SortedKeys(Reasons(rules, r)) != []
    ensures "privilege_expansion" in SortedKeys(Classes(rules, r)) <==> "privilege_expansion" in Classes(rules, r)
  {
    hide Findings, SortedKeys, ClassesOf, ReasonsOf;
    if "privilege_expansion" in Classes(rules, r) {
      var some :| some in Reasons(rules, r);
      assert some in SortedKeys(Reasons(rules, r));
    }
  }

  lemma RatedExpandExactly(rules: Rules, rs: seq<Resource>)
    ensures ExpandsPrivilege(Risks(AllRated(rules, rs))) <==> exists r :: r in rs && ExpandsChange(rules, r)
  {
    hide ActionClass, RatedUpTo, Risks, Rate, Classes, Reasons, SortedKeys, ChangeId, Resource.IsWrite;
    var rated := AllRated(rules, rs);
    RatedAreTheWrites(rules, rs, |rs|);
    if risk :| risk in Risks(rated) && "privilege_expansion" in risk.classes {
      RisksAreRated(rated, risk);
      var i :| 0 <= i < |rated| && rated[i].reasons != [] && risk == RiskOf(rated[i]);
      assert rated[i] in rated;
      var r := rs[rated[i].number - 1];
      RateParts(rules, r, rated[i].number);
      ExpandingHasReasons(rules, r);
      assert r in rs && ExpandsChange(rules, r);
    }
    if r :| r in rs && ExpandsChange(rules, r) {
      var k :| 0 <= k < |rs| && rs[k] == r;
      var x := Rate(rules, r, k + 1);
      RateParts(rules, r, k + 1);
      ExpandingHasReasons(rules, r);
      assert IsRated(rules, rs, |rs|, x);
      var i :| 0 <= i < |rated| && rated[i] == x;
      RisksAreRated(rated, RiskOf(x));
      assert RiskOf(x) in Risks(rated);
    }
  }

  lemma WritesExactly(rules: Rules, rs: seq<Resource>)
    ensures FinalWrites(rules, rs) == [] <==> forall r :: r in rs ==> !r.IsWrite()
  {
    hide FinalWrites, FinalWrite, Resource.IsWrite;
    if FinalWrites(rules, rs) == [] {
      NoWritesMeans(rules, rs);
    } else {
      var w := FinalWrites(rules, rs)[0];
      WritesAreTheChanges(rules, rs, w);
      var k :| 0 <= k < |rs| && rs[k].IsWrite() && w == FinalWrite(rules, rs, k);
      assert rs[k] in rs;
    }
  }

  lemma RemovesExactly(rules: Rules, rs: seq<Resource>)
    ensures Summarized(rules, rs).destructive != [] <==> exists r :: r in rs && r.Removes()
  {
    hide Summarized, Resource.Removes, ChangeId;
    RemovalsAreListed(rules, rs);
    var ids := Summarized(rules, rs).destructive;
    if ids != [] {
      assert ids[0] in ids;
      var k :| 0 <= k < |rs| && Removes(rs[k]) && ids[0] == ChangeId(k + 1);
      assert rs[k] in rs && rs[k].Removes();
    }
    if r :| r in rs && r.Removes() {
      var k :| 0 <= k < |rs| && rs[k] == r;
      assert Removes(rs[k]);
      assert ChangeId(k + 1) in ids;
    }
  }

  /** What makes the summary of the sorted changes eligible. */
  ghost predicate PermittedChanges(rules: Rules, review: Review, rs: seq<Resource>) {
    && !Mixed(rules, rs)
    && (forall r :: r in rs && r.IsWrite() ==> !DeniesChange(review.founder, rules, r))
    && (review.phase == Adopt ==> forall r :: r in rs ==> !r.IsWrite())
    && ((exists r :: r in rs && ExpandsChange(rules, r)) ==> review.riskAcknowledged)
    && (if exists r :: r in rs && r.Removes()
        then review.removalAcknowledged && review.analysisVerified
        else !review.removalAcknowledged && !review.analysisVerified)
  }

  lemma EligibleChanges(rules: Rules, review: Review, rs: seq<Resource>)
    ensures Eligible(review, Summarized(rules, rs)) <==> PermittedChanges(rules, review, rs)
  {
    hide Mixed, DeniesRisks, ExpandsPrivilege, FinalWrites, FinalRisks, IdsUpTo, SortBy, CountsOf, SensitiveUpTo,
      Resource.IsWrite, Resource.Removes, ExpandsChange, Classes, IsDenied;
    DeniedExactly(review.founder, rules, rs);
    if !Mixed(rules, rs) {
      ExpandsExactly(rules, rs);
    }
    WritesExactly(rules, rs);
    RemovesExactly(rules, rs);
  }

  /** The verdict by the text of the plan: a plan is eligible exactly when every entry that writes may be
      written, governed deletes stand alone, adoption writes nothing, expansions are acknowledged, and removals
      are acknowledged and analysed, while nothing is acknowledged idly. */
  lemma EligibleExactly(rules: Rules, review: Review, changes: seq<Json>)
    ensures Eligible(review, Summarized(rules, SortedResourceChanges(changes))) <==>
      Permitted(rules, review, changes)
  {
    hide *;
    var rs := SortedResourceChanges(changes);
    EligibleChanges(rules, review, rs);
    forall r ensures r in rs <==> exists raw :: raw in changes && r == Parse(raw) {
      SortedResourceChangesHolds(changes, r);
    }
    forall raw
      ensures Parse(raw).IsWrite() <==> IsWriting(raw)
      ensures Parse(raw).Removes() <==>
        ActionsText(raw) in {"delete", "forget", "delete,create", "create,delete"}
      ensures IsGovernedDelete(rules, Parse(raw)) <==> IsGoverned(rules, raw)
      ensures IsGoverned(rules, raw) ==> IsWriting(raw)
      ensures IsWriting(raw) ==>
        (DeniesChange(review.founder, rules, Parse(raw)) <==> !MayWrite(review.founder, rules, raw))
      ensures ExpandsChange(rules, Parse(raw)) <==> IsWriting(raw) && Expands(rules, raw)
    {
      EntryDecides(review.founder, rules, raw);
      GovernedWrites(rules, raw);
    }
    EntriesDecide(rules, review, rs, changes);
  }

  /** What an entry contributes to the verdict. */
  lemma EntryDecides(founder: bool, rules: Rules, raw: Json)
    ensures Parse(raw).IsWrite() <==> IsWriting(raw)
    ensures Parse(raw).Removes() <==> ActionsText(raw) in {"delete", "forget", "delete,create", "create,delete"}
    ensures IsGovernedDelete(rules, Parse(raw)) <==> IsGoverned(rules, raw)
    ensures IsWriting(raw) ==> (DeniesChange(founder, rules, Parse(raw)) <==> !MayWrite(founder, rules, raw))
    ensures ExpandsChange(rules, Parse(raw)) <==> IsWriting(raw) && Expands(rules, raw)
  {
    hide Parse, ActionsText, Resource.IsWrite, Resource.Removes, IsGovernedDelete, IsGoverned, MayWrite, Expands,
      Undenied, Findings, IsDenied, Classes, DeniesIn, ExpandsIn;
    ParsedAction(raw);
    GovernedIs(rules, raw);
    DeniesByFinding(founder, rules, Parse(raw));
    if IsWriting(raw) {
      FindingsDecide(founder, rules, Parse(raw));
      FindingsByText(founder, rules, raw);
    }
  }

  lemma GovernedWrites(rules: Rules, raw: Json)
    ensures IsGoverned(rules, raw) ==> IsWriting(raw)
  {
    hide ActionsText, Reduces, Retires;
  }

  lemma EntriesDecide(rules: Rules, review: Review, rs: seq<Resource>, changes: seq<Json>)
    requires forall r :: r in rs <==> exists raw :: raw in changes && r == Parse(raw)
    requires forall raw :: Parse(raw).IsWrite() <==> IsWriting(raw)
    requires forall raw ::
      Parse(raw).Removes() <==> ActionsText(raw) in {"delete", "forget", "delete,create", "create,delete"}
    requires forall raw :: IsGovernedDelete(rules, Parse(raw)) <==> IsGoverned(rules, raw)
    requires forall raw :: IsGoverned(rules, raw) ==> IsWriting(raw)
    requires forall raw :: IsWriting(raw) ==>
      (DeniesChange(review.founder, rules, Parse(raw)) <==> !MayWrite(review.founder, rules, raw))
    requires forall raw :: ExpandsChange(rules, Parse(raw)) <==> IsWriting(raw) && Expands(rules, raw)
    ensures PermittedChanges(rules, review, rs) <==> Permitted(rules, review, changes)
  {
    hide Parse, ActionsText, Resource.IsWrite, Resource.Removes, IsGovernedDelete, IsGoverned, MayWrite, Expands,
      DeniesChange, ExpandsChange, IsWriting;
    assert forall raw :: raw in changes ==> Parse(raw) in rs;
    if PermittedChanges(rules, review, rs) {
      assert Permitted(rules, review, changes);
    }
    if Permitted(rules, review, changes) {
      assert PermittedChanges(rules, review, rs);
    }
  }

  /** An eligible plan only reads, creates, updates and deletes; what it creates is acknowledged; and adoption
      does nothing at all. */
  lemma EligibleTexts(rules: Rules, review: Review, changes: seq<Json>)
    requires Eligible(review, Summarized(rules, SortedResourceChanges(changes)))
    ensures forall raw :: raw in changes ==> ActionsText(raw) in {"no-op", "read", "create", "update", "delete"}
    ensures (exists raw :: raw in changes && ActionsText(raw) == "create") ==> review.riskAcknowledged
    ensures review.phase == Adopt ==> forall raw :: raw in changes ==> ActionsText(raw) in {"no-op", "read"}
  {
    hide Eligible, Summarized, SortedResourceChanges, ActionsText, Reduces, Retires, CatalogAllows, ChangeAllowed;
    EligibleExactly(rules, review, changes);
    if raw :| raw in changes && ActionsText(raw) == "create" {
      assert IsWriting(raw) && Expands(rules, raw);
    }
  }

  /** From the verdict down to single values: an update in an eligible plan changes a scalar only at a path that
      its type lists, or below a listed position whose container kind changed. */
  lemma EligibleUpdateByText(rules: Rules, review: Review, changes: seq<Json>, raw: Json, s: Path) returns (p: Path)
    requires Eligible(review, Summarized(rules, SortedResourceChanges(changes)))
    requires raw in changes && ActionsText(raw) == "update"
    requires Side(SideText(raw, "before")).At(s) != Side(SideText(raw, "after")).At(s)
    requires IsScalar(Side(SideText(raw, "before")).At(s)) || IsScalar(Side(SideText(raw, "after")).At(s))
    ensures p <= s && Listed(rules.lists(ToLower(TypeText(raw))), Shown(p))
    ensures p != s ==> KindsClash(Side(SideText(raw, "before")).At(p), Side(SideText(raw, "after")).At(p))
  {
    hide Eligible, Summarized, SortedResourceChanges, ActionsText, CatalogAllows, ChangeAllowed, SideText, TypeText,
      State.At, IsScalar, KindsClash, Listed, Shown, Inner;
    EligibleExactly(rules, review, changes);
    assert IsWriting(raw) && MayWrite(review.founder, rules, raw);
    p := UpdateTouchesOnlyListed(rules.lists(ToLower(TypeText(raw))), ActionsText(raw),
      SideText(raw, "before"), SideText(raw, "after"), Inner(Inner(raw, "change"), "after_unknown"), s);
  }
}
