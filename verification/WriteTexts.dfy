/** What a summary says of each entry that writes, by the text of the entry. */
module WriteTexts {
  import opened Wrappers
  import opened Text
  import opened Ordering
  import opened Values
  import opened Pointers
  import opened PlanWalk
  import opened PlanPaths
  import opened PlanView
  import opened ChangeIds
  import opened Unions
  import opened PlanChanges
  import opened PlanSummary
  import opened PlanLedger
  import opened PlanDecision
  import opened PlanTexts

  // ----- Findings

  /** What the classifier finds in an entry, with its reason. */
  ghost predicate Finds(rules: Rules, raw: Json, class_: string, reason: string) {
    reason != "" &&
    (FindsAction(rules, raw, class_, reason) || FindsUnknown(rules, raw, class_, reason) ||
     (!(ActionsText(raw) == "delete" && Retires(rules, raw)) && FindsContent(rules, raw, class_, reason)))
  }

  lemma FoundHasReason(rules: Rules, raw: Json, class_: string, reason: string)
    requires Finds(rules, raw, class_, reason)
    ensures reason != ""
  {
    hide FindsAction, FindsUnknown, FindsContent, ActionsText, Retires;
  }

  /** What the markers of unknown values show. */
  ghost predicate FindsUnknown(rules: Rules, raw: Json, class_: string, reason: string) {
    && ActionsText(raw) !in {"create", "update"}
    && rules.authorityUnknown(Inner(Inner(raw, "change"), "after_unknown"))
    && class_ == "unknown_change"
    && reason == "one or more security- or authority-relevant post-change values are unknown"
  }

  /** What the actions text shows by itself. */
  ghost predicate FindsAction(rules: Rules, raw: Json, class_: string, reason: string) {
    var text := ActionsText(raw);
    || (text !in {
          "no-op", "read", "create", "update", "delete", "forget", "delete,create", "create,delete"} &&
        class_ == "unknown_action" && reason == "Terraform/OpenTofu emitted an unrecognized action sequence")
    || (text == "delete" && Reduces(raw) && class_ == "permission_reduction" &&
        reason == "access authority is revoked")
    || (text == "delete" && !Reduces(raw) && Retires(rules, raw) && class_ == "governed_retirement" &&
        reason == "catalog retirement requires exact-plan acknowledgement and complete dependency analysis")
    || (text == "delete" && !Reduces(raw) && !Retires(rules, raw) && class_ == "destructive" &&
        reason == "resource deletion is prohibited")
    || (text in {"delete,create", "create,delete"} && class_ == "replacement" &&
        reason == "resource replacement includes deletion")
    || (text == "forget" && class_ == "state_forget" && reason == "resource removal from state is prohibited")
    || (text == "create" && class_ == "privilege_expansion" &&
        reason == "resource creation expands the managed authority surface")
  }

  /** What the type, the changed fields and the catalogue show. */
  ghost predicate FindsContent(rules: Rules, raw: Json, class_: string, reason: string) {
    var text, kind, change := ActionsText(raw), ToLower(TypeText(raw)), Inner(raw, "change");
    || (kind !in rules.managedTypes && class_ == "unknown_change" &&
        reason == "resource type is outside the reviewed governance write allowlist")
    || (text in {"create", "update"} &&
        !ChangeAllowed(
          rules.lists(kind), text, SideText(raw, "before"), SideText(raw, "after"), Inner(change, "after_unknown")) &&
        class_ == "unknown_change" &&
        reason == "one or more changed provider fields are outside the exact catalog-managed write contract")
    || (exists f :: f in rules.others(Parse(raw)) && f.class_ == class_ && f.reason == reason)
  }

  lemma ActionFound(rules: Rules, raw: Json, f: Finding)
    ensures f in ActionFindings(rules, Parse(raw)) <==> FindsAction(rules, raw, f.class_, f.reason)
  {
    hide Parse, ActionsText, Retires, Reduces, IsRetirement, Resource.IsReduction, Resource.Action;
    ParsedAction(raw);
    GovernedIs(rules, raw);
  }

  lemma ContentFound(rules: Rules, raw: Json, f: Finding)
    ensures var r := Parse(raw);
      f in (if ToLower(r.kind) !in rules.managedTypes then {UNMANAGED_TYPE} else {}) +
           (if Sets(r) && !KeepsToList(rules, r) then {UNLISTED_FIELD} else {}) + rules.others(r) <==>
      FindsContent(rules, raw, f.class_, f.reason)
  {
    hide Parse, ActionsText, TypeText, ToLower, SideText, Inner, ChangeAllowed, Resource.Action, Resource.Before,
      Resource.After;
    ParsedAction(raw);
    ParsedFields(raw);
  }

  /** The findings of an entry are exactly what its text shows. */
  lemma FoundExactly(rules: Rules, raw: Json, f: Finding)
    ensures f in Findings(rules, Parse(raw)) <==> Finds(rules, raw, f.class_, f.reason)
  {
    hide Parse, ActionsText, Inner, Retires, Reduces, IsRetirement, KeepsToList, ToLower, FindsAction, FindsContent,
      ActionFindings, Resource.Action;
    ActionFound(rules, raw, f);
    ContentFound(rules, raw, f);
    ParsedAction(raw);
    ParsedFields(raw);
    GovernedIs(rules, raw);
  }

  // ----- Published fields

  function StateText(raw: Json, side: string): State {
    var v := Inner(Inner(raw, "change"), side);
    if v == Null then Absent else Present(v)
  }

  /** A position of an entry is secret: by a marker of either side, by the rules for its path and its last key, or
      by the type of the whole resource. */
  ghost predicate SecretText(rules: Rules, raw: Json, q: Path) {
    || (exists r :: MarkedAbove(Inner(Inner(raw, "change"), "before_sensitive"), q, r))
    || (exists r :: MarkedAbove(Inner(Inner(raw, "change"), "after_sensitive"), q, r))
    || rules.view.paths(TypeText(raw), EncodePath(q))
    || (if q == [] then rules.view.types(TypeText(raw))
        else q[|q| - 1].Key? && rules.view.names(q[|q| - 1].name))
  }

  /** A field shows a changed position of an entry: nothing of a secret one, nothing below a secret one, and
      otherwise digests of what stood and what will stand there. */
  ghost predicate FieldShows(rules: Rules, raw: Json, field: FieldView, q: Path) {
    var before, after := StateText(raw, "before").At(q), StateText(raw, "after").At(q);
    var digest := rules.view.digest(TypeText(raw), ActionsText(raw));
    && field.path == Shown(q) && before != after
    && (forall r :: r <= q && r != q ==> !SecretText(rules, raw, r))
    && if SecretText(rules, raw, q) then field.sensitive && field.digests == None
       else
         !field.sensitive &&
         field.digests == Some((digest(Shown(q), "before", before), digest(Shown(q), "after", after)))
  }

  lemma ParsedSides(rules: Rules, raw: Json)
    ensures var r := Parse(raw);
      && SideOf(r, "before", "before_sensitive") ==
           Marked(StateText(raw, "before"), Inner(Inner(raw, "change"), "before_sensitive"))
      && SideOf(r, "after", "after_sensitive") ==
           Marked(StateText(raw, "after"), Inner(Inner(raw, "change"), "after_sensitive"))
      && rules.view.digest(r.kind, Join(r.actions, ",")) == rules.view.digest(TypeText(raw), ActionsText(raw))
      && rules.view.types(r.kind) == rules.view.types(TypeText(raw))
  {
    hide TypeText, Join;
    ParsedFields(raw);
    assert Parse(raw).actions == Strings(Inner(Inner(raw, "change"), "actions"));
  }

  lemma ParsedSecret(rules: Rules, raw: Json, q: Path)
    ensures var r := Parse(raw);
      IsSecret(ViewPolicy(rules, r), SideOf(r, "before", "before_sensitive"), SideOf(r, "after", "after_sensitive"),
        rules.view.types(r.kind), q) <==>
      SecretText(rules, raw, q)
  {
    hide Parse, TypeText, ActionsText, EncodePath, MarkedAbove, SideOf, StateText;
    ParsedFields(raw);
    ParsedSides(rules, raw);
  }

  /** Every field published for an entry shows one changed position of it. */
  lemma FieldsByText(rules: Rules, raw: Json, field: FieldView) returns (q: Path)
    requires field in ChangedFields(rules, Parse(raw))
    ensures FieldShows(rules, raw, field, q)
  {
    hide Parse, TypeText, ActionsText, SideOf, StateText, IsSecret, SecretText, Shown, Projection, ViewPolicy, State.At;
    var r := Parse(raw);
    var policy, before, after := ViewPolicy(rules, r), SideOf(r, "before", "before_sensitive"),
      SideOf(r, "after", "after_sensitive");
    q := FieldsShow(policy, rules.view.digest(r.kind, Join(r.actions, ",")), before, after,
      rules.view.types(r.kind), field);
    ParsedSides(rules, raw);
    forall p
      ensures IsSecret(policy, before, after, rules.view.types(r.kind), p) <==> SecretText(rules, raw, p)
    {
      ParsedSecret(rules, raw, p);
    }
  }

  // ----- Writes

  ghost predicate HasClass(rules: Rules, raw: Json, class_: string) {
    exists reason :: Finds(rules, raw, class_, reason)
  }

  ghost predicate HasReason(rules: Rules, raw: Json, reason: string) {
    exists class_ :: Finds(rules, raw, class_, reason)
  }

  /** Governed deletes stand beside other writes. */
  ghost predicate MixesDeletes(rules: Rules, changes: seq<Json>) {
    (exists raw :: raw in changes && IsGoverned(rules, raw)) &&
    (exists raw :: raw in changes && IsWriting(raw) && !IsGoverned(rules, raw))
  }

  /** What a write shows of its entry: type, actions, the classes found, or routine when nothing is, with the
      denial of a mixed plan, the grade of the classes, and every change. */
  ghost predicate WriteShows(rules: Rules, raw: Json, mixed: bool, w: Write) {
    && w.kind == TypeText(raw) && w.actions == Strings(Inner(Inner(raw, "change"), "actions"))
    && Increasing(w.classes)
    && (forall c :: c in w.classes <==>
          HasClass(rules, raw, c) || (mixed && c == "authority_replacement") ||
          (c == "routine_write" && forall other :: !HasClass(rules, raw, other)))
    && w.changeClass == Grade(w.classes)
    && (forall field :: field in w.fields ==> exists q :: FieldShows(rules, raw, field, q))
    && (forall p :: p in Changed(StateText(raw, "before"), StateText(raw, "after")) ==> ShownIn(w.fields, p))
  }

  /** A change is published at its own path, or above it without digests. */
  ghost predicate ShownIn(fields: seq<FieldView>, p: Path) {
    exists q, field :: q <= p && field in fields && field.path == Shown(q) && (q != p ==> field.digests == None)
  }

  ghost function Grade(classes: seq<string>): string {
    if exists c :: c in classes && Prohibits(false, c) then "fundamental_deny"
    else if "privilege_expansion" in classes then "privilege_expansion"
    else "routine_write"
  }

  lemma GradeExactly(classes: seq<string>)
    ensures WriteClass(classes) == Grade(classes)
  {
    hide IsDenied;
    forall c ensures c in FUNDAMENTAL <==> Prohibits(false, c) {
      ProhibitsIsDenied(false, c);
      DeniedWithoutFounder(c);
    }
    if c :| c in classes && Prohibits(false, c) {
      var i :| 0 <= i < |classes| && classes[i] == c;
    }
  }

  lemma DeniedWithoutFounder(c: string)
    ensures IsDenied(false, c) <==> c in FUNDAMENTAL
  {
  }

  lemma ClassesByText(rules: Rules, raw: Json, c: string)
    ensures c in Classes(rules, Parse(raw)) <==>
      HasClass(rules, raw, c) || (c == "routine_write" && forall other :: !HasClass(rules, raw, other))
  {
    hide Findings, Finds, Parse;
    var findings := Findings(rules, Parse(raw));
    forall f: Finding ensures f in findings <==> Finds(rules, raw, f.class_, f.reason) {
      FoundExactly(rules, raw, f);
    }
    forall class_, reason | Finds(rules, raw, class_, reason) ensures RawFinding(class_, reason) in findings {
      FoundHasReason(rules, raw, class_, reason);
      var f: Finding := RawFinding(class_, reason);
      assert f in findings;
    }
    if findings != {} {
      var f :| f in findings;
      assert HasClass(rules, raw, f.class_);
    }
  }

  // ----- All writes of a summary

  lemma MixedByText(rules: Rules, changes: seq<Json>)
    ensures Mixed(rules, SortedResourceChanges(changes)) <==> MixesDeletes(rules, changes)
  {
    hide SortedResourceChanges, Parse, Resource.IsWrite, IsGovernedDelete, IsGoverned, IsWriting;
    var rs := SortedResourceChanges(changes);
    forall r ensures r in rs <==> exists raw :: raw in changes && r == Parse(raw) {
      SortedResourceChangesHolds(changes, r);
    }
    forall raw
      ensures IsGovernedDelete(rules, Parse(raw)) <==> IsGoverned(rules, raw)
      ensures Parse(raw).IsWrite() <==> IsWriting(raw)
    {
      GovernedIs(rules, raw);
      ParsedWrites(raw);
    }
    assert forall raw :: raw in changes ==> Parse(raw) in rs;
  }

  lemma ParsedWrites(raw: Json)
    ensures Parse(raw).IsWrite() <==> IsWriting(raw)
    ensures Parse(raw).actions == Strings(Inner(Inner(raw, "change"), "actions"))
  {
    hide ActionsText, Resource.IsWrite;
    ParsedAction(raw);
  }

  lemma ParsedChanges(rules: Rules, raw: Json, p: Path)
    requires p in Changed(StateText(raw, "before"), StateText(raw, "after"))
    ensures ShownIn(ChangedFields(rules, Parse(raw)), p)
  {
    hide Parse, SideOf, StateText, ChangedFields, Shown, Changed;
    ParsedSides(rules, raw);
    var q := FieldsShowChange(rules, Parse(raw), p);
  }

  /** A write of the summary shows its entry. */
  lemma WriteShowsEntry(rules: Rules, changes: seq<Json>, order: seq<Json>, k: nat)
    requires IsInOrder(order, changes) && k < |order| && IsWriting(order[k])
    ensures var rs := SortedResourceChanges(changes);
      k < |rs| && rs[k].IsWrite() && FinalWrite(rules, rs, k).id == ChangeId(k + 1) &&
      WriteShows(rules, order[k], MixesDeletes(rules, changes), FinalWrite(rules, rs, k))
  {
    hide *;
    var rs, raw := SortedResourceChanges(changes), order[k];
    OrderIsSorted(order, changes);
    assert rs[k] == Parse(raw);
    MixedByText(rules, changes);
    ParsedWrites(raw);
    ParsedFields(raw);
    FinalWriteParts(rules, rs, k);
    FinalWriteClasses(rules, rs, k);
    var w := FinalWrite(rules, rs, k);
    GradeExactly(w.classes);
    forall c ensures c in Classes(rules, rs[k]) <==>
      HasClass(rules, raw, c) || (c == "routine_write" && forall other :: !HasClass(rules, raw, other))
    {
      ClassesByText(rules, raw, c);
    }
    forall field | field in w.fields ensures exists q :: FieldShows(rules, raw, field, q) {
      var q := FieldsByText(rules, raw, field);
    }
    forall p | p in Changed(StateText(raw, "before"), StateText(raw, "after")) ensures ShownIn(w.fields, p) {
      ParsedChanges(rules, raw, p);
    }
    WriteShowsParts(rules, raw, MixesDeletes(rules, changes), w);
  }

  lemma WriteShowsParts(rules: Rules, raw: Json, mixed: bool, w: Write)
    requires w.kind == TypeText(raw) && w.actions == Strings(Inner(Inner(raw, "change"), "actions"))
    requires Increasing(w.classes)
    requires forall c :: c in w.classes <==>
      HasClass(rules, raw, c) || (mixed && c == "authority_replacement") ||
      (c == "routine_write" && forall other :: !HasClass(rules, raw, other))
    requires w.changeClass == Grade(w.classes)
    requires forall field :: field in w.fields ==> exists q :: FieldShows(rules, raw, field, q)
    requires forall p :: p in Changed(StateText(raw, "before"), StateText(raw, "after")) ==> ShownIn(w.fields, p)
    ensures WriteShows(rules, raw, mixed, w)
  {
    hide HasClass, FieldShows, ShownIn, StateText, Changed, TypeText, Grade;
  }

  lemma FinalWriteClasses(rules: Rules, rs: seq<Resource>, k: nat)
    requires k < |rs|
    ensures var w := FinalWrite(rules, rs, k);
      && w.kind == rs[k].kind && w.actions == rs[k].actions && Increasing(w.classes)
      && w.changeClass == WriteClass(w.classes)
      && forall c :: c in w.classes <==>
           c in Classes(rules, rs[k]) || (Mixed(rules, rs) && c == "authority_replacement")
  {
    hide Classes, Mixed, SortedKeys, WriteClass, ChangedFields, ChangeId;
  }

  /** The writes of a summary are the entries that write, under their numbers, and each write shows its entry. */
  lemma WritesByText(rules: Rules, changes: seq<Json>, order: seq<Json>)
    requires IsInOrder(order, changes)
    ensures var writes := Summarized(rules, SortedResourceChanges(changes)).writes;
      && (forall w :: w in writes ==> exists k: nat ::
            k < |order| && IsWriting(order[k]) && w.id == ChangeId(k + 1) &&
            WriteShows(rules, order[k], MixesDeletes(rules, changes), w))
      && (forall k: nat :: k < |order| && IsWriting(order[k]) ==> exists w :: w in writes && w.id == ChangeId(k + 1))
  {
    hide *;
    var rs := SortedResourceChanges(changes);
    OrderIsSorted(order, changes);
    SummaryParts(rules, rs);
    var writes := FinalWrites(rules, rs);
    forall w | w in writes ensures exists k: nat ::
      k < |order| && IsWriting(order[k]) && w.id == ChangeId(k + 1) &&
      WriteShows(rules, order[k], MixesDeletes(rules, changes), w)
    {
      WritesAreTheChanges(rules, rs, w);
      var k :| 0 <= k < |rs| && rs[k].IsWrite() && w == FinalWrite(rules, rs, k);
      ParsedWrites(order[k]);
      WriteShowsEntry(rules, changes, order, k);
    }
    forall k: nat | k < |order| && IsWriting(order[k]) ensures exists w :: w in writes && w.id == ChangeId(k + 1) {
      WriteShowsEntry(rules, changes, order, k);
      WritesAreTheChanges(rules, rs, FinalWrite(rules, rs, k));
    }
  }

  lemma SummaryParts(rules: Rules, rs: seq<Resource>)
    ensures var summary := Summarized(rules, rs);
      summary.writes == FinalWrites(rules, rs) && summary.highRisk == FinalRisks(rules, rs) &&
      summary.sensitive == SensitiveUpTo(rs, |rs|)
  {
    hide FinalWrites, FinalRisks, SensitiveUpTo, CountsOf, IdsUpTo, SortBy;
  }
}
