/** The review of removals: the dependency analysis that `Build` accepts, the part of the evidence
    document that records it, and the validator that reads the document back. */
module DestructiveReview {
  import opened Collections
  import opened Wrappers
  import opened Text
  import opened Values
  import opened Canonical
  import opened ChangeIds
  import opened Unions
  import opened PlanChanges
  import opened PlanSummary
  import opened PlanLedger
  import opened PlanDecision
  import opened PlanTexts

  // ----- Small text checks

  predicate IsLowerHex(c: char) {
    IsDigit(c) || 'a' <= c <= 'f'
  }

  /** `validSHA256Digest`. */
  predicate ValidDigest(s: string) {
    "sha256:" <= s && |s| == 71 && forall i :: 7 <= i < 71 ==> IsLowerHex(s[i])
  }

  /** A digest is the prefix and 64 lower-case hexadecimal digits. */
  lemma ValidDigestExactly(s: string)
    ensures ValidDigest(s) <==>
      exists hex :: s == "sha256:" + hex && |hex| == 64 && forall c :: c in hex ==> '0' <= c <= '9' || 'a' <= c <= 'f'
  {
    if ValidDigest(s) {
      var hex := s[7..];
      assert s == "sha256:" + hex;
      forall c | c in hex ensures IsLowerHex(c) {
        var i :| 0 <= i < |hex| && hex[i] == c;
        assert s[i + 7] == c;
      }
    }
    if hex :| s == "sha256:" + hex && |hex| == 64 && forall c :: c in hex ==> '0' <= c <= '9' || 'a' <= c <= 'f' {
      forall i | 7 <= i < 71 ensures IsLowerHex(s[i]) {
        assert s[i] == hex[i - 7] && hex[i - 7] in hex;
      }
    }
  }

  function CharBytes(c: char): nat {
    if c < '\U{80}' then 1 else if c < '\U{800}' then 2 else if c < '\U{10000}' then 3 else 4
  }

  /** `len` counts the bytes of the UTF-8 encoding. */
  function ByteLength(s: string): nat {
    if s == [] then 0 else CharBytes(s[0]) + ByteLength(s[1..])
  }

  function Above(s: string, bound: char): (n: nat) {
    if s == [] then 0 else Above(s[1..], bound) + if s[0] >= bound then 1 else 0
  }

  /** One byte for every character, and one more for every character from each of the three bounds on. */
  lemma {:induction false} ByteLengthExactly(s: string)
    ensures ByteLength(s) == |s| + Above(s, '\U{80}') + Above(s, '\U{800}') + Above(s, '\U{10000}')
  {
    if s != [] {
      ByteLengthExactly(s[1..]);
    }
  }

  /** `boundedEvidenceText`. */
  predicate BoundedText(s: string, maximum: nat) {
    !IsBlank(s) && ByteLength(s) <= maximum && '\0' !in s && '\r' !in s && '\n' !in s
  }

  // ----- The dependency analysis

  const API_VERSION: string := "github.mindclade.io/v1"
  const ANALYSIS_KEYS: set<string> :=
    {"api_version", "kind", "plan_json_digest", "change_reference", "destructive_changes"}
  const ENTRY_KEYS: set<string> := {"change_id", "dependencies", "impact", "rollback"}

  predicate IsBoundedStr(v: Json, maximum: nat) {
    v.Str? && BoundedText(v.s, maximum)
  }

  /** A text that says something, on one line, in so many bytes of UTF-8 at most. */
  ghost predicate IsLine(v: Json, maximum: nat) {
    && v.Str? && (exists c :: c in v.s && !IsSpace(c)) && '\0' !in v.s && '\r' !in v.s && '\n' !in v.s
    && |v.s| + Above(v.s, '\U{80}') + Above(v.s, '\U{800}') + Above(v.s, '\U{10000}') <= maximum
  }

  lemma LineExactly(v: Json, maximum: nat)
    ensures IsBoundedStr(v, maximum) <==> IsLine(v, maximum)
  {
    hide IsSpace;
    if v.Str? {
      ByteLengthExactly(v.s);
    }
  }

  ghost predicate DependenciesAccepted(v: Json) {
    && v.Arr? && |v.items| <= 100
    && (forall i :: 0 <= i < |v.items| ==> IsLine(v.items[i], 512))
    && NoRepeats(v.items)
  }

  ghost predicate EntryAccepted(entry: Json, id: string) {
    && entry.Obj? && entry.fields.Keys == {"change_id", "dependencies", "impact", "rollback"}
    && entry.fields["change_id"] == Str(id)
    && DependenciesAccepted(entry.fields["dependencies"])
    && IsLine(entry.fields["impact"], 2048) && IsLine(entry.fields["rollback"], 2048)
  }

  /** Bound to the plan and the change under review, with one accepted entry for every removal, in order. */
  ghost predicate AnalysisAccepted(
    document: map<string, Json>, planDigest: string, changeReference: string, ids: seq<string>)
  {
    && document.Keys == {"api_version", "kind", "plan_json_digest", "change_reference", "destructive_changes"}
    && document["api_version"] == Str("github.mindclade.io/v1") && document["kind"] == Str("DependencyAnalysis")
    && ValidDigest(planDigest) && document["plan_json_digest"] == Str(planDigest)
    && !IsBlank(changeReference) && document["change_reference"] == Str(changeReference)
    && EntriesAccepted(document["destructive_changes"], ids)
  }

  ghost predicate EntriesAccepted(entries: Json, ids: seq<string>) {
    && entries.Arr? && |entries.items| == |ids|
    && forall i :: 0 <= i < |ids| ==> EntryAccepted(entries.items[i], ids[i])
  }

  /** `exactObjectKeys`: as many keys as expected, and every expected one. */
  method ExactObjectKeys(fields: map<string, Json>, expected: set<string>) returns (exact: bool)
    ensures exact <==> fields.Keys == expected
  {
    if |fields.Keys| != |expected| {
      return false;
    }
    if expected <= fields.Keys {
      SubsetOfSameSize(expected, fields.Keys);
      return true;
    }
    return false;
  }

  method CheckDependencies(v: Json) returns (accepted: bool)
    ensures accepted <==> DependenciesAccepted(v)
  {
    hide IsBoundedStr, IsLine;
    if !v.Arr? || |v.items| > 100 {
      return false;
    }
    var seen: set<Json> := {};
    for i := 0 to |v.items|
      invariant forall j :: 0 <= j < i ==> IsLine(v.items[j], 512)
      invariant forall j, k :: 0 <= j < k < i ==> v.items[j] != v.items[k]
      invariant forall x :: x in seen <==> x in v.items[..i]
    {
      LineExactly(v.items[i], 512);
      if !IsBoundedStr(v.items[i], 512) {
        return false;
      }
      if v.items[i] in seen {
        return false;
      }
      seen := seen + {v.items[i]};
    }
    return true;
  }

  method CheckEntry(entry: Json, id: string) returns (accepted: bool)
    ensures accepted <==> EntryAccepted(entry, id)
  {
    hide IsBoundedStr, IsLine, DependenciesAccepted;
    if !entry.Obj? {
      return false;
    }
    var exact := ExactObjectKeys(entry.fields, ENTRY_KEYS);
    if !exact || entry.fields["change_id"] != Str(id) {
      return false;
    }
    var accepts := CheckDependencies(entry.fields["dependencies"]);
    LineExactly(entry.fields["impact"], 2048);
    LineExactly(entry.fields["rollback"], 2048);
    return accepts && IsBoundedStr(entry.fields["impact"], 2048) && IsBoundedStr(entry.fields["rollback"], 2048);
  }

  method CheckEntries(entries: Json, ids: seq<string>) returns (accepted: bool)
    ensures accepted <==> EntriesAccepted(entries, ids)
  {
    hide EntryAccepted;
    if !entries.Arr? || |entries.items| != |ids| {
      return false;
    }
    for i := 0 to |ids|
      invariant forall j :: 0 <= j < i ==> EntryAccepted(entries.items[j], ids[j])
    {
      var accepts := CheckEntry(entries.items[i], ids[i]);
      if !accepts {
        return false;
      }
    }
    return true;
  }

  /** `validateDependencyAnalysis`, on the decoded document: its digest, or nothing. */
  method ValidateDependencyAnalysis(
    digestOf: string -> string, document: map<string, Json>, planDigest: string, changeReference: string,
    ids: seq<string>) returns (digest: Option<string>)
    ensures digest == if AnalysisAccepted(document, planDigest, changeReference, ids)
      then Some(digestOf(CanonicalText(Obj(document)))) else None
  {
    hide CanonicalText, EntriesAccepted, ValidDigest, IsBlank;
    var exact := ExactObjectKeys(document, ANALYSIS_KEYS);
    if !exact || document["api_version"] != Str(API_VERSION) || document["kind"] != Str("DependencyAnalysis") {
      return None;
    }
    if !ValidDigest(planDigest) || document["plan_json_digest"] != Str(planDigest) {
      return None;
    }
    if IsBlank(changeReference) || document["change_reference"] != Str(changeReference) {
      return None;
    }
    var accepted := CheckEntries(document["destructive_changes"], ids);
    if !accepted {
      return None;
    }
    return Some(digestOf(CanonicalText(Obj(document))));
  }

  function ListedIds(entries: Json): (r: seq<string>)
    ensures |r| == |ListValue(entries)|
  {
    seq(|ListValue(entries)|, i requires 0 <= i < |ListValue(entries)| =>
      StringValue(Field(ObjectValue(ListValue(entries)[i]), "change_id")))
  }

  /** An accepted analysis lists exactly the given removals, one entry each, in their order; no entry
      repeats a dependency. */
  lemma AcceptedAnalysisCovers(
    document: map<string, Json>, planDigest: string, changeReference: string, ids: seq<string>)
    requires AnalysisAccepted(document, planDigest, changeReference, ids)
    ensures ListedIds(document["destructive_changes"]) == ids
    ensures forall entry :: entry in document["destructive_changes"].items ==>
      entry.Obj? && "dependencies" in entry.fields && NoRepeats(ListValue(entry.fields["dependencies"]))
  {
    hide IsLine, ValidDigest, IsBlank, NoRepeats;
    var entries := document["destructive_changes"];
    forall i | 0 <= i < |ids| ensures ListedIds(entries)[i] == ids[i] {
      assert EntryAccepted(entries.items[i], ids[i]);
    }
    forall entry | entry in entries.items
      ensures entry.Obj? && "dependencies" in entry.fields && NoRepeats(ListValue(entry.fields["dependencies"]))
    {
      var i :| 0 <= i < |ids| && entries.items[i] == entry;
      assert EntryAccepted(entry, ids[i]);
    }
  }

  // ----- The document and its validator

  const IDS: string := "destructive_change_ids"
  const ELIGIBLE: string := "eligible_for_protected_apply"
  const REQUIRED: string := "requires_destructive_change_acknowledgement"
  const ACKNOWLEDGED: string := "destructive_change_acknowledged"
  const VERIFIED: string := "dependency_analysis_verified"
  const ANALYSIS: string := "dependency_analysis"

  /** The same valid digest in both places. */
  predicate DigestBound(digests: map<string, Json>, bindings: map<string, Json>) {
    var digest, bound := Field(digests, ANALYSIS), Field(bindings, ANALYSIS);
    digest.Str? && bound.Str? && ValidDigest(digest.s) && digest == bound
  }

  predicate IdsAccepted(ids: Json) {
    ids.Arr? && forall i :: 0 <= i < |ids.items| ==> ids.items[i].Str? && IsChangeId(ids.items[i].s)
  }

  predicate DecisionAccepted(decision: map<string, Json>, removes: bool, bound: bool) {
    var required, acknowledged := Field(decision, REQUIRED), Field(decision, ACKNOWLEDGED);
    var verified, eligible := Field(decision, VERIFIED), Field(decision, ELIGIBLE);
    && required.Bool? && acknowledged.Bool? && verified.Bool? && eligible.Bool?
    && required.b == removes && verified.b == bound
    && (eligible.b && required.b ==> acknowledged.b && verified.b)
  }

  /** What `validateDestructiveReviewEvidence` asks of a document. */
  predicate ReviewPasses(document: map<string, Json>) {
    var plan, decision := Field(document, "plan"), Field(document, "decision");
    var digests, bindings := Field(document, "digests"), Field(document, "bindings");
    && plan.Obj? && decision.Obj? && digests.Obj? && bindings.Obj?
    && IdsAccepted(Field(plan.fields, IDS))
    && DecisionAccepted(
         decision.fields, Field(plan.fields, IDS) != Arr([]), DigestBound(digests.fields, bindings.fields))
  }

  /** `validateDestructiveReviewEvidence`. */
  method ValidateDestructiveReviewEvidence(document: map<string, Json>) returns (valid: bool)
    ensures valid <==> ReviewPasses(document)
    ensures valid <==> IsConsistent(document)
  {
    hide ValidDigest, IsChangeId, IsConsistent;
    PassesExactly(document);
    var plan, decision := Field(document, "plan"), Field(document, "decision");
    var digests, bindings := Field(document, "digests"), Field(document, "bindings");
    if !plan.Obj? || !decision.Obj? || !digests.Obj? || !bindings.Obj? {
      return false;
    }
    var ids := Field(plan.fields, IDS);
    if !ids.Arr? {
      return false;
    }
    for i := 0 to |ids.items|
      invariant forall j :: 0 <= j < i ==> ids.items[j].Str? && IsChangeId(ids.items[j].s)
    {
      if !ids.items[i].Str? || !IsChangeId(ids.items[i].s) {
        return false;
      }
    }
    return DecisionAccepted(decision.fields, |ids.items| > 0, DigestBound(digests.fields, bindings.fields));
  }

  // ----- The validator by the text of the document

  /** A part of the document holds a value under a key. */
  ghost predicate Says(document: map<string, Json>, part: string, key: string, v: Json) {
    part in document && document[part].Obj? && key in document[part].fields && document[part].fields[key] == v
  }

  ghost predicate HasParts(document: map<string, Json>) {
    && "plan" in document && document["plan"].Obj? && "decision" in document && document["decision"].Obj?
    && "digests" in document && document["digests"].Obj? && "bindings" in document && document["bindings"].Obj?
  }

  /** The document carries one valid digest of the analysis, in both places. */
  ghost predicate CarriesAnalysis(document: map<string, Json>) {
    exists digest :: ValidDigest(digest) &&
      Says(document, "digests", "dependency_analysis", Str(digest)) &&
      Says(document, "bindings", "dependency_analysis", Str(digest))
  }

  /** A text of seven characters and six digits, the seven being those of every identifier. */
  ghost predicate IsIdText(v: Json) {
    v.Str? && exists digits :: v.s == "change-" + digits && |digits| == 6 && forall c :: c in digits ==> '0' <= c <= '9'
  }

  /** The identifiers are well formed, the flags say what the rest of the document shows, and what is eligible
      and removes something is acknowledged and analysed. */
  ghost predicate IsConsistentWith(document: map<string, Json>, ids: seq<Json>, acknowledged: bool, eligible: bool) {
    && Says(document, "plan", "destructive_change_ids", Arr(ids)) && (forall id :: id in ids ==> IsIdText(id))
    && Says(document, "decision", "requires_destructive_change_acknowledgement", Bool(ids != []))
    && Says(document, "decision", "destructive_change_acknowledged", Bool(acknowledged))
    && Says(document, "decision", "dependency_analysis_verified", Bool(CarriesAnalysis(document)))
    && Says(document, "decision", "eligible_for_protected_apply", Bool(eligible))
    && (eligible && ids != [] ==> acknowledged && CarriesAnalysis(document))
  }

  ghost predicate IsConsistent(document: map<string, Json>) {
    HasParts(document) &&
    exists ids, acknowledged, eligible :: IsConsistentWith(document, ids, acknowledged, eligible)
  }

  lemma IdTextExactly(v: Json)
    ensures IsIdText(v) <==> v.Str? && IsChangeId(v.s)
  {
    if v.Str? && IsChangeId(v.s) {
      var digits := v.s[7..];
      assert v.s == "change-" + digits;
      forall c | c in digits ensures '0' <= c <= '9' {
        var i :| 0 <= i < |digits| && digits[i] == c;
        assert v.s[i + 7] == c;
      }
    }
    if v.Str? {
      if digits :| v.s == "change-" + digits && |digits| == 6 && forall c :: c in digits ==> '0' <= c <= '9' {
        assert v.s[..7] == "change-";
        forall i | 7 <= i < 13 ensures IsDigit(v.s[i]) {
          assert v.s[i] == digits[i - 7] && digits[i - 7] in digits;
        }
      }
    }
  }

  lemma CarriesAnalysisExactly(document: map<string, Json>)
    requires HasParts(document)
    ensures CarriesAnalysis(document) <==> DigestBound(document["digests"].fields, document["bindings"].fields)
  {
    hide ValidDigest;
    var digest := Field(document["digests"].fields, ANALYSIS);
    if DigestBound(document["digests"].fields, document["bindings"].fields) {
      assert Says(document, "digests", "dependency_analysis", Str(digest.s));
    }
  }

  lemma PassingIsConsistent(document: map<string, Json>)
    requires ReviewPasses(document)
    ensures IsConsistent(document)
  {
    hide ValidDigest, IsChangeId, DigestBound, CarriesAnalysis, IsIdText;
    CarriesAnalysisExactly(document);
    var ids, decision := document["plan"].fields[IDS].items, document["decision"].fields;
    forall id | id in ids ensures IsIdText(id) {
      IdTextExactly(id);
    }
    assert document["plan"].fields[IDS] == Arr([]) <==> ids == [];
    assert IsConsistentWith(document, ids, decision[ACKNOWLEDGED].b, decision[ELIGIBLE].b);
  }

  lemma ConsistentPasses(document: map<string, Json>, ids: seq<Json>, acknowledged: bool, eligible: bool)
    requires HasParts(document) && IsConsistentWith(document, ids, acknowledged, eligible)
    ensures ReviewPasses(document)
  {
    hide ValidDigest, IsChangeId, DigestBound, CarriesAnalysis, IsIdText;
    CarriesAnalysisExactly(document);
    forall i | 0 <= i < |ids| ensures ids[i].Str? && IsChangeId(ids[i].s) {
      assert ids[i] in ids;
      IdTextExactly(ids[i]);
    }
    var decision := document["decision"].fields;
    assert Field(document["plan"].fields, IDS) == Arr(ids);
    assert Field(decision, REQUIRED) == Bool(ids != []) && Field(decision, ACKNOWLEDGED) == Bool(acknowledged);
    assert Field(decision, ELIGIBLE) == Bool(eligible);
  }

  /** The validator passes exactly the consistent documents. */
  lemma PassesExactly(document: map<string, Json>)
    ensures ReviewPasses(document) <==> IsConsistent(document)
  {
    hide ReviewPasses, IsConsistentWith;
    if ReviewPasses(document) {
      PassingIsConsistent(document);
    }
    if IsConsistent(document) {
      var ids, acknowledged, eligible :| IsConsistentWith(document, ids, acknowledged, eligible);
      ConsistentPasses(document, ids, acknowledged, eligible);
    }
  }

  /** The rest of the evidence, which the review does not read. */
  datatype Rest = Rest(
    document: map<string, Json>, plan: map<string, Json>, decision: map<string, Json>, digests: map<string, Json>,
    bindings: map<string, Json>)

  function WithAnalysis(fields: map<string, Json>, digest: Option<string>): map<string, Json> {
    if digest.Some? then fields[ANALYSIS := Str(digest.value)] else fields
  }

  function DecisionFields(review: Review, decision: Decision): map<string, Json> {
    map[ELIGIBLE := Bool(decision.eligible), REQUIRED := Bool(decision.requiresRemoval),
        ACKNOWLEDGED := Bool(review.removalAcknowledged), VERIFIED := Bool(review.analysisVerified)]
  }

  /** The evidence document of `Build`. */
  function Document(rest: Rest, review: Review, decision: Decision, ids: seq<string>, digest: Option<string>)
    : map<string, Json>
  {
    rest.document + map[
      "plan" := Obj(rest.plan[IDS := Texts(ids)]),
      "decision" := Obj(rest.decision + DecisionFields(review, decision)),
      "digests" := Obj(WithAnalysis(rest.digests, digest)),
      "bindings" := Obj(WithAnalysis(rest.bindings, digest))]
  }

  /** The validator accepts a built document exactly when every removal has a six-digit identifier. */
  lemma BuiltDocumentPassesExactly(
    rest: Rest, review: Review, decision: Decision, summary: Summary, digest: Option<string>)
    requires decision.eligible <==> Eligible(review, summary)
    requires decision.requiresRemoval <==> summary.destructive != []
    requires review.analysisVerified <==> digest.Some?
    requires digest.Some? ==> ValidDigest(digest.value)
    requires digest.None? ==> ANALYSIS !in rest.digests
    ensures ReviewPasses(Document(rest, review, decision, summary.destructive, digest)) <==>
      forall id :: id in summary.destructive ==> IsChangeId(id)
  {
    hide ValidDigest, IsChangeId, DeniesRisks, ExpandsPrivilege;
    var ids := summary.destructive;
    var document := Document(rest, review, decision, ids, digest);
    DocumentParts(rest, review, decision, ids, digest);
    assert forall i :: 0 <= i < |ids| ==> Texts(ids).items[i] == Str(ids[i]);
    assert Texts(ids) == Arr([]) <==> ids == [];
  }

  lemma DocumentParts(rest: Rest, review: Review, decision: Decision, ids: seq<string>, digest: Option<string>)
    ensures var document := Document(rest, review, decision, ids, digest);
      && Field(document, "plan") == Obj(rest.plan[IDS := Texts(ids)])
      && Field(document, "digests") == Obj(WithAnalysis(rest.digests, digest))
      && Field(document, "bindings") == Obj(WithAnalysis(rest.bindings, digest))
      && Field(document, "decision").Obj?
      && (var fields := Field(document, "decision").fields;
          && Field(fields, ELIGIBLE) == Bool(decision.eligible)
          && Field(fields, REQUIRED) == Bool(decision.requiresRemoval)
          && Field(fields, ACKNOWLEDGED) == Bool(review.removalAcknowledged)
          && Field(fields, VERIFIED) == Bool(review.analysisVerified))
  {
    var parts := DecisionFields(review, decision);
    DecisionParts(review, decision);
    hide DecisionFields, WithAnalysis, Texts;
    assert forall k :: k in parts ==> Field(rest.decision + parts, k) == parts[k];
  }

  lemma DecisionParts(review: Review, decision: Decision)
    ensures var parts := DecisionFields(review, decision);
      && parts.Keys == {ELIGIBLE, REQUIRED, ACKNOWLEDGED, VERIFIED}
      && parts[ELIGIBLE] == Bool(decision.eligible) && parts[REQUIRED] == Bool(decision.requiresRemoval)
      && parts[ACKNOWLEDGED] == Bool(review.removalAcknowledged) && parts[VERIFIED] == Bool(review.analysisVerified)
  {
  }

  // ----- The whole of Build

  /** The flags and identities `Build` is called with. */
  datatype Request = Request(
    phase: Phase, riskAcknowledged: bool, removalAcknowledged: bool, founder: bool,
    analysis: Option<map<string, Json>>, planDigest: string, changeReference: string)

  function ReviewOf(request: Request): Review {
    Review(
      request.phase, request.riskAcknowledged, request.removalAcknowledged, request.analysis.Some?, request.founder)
  }

  ghost function PlanSummaryOf(rules: Rules, plan: map<string, Json>): Summary {
    Summarized(rules, SortedResourceChanges(ListValue(Field(plan, "resource_changes"))))
  }

  /** Every removal stands within the first 999,999 changes of the sorted plan. */
  ghost predicate RemovalsInRange(rs: seq<Resource>) {
    forall k :: 0 <= k < |rs| && Removes(rs[k]) ==> k < 999_999
  }

  lemma RemovalIdsInRange(rules: Rules, rs: seq<Resource>)
    ensures (forall id :: id in Summarized(rules, rs).destructive ==> IsChangeId(id)) <==> RemovalsInRange(rs)
  {
    hide Summarized, Removes, ChangeId, IsChangeId;
    RemovalsAreListed(rules, rs);
    var ids := Summarized(rules, rs).destructive;
    if forall id :: id in ids ==> IsChangeId(id) {
      forall k | 0 <= k < |rs| && Removes(rs[k]) ensures k < 999_999 {
        assert ChangeId(k + 1) in ids;
        ChangeIdMatchesExactly(k + 1);
      }
    }
    if RemovalsInRange(rs) {
      forall id | id in ids ensures IsChangeId(id) {
        var k :| 0 <= k < |rs| && Removes(rs[k]) && id == ChangeId(k + 1);
        ChangeIdMatchesExactly(k + 1);
      }
    }
  }

  /** The document records the verdict, the removals, what was acknowledged and the digest of the analysis. */
  ghost predicate Records(
    document: map<string, Json>, request: Request, verdict: bool, ids: seq<string>, digest: Option<string>)
  {
    && Says(document, "plan", "destructive_change_ids", Texts(ids))
    && Says(document, "decision", "eligible_for_protected_apply", Bool(verdict))
    && Says(document, "decision", "requires_destructive_change_acknowledgement", Bool(ids != []))
    && Says(document, "decision", "destructive_change_acknowledged", Bool(request.removalAcknowledged))
    && Says(document, "decision", "dependency_analysis_verified", Bool(request.analysis.Some?))
    && (digest.Some? ==>
          Says(document, "digests", "dependency_analysis", Str(digest.value)) &&
          Says(document, "bindings", "dependency_analysis", Str(digest.value)))
  }

  /** The verdict that the text of a plan calls for. */
  ghost predicate Deserves(rules: Rules, request: Request, changes: seq<Json>) {
    Permitted(rules,
      Review(request.phase, request.riskAcknowledged, request.removalAcknowledged, request.analysis.Some?,
        request.founder),
      changes)
  }

  /** `Build`: it fails exactly when an analysis is given and not accepted; the document it emits records the
      verdict that the text of the plan calls for and the entries that remove something, and passes the
      validator exactly when all of these are in range. */
  method Build(
    digestOf: string -> string, rules: Rules, plan: map<string, Json>, request: Request, rest: Rest)
    returns (document: Option<map<string, Json>>)
    requires forall text :: ValidDigest(digestOf(text))
    requires ANALYSIS !in rest.digests && ANALYSIS !in rest.bindings
    ensures document.None? <==>
      request.analysis.Some? &&
      !AnalysisAccepted(request.analysis.value, request.planDigest, request.changeReference,
        PlanSummaryOf(rules, plan).destructive)
    ensures document.Some? ==>
      var changes, ids := ListValue(Field(plan, "resource_changes")), PlanSummaryOf(rules, plan).destructive;
      && Records(document.value, request, Deserves(rules, request, changes), ids,
           if request.analysis.Some? then Some(digestOf(CanonicalText(Obj(request.analysis.value)))) else None)
      && (forall order :: IsInOrder(order, changes) ==>
            ListsTexts(ids, order, {"delete", "forget", "delete,create", "create,delete"}))
    ensures document.Some? ==>
      (ReviewPasses(document.value) <==>
       RemovalsInRange(SortedResourceChanges(ListValue(Field(plan, "resource_changes")))))
    ensures document.Some? && |ListValue(Field(plan, "resource_changes"))| <= 999_999 ==> ReviewPasses(document.value)
    ensures document.Some? && Deserves(rules, request, ListValue(Field(plan, "resource_changes"))) ==>
      RemovalsAreAnalysed(request, SortedResourceChanges(ListValue(Field(plan, "resource_changes"))))
  {
    hide *;
    var summary := SummarizePlan(rules, plan);
    var digest: Option<string> := None;
    if request.analysis.Some? {
      digest := ValidateDependencyAnalysis(
        digestOf, request.analysis.value, request.planDigest, request.changeReference, summary.destructive);
      if digest.None? {
        SummaryOfPlan(rules, plan);
        return None;
      }
    }
    SummaryOfPlan(rules, plan);
    ReviewParts(request);
    var decision := Decide(ReviewOf(request), summary);
    BuiltDocumentPassesExactly(rest, ReviewOf(request), decision, summary, digest);
    RemovalIdsInRange(rules, SortedResourceChanges(ListValue(Field(plan, "resource_changes"))));
    SmallPlansAreInRange(ListValue(Field(plan, "resource_changes")));
    DeservesExactly(rules, request, plan);
    if Eligible(ReviewOf(request), PlanSummaryOf(rules, plan)) {
      EligibleRemovalsAreAnalysed(rules, plan, request);
    }
    DocumentRecords(rest, request, decision, summary.destructive, digest);
    forall order | IsInOrder(order, ListValue(Field(plan, "resource_changes")))
      ensures ListsTexts(summary.destructive, order, {"delete", "forget", "delete,create", "create,delete"})
    {
      RemovalsByText(rules, ListValue(Field(plan, "resource_changes")), order);
    }
    return Some(Document(rest, ReviewOf(request), decision, summary.destructive, digest));
  }

  lemma DeservesExactly(rules: Rules, request: Request, plan: map<string, Json>)
    ensures Eligible(ReviewOf(request), PlanSummaryOf(rules, plan)) <==>
      Deserves(rules, request, ListValue(Field(plan, "resource_changes")))
  {
    hide Eligible, Permitted, Summarized, SortedResourceChanges;
    EligibleExactly(rules, ReviewOf(request), ListValue(Field(plan, "resource_changes")));
  }

  lemma DocumentRecords(rest: Rest, request: Request, decision: Decision, ids: seq<string>, digest: Option<string>)
    requires decision.requiresRemoval <==> ids != []
    ensures Records(
      Document(rest, ReviewOf(request), decision, ids, digest), request, decision.eligible, ids, digest)
  {
    hide Document, Texts;
    DocumentParts(rest, ReviewOf(request), decision, ids, digest);
    FieldsAreThere(Document(rest, ReviewOf(request), decision, ids, digest));
  }

  lemma FieldsAreThere(document: map<string, Json>)
    ensures forall part, key :: Field(document, part).Obj? && Field(Field(document, part).fields, key) != Null ==>
      Says(document, part, key, Field(Field(document, part).fields, key))
  {
  }

  lemma SummaryOfPlan(rules: Rules, plan: map<string, Json>)
    ensures PlanSummaryOf(rules, plan) ==
      Summarized(rules, SortedResourceChanges(ListValue(Field(plan, "resource_changes"))))
  {
    hide Summarized, SortedResourceChanges;
  }

  lemma ReviewParts(request: Request)
    ensures ReviewOf(request).analysisVerified == request.analysis.Some?
  {
  }

  lemma SmallPlansAreInRange(changes: seq<Json>)
    ensures |changes| <= 999_999 ==> RemovalsInRange(SortedResourceChanges(changes))
  {
    hide SortedResourceChanges, Removes;
    assert |SortedResourceChanges(changes)| == |changes|;
  }

  /** If the plan removes anything, the analysis was given and lists exactly the plan's removals, each once,
      in order. */
  ghost predicate RemovalsAreAnalysed(request: Request, rs: seq<Resource>) {
    (exists r :: r in rs && Removes(r)) ==>
      && request.analysis.Some? && "destructive_changes" in request.analysis.value
      && ListsExactly(ListedIds(request.analysis.value["destructive_changes"]), Removes, rs)
  }

  lemma EligibleRemovalsAreAnalysed(rules: Rules, plan: map<string, Json>, request: Request)
    requires Eligible(ReviewOf(request), PlanSummaryOf(rules, plan))
    requires request.analysis.Some? ==>
      AnalysisAccepted(request.analysis.value, request.planDigest, request.changeReference,
        PlanSummaryOf(rules, plan).destructive)
    ensures RemovalsAreAnalysed(request, SortedResourceChanges(ListValue(Field(plan, "resource_changes"))))
  {
    hide *;
    var changes := ListValue(Field(plan, "resource_changes"));
    var rs := SortedResourceChanges(changes);
    SummaryOfPlan(rules, plan);
    ReviewParts(request);
    EligiblePlan(rules, ReviewOf(request), changes);
    RemovalsAreListed(rules, rs);
    RemovalsNeedAnalysis(rs, ReviewOf(request));
    if request.analysis.Some? {
      AcceptedAnalysisCovers(request.analysis.value, request.planDigest, request.changeReference,
        PlanSummaryOf(rules, plan).destructive);
      AnalysisHasEntries(request.analysis.value, request.planDigest, request.changeReference,
        PlanSummaryOf(rules, plan).destructive);
    }
    RemovalsAnalysedParts(request, rs);
  }

  lemma RemovalsNeedAnalysis(rs: seq<Resource>, review: Review)
    requires (exists r :: r in rs && r.Removes()) ==> review.analysisVerified
    ensures (exists r :: r in rs && Removes(r)) ==> review.analysisVerified
  {
    hide Resource.Removes;
  }

  lemma AnalysisHasEntries(
    document: map<string, Json>, planDigest: string, changeReference: string, ids: seq<string>)
    requires AnalysisAccepted(document, planDigest, changeReference, ids)
    ensures "destructive_changes" in document
  {
  }

  lemma RemovalsAnalysedParts(request: Request, rs: seq<Resource>)
    requires (exists r :: r in rs && Removes(r)) ==> request.analysis.Some?
    requires request.analysis.Some? ==>
      "destructive_changes" in request.analysis.value &&
      ListsExactly(ListedIds(request.analysis.value["destructive_changes"]), Removes, rs)
    ensures RemovalsAreAnalysed(request, rs)
  {
    hide ListsExactly, ListedIds, Removes;
  }

  // ----- Past six digits

  /** A resource change that deletes and says nothing else. */
  const BARE_DELETE: Json := Obj(map["change" := Obj(map["actions" := Arr([Str("delete")])])])

  lemma BareDeleteRemoves()
    ensures Removes(Parse(BARE_DELETE))
  {
    var change: map<string, Json> := map["actions" := Arr([Str("delete")])];
    assert Field(ObjectValue(BARE_DELETE), "change") == Obj(change);
    var items := [Str("delete")];
    assert items[..0] == [];
    assert StringItems(items) == ["delete"];
    assert Parse(BARE_DELETE).actions == ["delete"];
    assert Join(["delete"], ",") == "delete";
  }

  /** A million deletes: the last of them is out of range, so a document built from this plan fails. */
  lemma MillionDeletesAreOutOfRange()
    ensures !RemovalsInRange(SortedResourceChanges(seq(1_000_000, i => BARE_DELETE)))
  {
    hide SortedResourceChanges, Parse, Removes;
    var changes := seq(1_000_000, i => BARE_DELETE);
    var rs := SortedResourceChanges(changes);
    var last := rs[999_999];
    SortedResourceChangesHolds(changes, last);
    assert last in rs;
    var raw :| raw in changes && last == Parse(raw);
    assert raw == BARE_DELETE;
    BareDeleteRemoves();
  }
}
