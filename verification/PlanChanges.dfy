/** One resource change of a plan: how it is read, which action it is, and what is found wrong with it. */
module PlanChanges {
  import opened Wrappers
  import opened Text
  import opened Ordering
  import opened Values
  import opened Unions
  import opened PlanWalk
  import opened PlanPaths
  import opened PlanView

  datatype Action = Create | Update | Delete | Replace | Forget | Read | NoOp | Unknown

  /** `allowedActionSets`; any other sequence is unknown. */
  function ActionClass(actions: seq<string>): Action {
    var joined := Join(actions, ",");
    if joined == "no-op" then NoOp
    else if joined == "read" then Read
    else if joined == "create" then Create
    else if joined == "update" then Update
    else if joined == "delete" then Delete
    else if joined == "forget" then Forget
    else if joined == "delete,create" || joined == "create,delete" then Replace
    else Unknown
  }

  datatype Resource = Resource(address: string, kind: string, actions: seq<string>, change: map<string, Json>) {
    function Action(): Action {
      ActionClass(actions)
    }

    predicate IsWrite() {
      Action() != Read && Action() != NoOp
    }

    predicate Removes() {
      Action() == Delete || Action() == Replace || Action() == Forget
    }

    predicate IsReduction() {
      ToLower(kind) in REDUCTION_TYPES
    }

    function Before(): Option<map<string, Json>> {
      Fields("before")
    }

    function After(): Option<map<string, Json>> {
      Fields("after")
    }

    function Fields(side: string): Option<map<string, Json>> {
      var v := Field(change, side);
      if v.Obj? then Some(v.fields) else None
    }
  }

  /** `resourceTypeFromAddress`. */
  function KindFromAddress(components: seq<string>): string {
    if components == [] then "unknown"
    else if "github_" <= components[0] then Split(components[0], '[')[0]
    else KindFromAddress(components[1..])
  }

  /** The type in an address is its first component with the provider's prefix, without any index. */
  lemma {:induction false} KindInAddress(modules: seq<string>, kind: string, index: string, rest: seq<string>)
    requires forall i :: 0 <= i < |modules| ==> !("github_" <= modules[i])
    requires "github_" <= kind && '[' !in kind && (index == "" || index[0] == '[')
    ensures KindFromAddress(modules + [kind + index] + rest) == kind
    decreases |modules|
  {
    var components := modules + [kind + index] + rest;
    if modules == [] {
      assert "github_" <= components[0];
      if index == "" {
        assert kind + index == kind;
        SplitWithoutSeparator(kind, '[');
      } else {
        assert kind + index == kind + ['['] + index[1..];
        SplitAtSeparator(kind, index[1..], '[');
      }
    } else {
      assert components[1..] == modules[1..] + [kind + index] + rest;
      KindInAddress(modules[1..], kind, index, rest);
    }
  }

  lemma {:induction false} NoKindInAddress(components: seq<string>)
    requires forall i :: 0 <= i < |components| ==> !("github_" <= components[i])
    ensures KindFromAddress(components) == "unknown"
  {
    if components != [] {
      NoKindInAddress(components[1..]);
    }
  }

  function AddressOf(raw: Json): string {
    StringValue(Field(ObjectValue(raw), "address"))
  }

  /** How `summarizePlan` reads an entry of `resource_changes`. */
  function Parse(raw: Json): Resource {
    var fields, address := ObjectValue(raw), AddressOf(raw);
    var kind := StringValue(Field(fields, "type"));
    var change := ObjectValue(Field(fields, "change"));
    Resource(address, if kind == "" then KindFromAddress(Split(address, '.')) else kind,
      Strings(Field(change, "actions")), change)
  }

  /** `permissionReductionDeleteTypes`. */
  const REDUCTION_TYPES: set<string> :=
    {"github_membership", "github_team_membership", "github_team_repository", "github_repository_collaborator"}

  /** `fundamentalClasses`. */
  const FUNDAMENTAL: set<string> := {
    "administrative_grant", "actions_policy_expansion", "destructive", "authority_replacement",
    "direct_collaborator", "environment_bypass", "oidc_mutation", "protection_weakening", "public_visibility",
    "replacement", "security_weakening", "state_forget", "unknown_action", "unknown_change"}

  datatype RawFinding = RawFinding(class_: string, reason: string)

  /** Every finding the classifier adds carries a reason. */
  type Finding = f: RawFinding | |f.reason| > 0 witness RawFinding("", "-")

  /** What the approver's view consults: sensitive types, sensitive paths of a type, sensitive names, and the
      digest for a type and its actions. */
  datatype ViewRules = ViewRules(
    types: string -> bool, paths: (string, string) -> bool, names: string -> bool, digest: (string, string) -> Digest)

  /** What the classifier consults besides the change itself: the retirement addresses, the authority
      words in unknown markers, the managed types with their write lists, and the field-by-field checks
      against the catalogue, which may find anything. */
  datatype Rules = Rules(
    retirement: (string, string) -> bool,
    authorityUnknown: Json -> bool,
    managedTypes: set<string>,
    lists: string -> WriteList,
    others: Resource -> set<Finding>,
    view: ViewRules)

  predicate IsRetirement(rules: Rules, r: Resource) {
    rules.retirement(ToLower(r.kind), r.address)
  }

  /** A delete that is safe in a plan of such deletes alone. */
  predicate IsGovernedDelete(rules: Rules, r: Resource) {
    r.Action() == Delete && (r.IsReduction() || IsRetirement(rules, r))
  }

  function Found(class_: string, reason: string): Finding
    requires |reason| > 0
  {
    RawFinding(class_, reason)
  }

  const UNRECOGNIZED: Finding :=
    Found("unknown_action", "Terraform/OpenTofu emitted an unrecognized action sequence")
  const REDUCTION: Finding := Found("permission_reduction", "access authority is revoked")
  const GOVERNED_RETIREMENT: Finding :=
    Found("governed_retirement",
      "catalog retirement requires exact-plan acknowledgement and complete dependency analysis")
  const DELETION: Finding := Found("destructive", "resource deletion is prohibited")
  const REPLACEMENT: Finding := Found("replacement", "resource replacement includes deletion")
  const FORGETTING: Finding := Found("state_forget", "resource removal from state is prohibited")
  const CREATION: Finding :=
    Found("privilege_expansion", "resource creation expands the managed authority surface")
  const UNKNOWN_AUTHORITY: Finding :=
    Found("unknown_change", "one or more security- or authority-relevant post-change values are unknown")
  const UNMANAGED_TYPE: Finding :=
    Found("unknown_change", "resource type is outside the reviewed governance write allowlist")
  const UNLISTED_FIELD: Finding :=
    Found("unknown_change", "one or more changed provider fields are outside the exact catalog-managed write contract")

  /** The action switch of `classifyChange`. */
  function ActionFindings(rules: Rules, r: Resource): set<Finding> {
    match r.Action()
    case Unknown => {UNRECOGNIZED}
    case Delete =>
      if r.IsReduction() then {REDUCTION}
      else if IsRetirement(rules, r) then {GOVERNED_RETIREMENT}
      else {DELETION}
    case Replace => {REPLACEMENT}
    case Forget => {FORGETTING}
    case Create => {CREATION}
    case _ => {}
  }

  predicate Sets(r: Resource) {
    r.Action() == Create || r.Action() == Update
  }

  function ActionText(r: Resource): string {
    if r.Action() == Create then "create" else "update"
  }

  /** The change keeps to the write list of its type. */
  ghost predicate KeepsToList(rules: Rules, r: Resource) {
    ChangeAllowed(rules.lists(ToLower(r.kind)), ActionText(r), r.Before(), r.After(), Field(r.change, "after_unknown"))
  }

  ghost function Findings(rules: Rules, r: Resource): set<Finding> {
    ActionFindings(rules, r) +
    (if !Sets(r) && rules.authorityUnknown(Field(r.change, "after_unknown")) then {UNKNOWN_AUTHORITY} else {}) +
    (if r.Action() == Delete && IsRetirement(rules, r) then {}
     else
       (if ToLower(r.kind) !in rules.managedTypes then {UNMANAGED_TYPE} else {}) +
       (if Sets(r) && !KeepsToList(rules, r) then {UNLISTED_FIELD} else {}) +
       rules.others(r))
  }

  function ClassesOf(findings: set<Finding>): (r: set<string>)
    ensures forall f :: f in findings ==> f.class_ in r
  {
    set f | f in findings :: f.class_
  }

  function ReasonsOf(findings: set<Finding>): (r: set<string>)
    ensures forall f :: f in findings ==> f.reason in r
    ensures r == {} <==> findings == {}
  {
    var r := set f | f in findings :: f.reason;
    assert forall f :: f in findings ==> f.reason in r;
    r
  }

  ghost function Classes(rules: Rules, r: Resource): set<string> {
    var findings := Findings(rules, r);
    if findings == {} then {"routine_write"} else ClassesOf(findings)
  }

  ghost function Reasons(rules: Rules, r: Resource): set<string> {
    ReasonsOf(Findings(rules, r))
  }

  /** `classifyChange`. */
  method ClassifyChange(rules: Rules, r: Resource) returns (classes: seq<string>, reasons: seq<string>)
    ensures classes == SortedKeys(Classes(rules, r))
    ensures reasons == SortedKeys(Reasons(rules, r))
  {
    hide *;
    var findings := FindAll(rules, r);
    classes := SortedKeys(if findings == {} then {"routine_write"} else ClassesOf(findings));
    reasons := SortedKeys(ReasonsOf(findings));
    ClassesAndReasons(rules, r);
  }

  lemma ClassesAndReasons(rules: Rules, r: Resource)
    ensures Classes(rules, r) == if Findings(rules, r) == {} then {"routine_write"} else ClassesOf(Findings(rules, r))
    ensures Reasons(rules, r) == ReasonsOf(Findings(rules, r))
  {
    hide Findings;
  }

  method FindAll(rules: Rules, r: Resource) returns (findings: set<Finding>)
    ensures findings == Findings(rules, r)
  {
    hide ActionClass, ActionFindings, ToLower, ChangeAllowed, IsRetirement;
    findings := ActionFindings(rules, r);
    if !Sets(r) && rules.authorityUnknown(Field(r.change, "after_unknown")) {
      findings := findings + {UNKNOWN_AUTHORITY};
    }
    if r.Action() == Delete && IsRetirement(rules, r) {
      return;
    }
    var name := ToLower(r.kind);
    if name !in rules.managedTypes {
      findings := findings + {UNMANAGED_TYPE};
    }
    if Sets(r) {
      var allowed := ManagedChangedFieldsAllowed(
        rules.lists(name), ActionText(r), r.Before(), r.After(), Field(r.change, "after_unknown"));
      if !allowed {
        findings := findings + {UNLISTED_FIELD};
      }
    }
    findings := findings + rules.others(r);
  }

  // ----- What the approver sees

  /** One side of a change with its sensitivity markers; JSON null is no side. */
  function SideOf(r: Resource, side: string, markers: string): Marked {
    var v := Field(r.change, side);
    Marked(if v == Null then Absent else Present(v), Field(r.change, markers))
  }

  function ViewPolicy(rules: Rules, r: Resource): Policy {
    Policy(path => rules.view.paths(r.kind, path), rules.view.names)
  }

  ghost function ChangedFields(rules: Rules, r: Resource): seq<FieldView> {
    Projection(ViewPolicy(rules, r), rules.view.digest(r.kind, Join(r.actions, ",")),
      SideOf(r, "before", "before_sensitive"), SideOf(r, "after", "after_sensitive"), rules.view.types(r.kind))
  }

  method ProjectFields(rules: Rules, r: Resource) returns (fields: seq<FieldView>)
    ensures fields == ChangedFields(rules, r)
  {
    hide Projection, SideOf, ViewPolicy, Join;
    fields := ChangedFieldProjection(
      ViewPolicy(rules, r), rules.view.digest(r.kind, Join(r.actions, ",")),
      SideOf(r, "before", "before_sensitive"), SideOf(r, "after", "after_sensitive"), rules.view.types(r.kind));
  }

  // ----- What the classes say

  /** A change without a fundamental class sets listed fields of a managed resource, or is a governed delete. */
  lemma SoundChange(rules: Rules, r: Resource)
    requires r.IsWrite() && Classes(rules, r) !! FUNDAMENTAL - {"public_visibility"}
    ensures IsGovernedDelete(rules, r) || (Sets(r) && KeepsToList(rules, r) && ToLower(r.kind) in rules.managedTypes)
  {
    hide ActionClass, ToLower, ChangeAllowed, IsRetirement;
    var findings := Findings(rules, r);
    ActionFindingsAreFindings(rules, r);
    forall f | f in findings ensures f.class_ !in FUNDAMENTAL - {"public_visibility"} {
      assert f.class_ in ClassesOf(findings);
    }
    if Sets(r) {
      assert UNLISTED_FIELD !in findings && UNMANAGED_TYPE !in findings;
    }
  }

  lemma ActionFindingsAreFindings(rules: Rules, r: Resource)
    ensures ActionFindings(rules, r) <= Findings(rules, r)
  {
    hide ActionFindings, ActionClass, ToLower, KeepsToList, IsRetirement;
  }
}
