/** `validateWorkflow` and `validateReusableCall`: checks that look at one call at a time, and exactly what
    they add to the report. */
module WorkflowChecks {
  import opened Text
  import opened Ordering
  import opened Gathering
  import opened Values
  import opened Workflows
  import opened Permissions
  import opened Reports

  datatype AuthoritySpec = AuthoritySpec(
    repository: string, revision: string, implementationRevision: string, state: string)

  datatype Authority = Authority(repository: string, revision: string, status: string, candidate: bool)

  /** What every check is given: the reviewed authorities, the checkouts admitted so far, and the checks of
      action pins (per step) and of output references (per file), which may report anything. */
  datatype Context = Context(
    specs: seq<AuthoritySpec>, checked: seq<Authority>,
    actions: (WorkflowFile, string, nat) -> seq<Violation>, outputs: (WorkflowFile, Index) -> seq<Violation>)

  // ----- One reusable call

  function PinInvalid(file: WorkflowFile, job: string, uses: string): Violation {
    Violation("REUSABLE_WORKFLOW_PIN_INVALID", file.repository, file.name, job,
      if |uses| > 256 then uses[..256] else uses, "jobs." + job + ".uses",
      "reusable workflow must use an exact 40-character commit SHA")
  }

  function CallViolation(
    code: string, file: WorkflowFile, job: string, callee: string, field: string, message: string): Violation
  {
    Violation(code, file.repository, file.name, job, callee, "jobs." + job + "." + field, message)
  }

  predicate HasSuffix(s: string, suffix: string) {
    |suffix| <= |s| && s[|s| - |suffix|..] == suffix
  }

  function AuthorityRevision(spec: AuthoritySpec): string {
    if spec.repository == ".github" then spec.implementationRevision else spec.revision
  }

  /** The first authority whose repository the reference names decides. */
  predicate SpecsMatch(reference: string, specs: seq<AuthoritySpec>) {
    if specs == [] then false
    else if !(specs[0].repository + WORKFLOW_DIRECTORY <= reference) then SpecsMatch(reference, specs[1..])
    else HasSuffix(reference, "@" + AuthorityRevision(specs[0])) && specs[0].state == "reviewed"
  }

  predicate ReferenceMatchesAuthority(reference: string, caller: WorkflowFile, specs: seq<AuthoritySpec>) {
    || (caller.repository + WORKFLOW_DIRECTORY <= reference && HasSuffix(reference, "@" + caller.revision))
    || SpecsMatch(reference, specs)
  }

  /** The part of a string before the first occurrence of a separator, or all of it. */
  function BeforeFirst(s: string, sep: string): string {
    if s == [] || sep <= s then [] else [s[0]] + BeforeFirst(s[1..], sep)
  }

  predicate ReferenceExpectedLoaded(reference: string, caller: WorkflowFile, checked: seq<Authority>) {
    var repository := BeforeFirst(reference, WORKFLOW_DIRECTORY);
    || (repository == caller.repository && HasSuffix(reference, "@" + caller.revision))
    || exists a :: a in checked && a.repository == repository && a.status == "checked" && !a.candidate
  }

  predicate InheritsSecrets(job: map<string, Json>) {
    var secrets := Field(job, "secrets");
    secrets.Str? && EqualFold(secrets.s, "inherit")
  }

  /** The two parameter blocks of a call, `with` and `secrets`. */
  datatype Block = Inputs | Secrets {
    function FieldName(): string {
      if Inputs? then "with" else "secrets"
    }

    function Label(): string {
      if Inputs? then "INPUT" else "SECRET"
    }
  }

  function Unknown(
    file: WorkflowFile, job: string, callee: string, block: Block, declared: map<string, Parameter>, name: string)
    : seq<Violation>
  {
    if name in declared then []
    else [CallViolation("REUSABLE_UNKNOWN_" + block.Label(), file, job, callee, block.FieldName() + "." + name,
      "caller supplies a field not declared by the reusable workflow")]
  }

  function Missing(
    file: WorkflowFile, job: string, callee: string, block: Block, provided: map<string, Json>,
    declared: map<string, Parameter>, name: string): seq<Violation>
  {
    if name in declared && declared[name].required && !declared[name].hasDefault && name !in provided then
      [CallViolation("REUSABLE_REQUIRED_" + block.Label() + "_MISSING", file, job, callee,
        block.FieldName() + "." + name, "caller omits a required reusable-workflow field")]
    else []
  }

  function ParameterList(
    file: WorkflowFile, job: string, callee: string, block: Block, provided: map<string, Json>,
    declared: map<string, Parameter>): seq<Violation>
  {
    Gather(SortedKeys(provided.Keys), name => Unknown(file, job, callee, block, declared, name)) +
    Gather(SortedKeys(declared.Keys), name => Missing(file, job, callee, block, provided, declared, name))
  }

  function PermissionName(level: nat): string {
    if level >= 2 then "write" else if level == 1 then "read" else "none"
  }

  function CeilingAt(
    file: WorkflowFile, job: string, callee: string, granted: Levels, required: Levels, scope: string): seq<Violation>
  {
    if Level(granted, scope) < Level(required, scope) then
      [CallViolation("REUSABLE_PERMISSION_CEILING", file, job, callee, "permissions." + scope,
        "caller permission must grant " + scope + ": " + PermissionName(Level(required, scope)))]
    else []
  }

  function CeilingList(
    file: WorkflowFile, job: string, callee: string, granted: Levels, required: Levels): seq<Violation>
  {
    Gather(SortedKeys(required.Keys), scope => CeilingAt(file, job, callee, granted, required, scope))
  }

  function SecretsList(file: WorkflowFile, job: string, callee: string): seq<Violation> {
    if InheritsSecrets(Job(file, job)) then
      [CallViolation("SECRETS_INHERIT_FORBIDDEN", file, job, callee, "secrets",
        "secrets: inherit crosses the reusable-workflow trust boundary")]
    else []
  }

  function AuthorityList(file: WorkflowFile, job: string, callee: string, context: Context): seq<Violation> {
    if ReferenceMatchesAuthority(callee, file, context.specs) then []
    else [CallViolation("REUSABLE_WORKFLOW_AUTHORITY_MISMATCH", file, job, callee, "uses",
      "reusable workflow pin does not match its reviewed authority revision")]
  }

  function UnresolvedList(file: WorkflowFile, job: string, callee: string, context: Context): seq<Violation> {
    if ReferenceExpectedLoaded(callee, file, context.checked) then
      [CallViolation("REUSABLE_WORKFLOW_UNRESOLVED", file, job, callee, "uses",
        "reusable workflow does not exist in its exact authority checkout")]
    else []
  }

  function UndeclaredViolation(file: WorkflowFile, job: string, callee: string): Violation {
    CallViolation("REUSABLE_WORKFLOW_CALL_UNDECLARED", file, job, callee, "uses",
      "referenced workflow does not declare on.workflow_call")
  }

  /** What is wrong between a job and the workflow it calls, once that workflow is known and callable. */
  ghost function InterfaceList(
    file: WorkflowFile, job: string, callee: string, target: WorkflowFile, granted: Levels): seq<Violation>
  {
    SecretsList(file, job, callee) +
    ParameterList(file, job, callee, Inputs, ObjectValue(Field(Job(file, job), "with")), target.Call().inputs) +
    ParameterList(file, job, callee, Secrets, ObjectValue(Field(Job(file, job), "secrets")), target.Call().secrets) +
    CeilingList(file, job, callee, granted, Required(target))
  }

  /** Everything `validateReusableCall` reports about one call. */
  ghost function CallList(
    file: WorkflowFile, job: string, uses: string, granted: Levels, index: Index, context: Context): seq<Violation>
  {
    match CanonicalReference(file, uses)
    case None => [PinInvalid(file, job, uses)]
    case Some(callee) =>
      AuthorityList(file, job, callee, context) +
      if callee !in index then UnresolvedList(file, job, callee, context)
      else if !index[callee].Call().enabled then [UndeclaredViolation(file, job, callee)]
      else InterfaceList(file, job, callee, index[callee], granted)
  }

  /** A report grew by the given violations, in some order. */
  ghost predicate Adds(before: seq<Violation>, after: seq<Violation>, added: seq<Violation>) {
    multiset(after) == multiset(before) + multiset(added)
  }

  lemma AddsConcat(a: seq<Violation>, b: seq<Violation>, c: seq<Violation>, xs: seq<Violation>, ys: seq<Violation>)
    requires Adds(a, b, xs) && Adds(b, c, ys)
    ensures Adds(a, c, xs + ys)
  {
  }

  lemma AddsAppended(before: seq<Violation>, added: seq<Violation>)
    ensures Adds(before, before + added, added)
  {
  }

  lemma AddsNone(before: seq<Violation>)
    ensures Adds(before, before, [])
  {
  }

  lemma AddsNothing(before: seq<Violation>, after: seq<Violation>, added: seq<Violation>)
    requires Adds(before, after, added)
    ensures |after| == |before| + |added|
  {
    assert |multiset(after)| == |after| && |multiset(before)| == |before| && |multiset(added)| == |added|;
  }

  method AppendAll(report: Report, added: seq<Violation>)
    modifies report
    ensures report.violations == old(report.violations) + added
  {
    for i := 0 to |added|
      invariant report.violations == old(report.violations) + added[..i]
    {
      report.Append(added[i]);
    }
  }

  /** A loop over sorted keys that reports what it finds at each. */
  method ReportInOrder(report: Report, keys: seq<string>, at: string -> seq<Violation>)
    modifies report
    ensures report.violations == old(report.violations) + Gather(keys, at)
  {
    hide Gather;
    ghost var visited: seq<string> := [];
    GatherIsEmpty(visited, at);
    for i := 0 to |keys|
      invariant visited == keys[..i]
      invariant report.violations == old(report.violations) + Gather(visited, at)
    {
      GatherOne(visited, keys[i], at);
      AppendAll(report, at(keys[i]));
      visited := visited + [keys[i]];
    }
    assert visited == keys;
  }

  /** A loop over the keys of a map, which come in any order. */
  method ReportInAnyOrder(report: Report, keys: set<string>, at: string -> seq<Violation>)
    modifies report
    ensures Adds(old(report.violations), report.violations, Gather(SortedKeys(keys), at))
  {
    hide Gather;
    ghost var visited: seq<string> := [];
    var remaining := keys;
    GatherIsEmpty(visited, at);
    while remaining != {}
      invariant remaining <= keys
      invariant forall k :: k in visited <==> k in keys && k !in remaining
      invariant forall i, j :: 0 <= i < j < |visited| ==> visited[i] != visited[j]
      invariant report.violations == old(report.violations) + Gather(visited, at)
      decreases remaining
    {
      var k :| k in remaining;
      GatherOne(visited, k, at);
      AppendAll(report, at(k));
      visited := visited + [k];
      remaining := remaining - {k};
    }
    var sorted := SortedKeys(keys);
    IncreasingIsDistinct(sorted);
    ListingsAgree(visited, sorted);
    GatherForgetsOrder(visited, sorted, at);
  }

  /** `validateParameters`: first what the caller supplies, then what the callee requires, by name. */
  method ValidateParameters(
    file: WorkflowFile, job: string, callee: string, block: Block, provided: map<string, Json>,
    declared: map<string, Parameter>, report: Report)
    modifies report
    ensures report.violations ==
      old(report.violations) + ParameterList(file, job, callee, block, provided, declared)
  {
    hide Unknown, Missing, Gather;
    ReportInOrder(report, SortedKeys(provided.Keys), name => Unknown(file, job, callee, block, declared, name));
    ReportInOrder(
      report, SortedKeys(declared.Keys), name => Missing(file, job, callee, block, provided, declared, name));
  }

  method ValidateInterface(
    file: WorkflowFile, job: string, callee: string, target: WorkflowFile, granted: Levels, report: Report)
    modifies report
    ensures Adds(old(report.violations), report.violations, InterfaceList(file, job, callee, target, granted))
  {
    hide InheritsSecrets, SecretsList, ParameterList, CeilingAt, Gather, Required, IsJoin;
    AppendAll(report, SecretsList(file, job, callee));
    ValidateParameters(
      file, job, callee, Inputs, ObjectValue(Field(Job(file, job), "with")), target.Call().inputs, report);
    ValidateParameters(
      file, job, callee, Secrets, ObjectValue(Field(Job(file, job), "secrets")), target.Call().secrets, report);
    var required := RequiredPermissions(target);
    ReportInAnyOrder(report, required.Keys, scope => CeilingAt(file, job, callee, granted, required, scope));
  }

  /** `validateReusableCall`. */
  method ValidateReusableCall(
    file: WorkflowFile, job: string, uses: string, granted: Levels, index: Index, context: Context, report: Report)
    modifies report
    ensures Adds(old(report.violations), report.violations, CallList(file, job, uses, granted, index, context))
  {
    hide PinInvalid, AuthorityList, UnresolvedList, UndeclaredViolation, InterfaceList, CanonicalReference;
    var reference := CanonicalReference(file, uses);
    if reference.None? {
      report.Append(PinInvalid(file, job, uses));
      return;
    }
    var callee := reference.value;
    AppendAll(report, AuthorityList(file, job, callee, context));
    if callee !in index {
      AppendAll(report, UnresolvedList(file, job, callee, context));
    } else if !index[callee].Call().enabled {
      report.Append(UndeclaredViolation(file, job, callee));
    } else {
      ghost var before := report.violations;
      ValidateInterface(file, job, callee, index[callee], granted, report);
      AddsConcat(old(report.violations), before, report.violations,
        AuthorityList(file, job, callee, context), InterfaceList(file, job, callee, index[callee], granted));
    }
  }

  // ----- One workflow

  /** `validateSemanticPermissions` cuts an action reference at its last at sign. */
  function ActionPath(uses: string): string {
    var at := LastIndex(uses, '@');
    if at > 0 then uses[..at] else uses
  }

  function SemanticAt(
    file: WorkflowFile, job: string, field: string, granted: Levels, required: Levels, scope: string): seq<Violation>
  {
    if Level(granted, scope) < Level(required, scope) then
      [Violation("SEMANTIC_PERMISSION_MISSING", file.repository, file.name, job, "", field,
        "action requires " + scope + ": " + PermissionName(Level(required, scope)))]
    else []
  }

  function StepField(job: string, i: nat): string {
    "jobs." + job + ".steps[" + Itoa(i) + "].uses"
  }

  function StepNeeds(file: WorkflowFile, job: string, i: nat): Levels
    requires i < |Steps(file, job)|
  {
    var step := Steps(file, job)[i];
    if StepUses(step) == "" then map[] else SemanticPermissions(ActionPath(StepUses(step)), step)
  }

  function ActionList(file: WorkflowFile, job: string, i: nat, context: Context): seq<Violation>
    requires i < |Steps(file, job)|
  {
    if StepUses(Steps(file, job)[i]) == "" then [] else context.actions(file, job, i)
  }

  function NeedsList(file: WorkflowFile, job: string, i: nat): seq<Violation>
    requires i < |Steps(file, job)|
  {
    Gather(SortedKeys(StepNeeds(file, job, i).Keys),
      scope => SemanticAt(file, job, StepField(job, i), JobPermissions(file, job), StepNeeds(file, job, i), scope))
  }

  function StepList(file: WorkflowFile, job: string, i: nat, context: Context): seq<Violation> {
    if i < |Steps(file, job)| then ActionList(file, job, i, context) + NeedsList(file, job, i) else []
  }

  function Upto(n: nat): (r: seq<nat>)
    ensures |r| == n && forall i :: 0 <= i < n ==> r[i] == i
  {
    seq(n, i requires 0 <= i < n => i)
  }

  ghost function JobList(file: WorkflowFile, job: string, index: Index, context: Context): seq<Violation> {
    (if Uses(file, job) == "" then []
     else CallList(file, job, Uses(file, job), JobPermissions(file, job), index, context)) +
    Gather(Upto(|Steps(file, job)|), (i: nat) => StepList(file, job, i, context))
  }

  ghost function JobsList(file: WorkflowFile, index: Index, context: Context): seq<Violation> {
    Gather(SortedKeys(Jobs(file).Keys), job => JobList(file, job, index, context))
  }

  /** Everything `validateWorkflow` reports about one file. */
  ghost function WorkflowList(file: WorkflowFile, index: Index, context: Context): seq<Violation> {
    JobsList(file, index, context) + context.outputs(file, index)
  }

  /** One step: its action pin, then `validateSemanticPermissions` over the required scopes in any order. */
  method ValidateStep(file: WorkflowFile, job: string, i: nat, context: Context, report: Report)
    requires i < |Steps(file, job)|
    modifies report
    ensures Adds(old(report.violations), report.violations, StepList(file, job, i, context))
  {
    hide Gather, SemanticAt, StepNeeds, JobPermissions, Steps, StepField;
    AppendAll(report, ActionList(file, job, i, context));
    ghost var before := report.violations;
    ReportInAnyOrder(report, StepNeeds(file, job, i).Keys,
      scope => SemanticAt(file, job, StepField(job, i), JobPermissions(file, job), StepNeeds(file, job, i), scope));
    AddsConcat(old(report.violations), before, report.violations,
      ActionList(file, job, i, context), NeedsList(file, job, i));
  }

  method ValidateSteps(file: WorkflowFile, job: string, context: Context, report: Report)
    modifies report
    ensures Adds(old(report.violations), report.violations,
      Gather(Upto(|Steps(file, job)|), (i: nat) => StepList(file, job, i, context)))
  {
    hide Gather, StepList, Steps, Adds;
    AddsNone(report.violations);
    ghost var at := (i: nat) => StepList(file, job, i, context);
    ghost var visited: seq<nat> := [];
    GatherIsEmpty(visited, at);
    for i := 0 to |Steps(file, job)|
      invariant visited == Upto(i)
      invariant Adds(old(report.violations), report.violations, Gather(visited, at))
    {
      ghost var before := report.violations;
      ValidateStep(file, job, i, context, report);
      AddsConcat(
        old(report.violations), before, report.violations, Gather(visited, at), StepList(file, job, i, context));
      GatherOne<nat, Violation>(visited, i, at);
      visited := visited + [i];
    }
  }

  method ValidateJob(file: WorkflowFile, job: string, index: Index, context: Context, report: Report)
    modifies report
    ensures Adds(old(report.violations), report.violations, JobList(file, job, index, context))
  {
    hide Gather, StepList, CallList, JobPermissions, Uses, Steps, Adds;
    AddsNone(report.violations);
    if Uses(file, job) != "" {
      ValidateReusableCall(file, job, Uses(file, job), JobPermissions(file, job), index, context, report);
    }
    ghost var before := report.violations;
    ValidateSteps(file, job, context, report);
    AddsConcat(old(report.violations), before, report.violations,
      if Uses(file, job) == "" then []
      else CallList(file, job, Uses(file, job), JobPermissions(file, job), index, context),
      Gather(Upto(|Steps(file, job)|), (i: nat) => StepList(file, job, i, context)));
  }

  /** The loop over jobs of `validateWorkflow`. */
  method ValidateJobs(file: WorkflowFile, index: Index, context: Context, report: Report)
    modifies report
    ensures Adds(old(report.violations), report.violations, JobsList(file, index, context))
  {
    hide Gather, JobList, Adds;
    AddsNone(report.violations);
    ghost var at := job => JobList(file, job, index, context);
    ghost var visited: seq<string> := [];
    GatherIsEmpty(visited, at);
    var jobs := SortedKeys(Jobs(file).Keys);
    for i := 0 to |jobs|
      invariant visited == jobs[..i]
      invariant Adds(old(report.violations), report.violations, Gather(visited, at))
    {
      ghost var before := report.violations;
      ValidateJob(file, jobs[i], index, context, report);
      AddsConcat(
        old(report.violations), before, report.violations, Gather(visited, at), JobList(file, jobs[i], index, context));
      GatherOne(visited, jobs[i], at);
      visited := visited + [jobs[i]];
    }
    assert visited == jobs;
  }

  /** `validateWorkflow`. */
  method ValidateWorkflow(file: WorkflowFile, index: Index, context: Context, report: Report)
    modifies report
    ensures Adds(old(report.violations), report.violations, WorkflowList(file, index, context))
  {
    hide JobsList, Adds;
    ValidateJobs(file, index, context, report);
    ghost var before := report.violations;
    AppendAll(report, context.outputs(file, index));
    AddsAppended(before, context.outputs(file, index));
    AddsConcat(old(report.violations), before, report.violations,
      JobsList(file, index, context), context.outputs(file, index));
  }
}
