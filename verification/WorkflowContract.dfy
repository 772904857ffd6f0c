/** `Validate`: every file, then the cycles, then the sorted report; and what an empty report means
    for whole call chains. */
module WorkflowContract {
  import opened Wrappers
  import opened Text
  import opened Ordering
  import opened Gathering
  import opened Values
  import opened Workflows
  import opened CallGraph
  import opened Permissions
  import opened Reports
  import opened CycleSearch
  import opened WorkflowChecks

  function KeyOf(file: WorkflowFile): string {
    WorkflowKey(file.repository, file.name, file.revision)
  }

  /** The index of a list of files: a later file replaces an earlier one under the same key. */
  function IndexOf(files: seq<WorkflowFile>): Index {
    if files == [] then map[]
    else
      var last := files[|files| - 1];
      IndexOf(files[..|files| - 1])[KeyOf(last) := last]
  }

  /** `indexWorkflows`. */
  method IndexWorkflows(files: seq<WorkflowFile>) returns (index: Index)
    ensures index == IndexOf(files)
  {
    hide WorkflowKey;
    index := map[];
    for n := 0 to |files|
      invariant index == IndexOf(files[..n])
    {
      assert files[..n + 1][..n] == files[..n];
      index := index[KeyOf(files[n]) := files[n]];
    }
    assert files[..|files|] == files;
  }

  /** A file's key is its repository, its name and its revision. */
  lemma KeyOfIsText(file: WorkflowFile)
    ensures KeyOf(file) == KeyText(file.repository, file.name, file.revision)
  {
  }

  /** Every file is found under its key, every entry is a listed file under its own key, and the last file
      under a key is the one that is found. */
  lemma {:induction false} IndexHoldsFiles(files: seq<WorkflowFile>)
    ensures forall f :: f in files ==> KeyOf(f) in IndexOf(files)
    ensures forall k :: k in IndexOf(files) ==> IndexOf(files)[k] in files && KeyOf(IndexOf(files)[k]) == k
    ensures forall i :: 0 <= i < |files| && (forall j :: i < j < |files| ==> KeyOf(files[j]) != KeyOf(files[i])) ==>
      KeyOf(files[i]) in IndexOf(files) && IndexOf(files)[KeyOf(files[i])] == files[i]
    decreases |files|
  {
    hide WorkflowKey, KeyOf;
    if files != [] {
      var n := |files| - 1;
      var front := files[..n];
      IndexHoldsFiles(front);
      assert files == front + [files[n]];
      forall i | 0 <= i < n && forall j :: i < j < |files| ==> KeyOf(files[j]) != KeyOf(files[i])
        ensures KeyOf(files[i]) in IndexOf(files) && IndexOf(files)[KeyOf(files[i])] == files[i]
      {
        assert front[i] == files[i];
        forall j | i < j < |front| ensures KeyOf(front[j]) != KeyOf(front[i]) {
          assert front[j] == files[j];
        }
        assert KeyOf(files[n]) != KeyOf(files[i]);
      }
    }
  }

  /** The checks of calls found nothing in the file. */
  ghost predicate CallsClean(file: WorkflowFile, index: Index, context: Context) {
    forall job :: job in Jobs(file) && Uses(file, job) != "" ==> CallClean(file, job, index, context)
  }

  ghost predicate CallClean(file: WorkflowFile, job: string, index: Index, context: Context) {
    CallList(file, job, Uses(file, job), JobPermissions(file, job), index, context) == []
  }

  /** No local check found anything in the file. */
  ghost predicate Clean(file: WorkflowFile, index: Index, context: Context) {
    WorkflowList(file, index, context) == []
  }

  // ----- From local checks to whole chains

  lemma CleanJob(file: WorkflowFile, job: string, index: Index, context: Context)
    requires Clean(file, index, context) && job in Jobs(file)
    ensures JobList(file, job, index, context) == []
  {
    hide Gather, JobList, Jobs;
    var jobs := SortedKeys(Jobs(file).Keys);
    assert JobsList(file, index, context) == [];
    GatherIsEmpty(jobs, j => JobList(file, j, index, context));
    assert job in jobs;
  }

  lemma CleanStep(file: WorkflowFile, job: string, i: nat, index: Index, context: Context)
    requires JobList(file, job, index, context) == [] && i < |Steps(file, job)|
    ensures NeedsList(file, job, i) == []
  {
    hide CallList, Gather, NeedsList, ActionList, Uses, Steps;
    var steps := Upto(|Steps(file, job)|);
    GatherIsEmpty(steps, (n: nat) => StepList(file, job, n, context));
    assert steps[i] == i;
    assert i in steps && StepList(file, job, i, context) == [];
  }

  /** No violation at all means none of calls and none of steps. */
  lemma CleanMeans(file: WorkflowFile, index: Index, context: Context)
    requires Clean(file, index, context)
    ensures CallsClean(file, index, context)
    ensures forall job, i :: job in Jobs(file) && 0 <= i < |Steps(file, job)| ==> NeedsList(file, job, i) == []
  {
    hide Clean, CallList, Gather, NeedsList, Uses, Steps, Jobs, StepList;
    forall job | job in Jobs(file) && Uses(file, job) != "" ensures CallClean(file, job, index, context) {
      CleanJob(file, job, index, context);
    }
    forall job, i | job in Jobs(file) && 0 <= i < |Steps(file, job)| ensures NeedsList(file, job, i) == [] {
      CleanJob(file, job, index, context);
      CleanStep(file, job, i, index, context);
    }
  }

  lemma CleanCall(file: WorkflowFile, job: string, callee: string, index: Index, context: Context)
    requires CallsClean(file, index, context) && job in Jobs(file) && Callee(index, file, job) == Some(callee)
    ensures index[callee].Call().enabled
    ensures InterfaceList(file, job, callee, index[callee], JobPermissions(file, job)) == []
  {
    hide CanonicalReference, JobPermissions, InterfaceList, AuthorityList, UnresolvedList, UndeclaredViolation, Gather;
    EmptyUsesCallsNothing(file);
    assert CallClean(file, job, index, context);
  }

  lemma EmptyUsesCallsNothing(file: WorkflowFile)
    ensures CanonicalReference(file, "") == None
  {
    assert |LOCAL_PREFIX| > 0;
  }

  lemma CleanGrantsRequired(
    file: WorkflowFile, job: string, callee: string, target: WorkflowFile, granted: Levels)
    requires InterfaceList(file, job, callee, target, granted) == []
    ensures Dominates(granted, Required(target))
  {
    hide SecretsList, ParameterList, Required, IsJoin, Gather;
    var required := Required(target);
    var scopes := SortedKeys(required.Keys);
    GatherIsEmpty(scopes, scope => CeilingAt(file, job, callee, granted, required, scope));
    forall scope | scope in required ensures Level(granted, scope) >= required[scope] {
      assert scope in scopes && CeilingAt(file, job, callee, granted, required, scope) == [];
    }
  }

  /** A call passes exactly declared parameters, omits none that is required, and does not inherit secrets. */
  lemma CleanPassesParameters(
    file: WorkflowFile, job: string, callee: string, target: WorkflowFile, granted: Levels)
    requires InterfaceList(file, job, callee, target, granted) == []
    ensures !InheritsSecrets(Job(file, job))
    ensures var given := ObjectValue(Field(Job(file, job), "with"));
      given.Keys <= target.Call().inputs.Keys &&
      forall name :: name in target.Call().inputs && name !in given ==>
        !target.Call().inputs[name].required || target.Call().inputs[name].hasDefault
    ensures var given := ObjectValue(Field(Job(file, job), "secrets"));
      given.Keys <= target.Call().secrets.Keys &&
      forall name :: name in target.Call().secrets && name !in given ==>
        !target.Call().secrets[name].required || target.Call().secrets[name].hasDefault
  {
    hide InheritsSecrets, ParameterList, CeilingList, Required, IsJoin;
    EmptyParameterList(
      file, job, callee, Inputs, ObjectValue(Field(Job(file, job), "with")), target.Call().inputs);
    EmptyParameterList(
      file, job, callee, Secrets, ObjectValue(Field(Job(file, job), "secrets")), target.Call().secrets);
  }

  lemma EmptyParameterList(
    file: WorkflowFile, job: string, callee: string, block: Block, provided: map<string, Json>,
    declared: map<string, Parameter>)
    ensures ParameterList(file, job, callee, block, provided, declared) == [] <==>
      && provided.Keys <= declared.Keys
      && forall name :: name in declared && name !in provided ==>
           !declared[name].required || declared[name].hasDefault
  {
    hide Gather, Unknown, Missing;
    var given, wanted := SortedKeys(provided.Keys), SortedKeys(declared.Keys);
    var unknownAt := name => Unknown(file, job, callee, block, declared, name);
    var missingAt := name => Missing(file, job, callee, block, provided, declared, name);
    GatherIsEmpty(given, unknownAt);
    GatherIsEmpty(wanted, missingAt);
    forall name | name in given ensures unknownAt(name) == [] <==> name in declared {
      UnknownIsEmpty(file, job, callee, block, declared, name);
    }
    forall name | name in wanted
      ensures missingAt(name) == [] <==> !declared[name].required || declared[name].hasDefault || name in provided
    {
      MissingIsEmpty(file, job, callee, block, provided, declared, name);
    }
  }

  lemma UnknownIsEmpty(
    file: WorkflowFile, job: string, callee: string, block: Block, declared: map<string, Parameter>, name: string)
    ensures Unknown(file, job, callee, block, declared, name) == [] <==> name in declared
  {
    hide CallViolation;
  }

  lemma MissingIsEmpty(
    file: WorkflowFile, job: string, callee: string, block: Block, provided: map<string, Json>,
    declared: map<string, Parameter>, name: string)
    ensures Missing(file, job, callee, block, provided, declared, name) == [] <==>
      name !in declared || !declared[name].required || declared[name].hasDefault || name in provided
  {
    hide CallViolation;
  }

  /** Following the calls of `job` and then of the listed jobs, one after another, leads to `target`. */
  ghost predicate Reaches(index: Index, file: WorkflowFile, job: string, rest: seq<string>, target: WorkflowFile)
    decreases |rest|
  {
    && job in Jobs(file)
    && Callee(index, file, job).Some?
    && var next := index[Callee(index, file, job).value];
       if rest == [] then target == next else Reaches(index, next, rest[0], rest[1..], target)
  }

  /** The checks look at one call at a time, yet they bound whole chains: a job that (through any number of
      calls) reaches a workflow grants, scope by scope, everything that workflow requires. */
  lemma {:induction false} PermissionCeiling(
    index: Index, context: Context, file: WorkflowFile, job: string, rest: seq<string>, target: WorkflowFile)
    requires CallsClean(file, index, context) && forall k :: k in index ==> CallsClean(index[k], index, context)
    requires Reaches(index, file, job, rest, target)
    ensures Dominates(JobPermissions(file, job), Required(target))
    decreases |rest|
  {
    hide Callee, CallsClean, Required, JobPermissions, InterfaceList, IsJoin, Dominates;
    var callee := Callee(index, file, job).value;
    var next := index[callee];
    CleanCall(file, job, callee, index, context);
    CleanGrantsRequired(file, job, callee, next, JobPermissions(file, job));
    if rest != [] {
      PermissionCeiling(index, context, next, rest[0], rest[1..], target);
      RequiredCoversJobs(next, rest[0]);
      DominatesIsTransitive(JobPermissions(file, job), Required(next), JobPermissions(next, rest[0]));
      DominatesIsTransitive(JobPermissions(file, job), JobPermissions(next, rest[0]), Required(target));
    }
  }

  lemma RequiredCoversJobs(file: WorkflowFile, job: string)
    requires job in Jobs(file)
    ensures Dominates(Required(file), JobPermissions(file, job))
  {
    hide JobPermissions, TopPermissions, StepPermissions, Dominates, Required;
    assert JobPermissions(file, job) in JobContributions(file, job);
    assert JobPermissions(file, job) in Contributions(file);
  }

  /** Each job also grants what its own steps are known to need. */
  lemma CleanGrantsSteps(file: WorkflowFile, job: string, i: nat)
    requires i < |Steps(file, job)| && NeedsList(file, job, i) == []
    ensures Dominates(JobPermissions(file, job), StepNeeds(file, job, i))
  {
    hide Gather, JobPermissions, StepNeeds, Steps, StepField;
    var granted, needs := JobPermissions(file, job), StepNeeds(file, job, i);
    GatherIsEmpty(SortedKeys(needs.Keys), scope => SemanticAt(file, job, StepField(job, i), granted, needs, scope));
    forall scope | scope in needs ensures Level(granted, scope) >= needs[scope] {
      assert SemanticAt(file, job, StepField(job, i), granted, needs, scope) == [];
    }
  }

  // ----- The sorted report

  const NUL: string := "\0"

  function ViolationParts(v: Violation): seq<string> {
    [v.repository, v.workflow, v.job, v.code, v.callee, v.field, v.message]
  }

  function ViolationKey(v: Violation): string {
    Text.Join(ViolationParts(v), NUL)
  }

  /** `sortReport` on violations. */
  method SortReport(report: Report)
    modifies report
    ensures report.violations == SortBy(ViolationKey, old(report.violations))
    ensures SortedBy(ViolationKey, report.violations)
    ensures multiset(report.violations) == multiset(old(report.violations))
  {
    SortByIsSortedPermutation(ViolationKey, report.violations);
    report.violations := SortBy(ViolationKey, report.violations);
  }

  predicate NoNul(v: Violation) {
    forall part :: part in ViolationParts(v) ==> '\0' !in part
  }

  lemma KeyTellsViolationsApart(v: Violation, w: Violation)
    requires NoNul(v) && NoNul(w) && ViolationKey(v) == ViolationKey(w)
    ensures v == w
  {
    SplitUndoesJoin(ViolationParts(v), '\0');
    SplitUndoesJoin(ViolationParts(w), '\0');
    assert ViolationParts(v) == ViolationParts(w);
    assert forall i :: 0 <= i < 7 ==> ViolationParts(v)[i] == ViolationParts(w)[i];
  }

  /** A report is ordered by repository, then workflow, job, code, callee, field and message: the first of
      these in which two violations differ decides. */
  lemma KeyOrdersByFields(v: Violation, w: Violation, i: nat)
    requires NoNul(v) && NoNul(w) && i < 7
    requires var left, right :=
        [v.repository, v.workflow, v.job, v.code, v.callee, v.field, v.message],
        [w.repository, w.workflow, w.job, w.code, w.callee, w.field, w.message];
      left[..i] == right[..i] && Less(left[i], right[i])
    ensures Less(ViolationKey(v), ViolationKey(w))
  {
    assert forall j :: 0 <= j < 7 ==> ViolationParts(w)[j] in ViolationParts(w);
    JoinOrders(ViolationParts(v), ViolationParts(w), i);
  }

  lemma SortedReportIsDetermined(report: seq<Violation>, expected: seq<Violation>)
    requires multiset(report) == multiset(expected) && forall v :: v in expected ==> NoNul(v)
    ensures SortBy(ViolationKey, report) == SortBy(ViolationKey, expected)
  {
    hide ViolationKey, NoNul, SortBy;
    forall v, w | v in multiset(expected) && w in multiset(expected) && ViolationKey(v) == ViolationKey(w)
      ensures v == w
    {
      assert v in expected && w in expected;
      KeyTellsViolationsApart(v, w);
    }
    SortForgetsOrder(ViolationKey, expected, report);
  }

  // ----- The whole run

  /** Everything the local checks report about all files. */
  ghost function FilesList(files: seq<WorkflowFile>, index: Index, context: Context): seq<Violation> {
    Gather(files, file => WorkflowList(file, index, context))
  }

  lemma FilesListIsEmpty(files: seq<WorkflowFile>, index: Index, context: Context)
    ensures FilesList(files, index, context) == [] <==> forall f :: f in files ==> Clean(f, index, context)
  {
    hide WorkflowList, Gather;
    GatherIsEmpty(files, file => WorkflowList(file, index, context));
  }

  method ValidateEach(files: seq<WorkflowFile>, index: Index, context: Context, report: Report)
    modifies report
    ensures Adds(old(report.violations), report.violations, FilesList(files, index, context))
  {
    hide Adds, WorkflowList, Gather;
    ghost var at := file => WorkflowList(file, index, context);
    ghost var visited: seq<WorkflowFile> := [];
    GatherIsEmpty(visited, at);
    AddsNone(report.violations);
    for n := 0 to |files|
      invariant visited == files[..n]
      invariant Adds(old(report.violations), report.violations, Gather(visited, at))
    {
      ghost var before := report.violations;
      ValidateWorkflow(files[n], index, context, report);
      AddsConcat(old(report.violations), before, report.violations,
        Gather(visited, at), WorkflowList(files[n], index, context));
      GatherOne(visited, files[n], at);
      visited := visited + [files[n]];
    }
    assert visited == files;
  }

  /** What a whole run reports, in the order of the checks: what loading reported, the local checks of every
      file, and the cycles. */
  ghost function Expected(initial: seq<Violation>, files: seq<WorkflowFile>, context: Context): seq<Violation>
    requires AllLassos(IndexOf(files), TrailsOf(IndexOf(files)))
  {
    initial + FilesList(files, IndexOf(files), context) + CycleViolations(IndexOf(files), TrailsOf(IndexOf(files)))
  }

  /** `Validate` after loading: all local checks, then the cycle search, then the sort. The report holds
      exactly what is expected, and (unless a text holds a NUL character) in exactly one order, whatever
      order maps are iterated in. */
  method ValidateFiles(initial: seq<Violation>, files: seq<WorkflowFile>, context: Context) returns (report: Report)
    ensures AllLassos(IndexOf(files), TrailsOf(IndexOf(files)))
    ensures SortedBy(ViolationKey, report.violations)
    ensures multiset(report.violations) == multiset(Expected(initial, files, context))
    ensures (forall v :: v in Expected(initial, files, context) ==> NoNul(v)) ==>
      report.violations == SortBy(ViolationKey, Expected(initial, files, context))
    ensures report.violations == [] <==>
      initial == [] && (forall f :: f in files ==> Clean(f, IndexOf(files), context)) && !HasCycle(IndexOf(files))
    ensures CallEachOther(IndexOf(files)) ==> report.violations != []
  {
    hide SortBy, SortedBy, ViolationKey, NoNul, Clean, IndexOf, HasCycle, Valid, CycleViolations, FilesList, TrailsOf,
      Adds, CallEachOther;
    report := new Report();
    AppendAll(report, initial);
    assert [] + initial == initial;
    var index := IndexWorkflows(files);
    ValidateEach(files, index, context, report);
    var search := new Search(index, report);
    search.Run();
    ValidMeansLassos(index, search.Now());
    RunAdds(initial, search.base, FilesList(files, index, context), CycleViolations(index, TrailsOf(index)));
    FilesListIsEmpty(files, index, context);
    ghost var found := report.violations;
    assert Expected(initial, files, context) ==
      initial + FilesList(files, index, context) + CycleViolations(index, TrailsOf(index));
    SortReport(report);
    if forall v :: v in Expected(initial, files, context) ==> NoNul(v) {
      SortedReportIsDetermined(found, Expected(initial, files, context));
    }
    SameSize(report.violations, found);
    if CallEachOther(index) {
      CallingEachOtherIsCycle(index);
    }
  }

  lemma SameSize(xs: seq<Violation>, ys: seq<Violation>)
    requires multiset(xs) == multiset(ys)
    ensures |xs| == |ys|
  {
    assert |multiset(xs)| == |multiset(ys)|;
  }

  lemma ValidMeansLassos(index: Index, p: Progress)
    requires Valid(index, p)
    ensures AllLassos(index, p.trails)
  {
    hide ColoursValid, StackValid, FollowedValid, AllLassos, Ranked;
  }

  lemma RunAdds(initial: seq<Violation>, base: seq<Violation>, local: seq<Violation>, cycles: seq<Violation>)
    requires Adds(initial, base, local)
    ensures multiset(base + cycles) == multiset(initial + local + cycles)
    ensures base == [] <==> initial == [] && local == []
  {
    AddsNothing(initial, base, local);
  }

  /** An empty report bounds every chain of calls that starts in any validated file. */
  lemma EmptyReportIsCeiling(
    files: seq<WorkflowFile>, context: Context, file: WorkflowFile, job: string, rest: seq<string>,
    target: WorkflowFile)
    requires forall f :: f in files ==> Clean(f, IndexOf(files), context)
    requires file in files && Reaches(IndexOf(files), file, job, rest, target)
    ensures Dominates(JobPermissions(file, job), Required(target))
  {
    hide Clean, CallsClean, Reaches, Dominates, KeyOf, IndexOf;
    IndexHoldsFiles(files);
    forall f | f in files ensures CallsClean(f, IndexOf(files), context) {
      CleanMeans(f, IndexOf(files), context);
    }
    PermissionCeiling(IndexOf(files), context, file, job, rest, target);
  }
}
