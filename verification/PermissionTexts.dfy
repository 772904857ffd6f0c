/** Token permissions by the texts of the workflows: what a job's own text grants, and what the text of a
    workflow asks of its callers. */
module PermissionTexts {
  import opened Text
  import opened Values
  import opened Workflows
  import opened Permissions
  import opened WorkflowChecks
  import opened WorkflowContract

  /** The permissions text that governs a job: its own, or the file's when the job has none. */
  function GoverningText(file: WorkflowFile, job: string): Json {
    var jobs := Field(file.root, "jobs");
    if jobs.Obj? && job in jobs.fields && jobs.fields[job].Obj? && "permissions" in jobs.fields[job].fields
    then jobs.fields[job].fields["permissions"]
    else Field(file.root, "permissions")
  }

  /** A permissions text gives an access, `read` or `write`, to a scope: by name, or by shorthand. */
  ghost predicate Says(text: Json, scope: string, access: string) {
    || (text.Obj? && scope in text.fields && text.fields[scope] == Str(access))
    || (text == Str(access + "-all") && scope in {
         "actions", "attestations", "checks", "contents", "deployments", "id-token", "issues", "packages",
         "pull-requests", "security-events", "statuses"})
  }

  ghost function LevelSaid(text: Json, scope: string): nat {
    if Says(text, scope, "write") then 2 else if Says(text, scope, "read") then 1 else 0
  }

  lemma ParseExactly(text: Json, scope: string)
    ensures Level(Parse(text), scope) == LevelSaid(text, scope)
  {
  }

  /** A job has a level in a scope exactly when its governing text says so. */
  lemma JobGrantsExactly(file: WorkflowFile, job: string, scope: string)
    requires job in Jobs(file)
    ensures Level(JobPermissions(file, job), scope) == LevelSaid(GoverningText(file, job), scope)
  {
    hide Parse, LevelSaid;
    ParseExactly(GoverningText(file, job), scope);
  }

  // ----- Steps

  /** What an action is known to need, by its path and its inputs. */
  ghost predicate ActionNeeds(path: string, inputs: Json, scope: string, access: string) {
    || (path == "google-github-actions/auth" && scope == "id-token" && access == "write")
    || (path == "github/codeql-action/upload-sarif" && scope == "security-events" && access == "write")
    || (path == "github/codeql-action/analyze" && scope == "security-events" && access == "write" &&
        !(inputs.Obj? && "upload" in inputs.fields && inputs.fields["upload"] == Str("never")))
    || (path == "actions/attest-build-provenance" && scope in {"id-token", "attestations"} && access == "write")
    || (path == "actions/download-artifact" && scope == "actions" && access == "read" &&
        inputs.Obj? && "run-id" in inputs.fields)
  }

  ghost function LevelNeeded(path: string, inputs: Json, scope: string): nat {
    if ActionNeeds(path, inputs, scope, "write") then 2
    else if ActionNeeds(path, inputs, scope, "read") then 1 else 0
  }

  lemma SemanticExactly(path: string, step: Json, scope: string)
    ensures Level(SemanticPermissions(path, step), scope) ==
      LevelNeeded(path, Field(ObjectValue(step), "with"), scope)
  {
  }

  /** The i-th step of a job has these fields. */
  ghost predicate StepSays(file: WorkflowFile, job: string, i: nat, step: Fields) {
    && "jobs" in file.root && file.root["jobs"].Obj?
    && var jobs := file.root["jobs"].fields;
       && job in jobs && jobs[job].Obj? && "steps" in jobs[job].fields && jobs[job].fields["steps"].Arr?
       && var steps := jobs[job].fields["steps"].items;
          i < |steps| && steps[i] == Obj(step)
  }

  /** A step uses an action at some reference. */
  ghost predicate StepUsesAction(step: Fields, path: string, reference: string) {
    Field(step, "uses") == Str(path + "@" + reference) && '@' !in path && '@' !in reference && path != ""
  }

  lemma StepIs(file: WorkflowFile, job: string, i: nat, step: Fields)
    requires StepSays(file, job, i, step)
    ensures job in Jobs(file) && i < |Steps(file, job)| && Steps(file, job)[i] == Obj(step)
  {
  }

  /** Both cuts of an action reference, at its first and at its last at sign, leave the path. */
  lemma BothCutsLeavePath(step: Fields, path: string, reference: string)
    requires StepUsesAction(step, path, reference)
    ensures StepUses(Obj(step)) != ""
    ensures Split(StepUses(Obj(step)), '@')[0] == path == ActionPath(StepUses(Obj(step)))
  {
    SplitAtSeparator(path, reference, '@');
    LastIndexOfTail(path, '@', reference);
  }

  lemma StepPermissionsExactly(step: Fields, path: string, reference: string, scope: string)
    requires StepUsesAction(step, path, reference)
    ensures Level(StepPermissions(Obj(step)), scope) == LevelNeeded(path, Field(step, "with"), scope)
  {
    hide SemanticPermissions, LevelNeeded, ActionPath;
    BothCutsLeavePath(step, path, reference);
    SemanticExactly(path, Obj(step), scope);
  }

  // ----- What a caller must grant

  /** The text of a workflow asks for an access to a scope: by default, in a job, or for a known action. */
  ghost predicate Asks(file: WorkflowFile, scope: string, access: string) {
    || Says(Field(file.root, "permissions"), scope, access)
    || (exists job :: job in Jobs(file) && Says(GoverningText(file, job), scope, access))
    || (exists job, i: nat, step, path, reference ::
          StepSays(file, job, i, step) && StepUsesAction(step, path, reference) &&
          ActionNeeds(path, Field(step, "with"), scope, access))
  }

  lemma RequiredCovers(file: WorkflowFile, p: Levels, scope: string)
    requires p in Contributions(file)
    ensures Level(Required(file), scope) >= Level(p, scope)
  {
    hide Contributions;
    assert Dominates(Required(file), p);
  }

  /** What the text asks for is required. */
  lemma AskedIsRequired(file: WorkflowFile, scope: string, access: string)
    requires Asks(file, scope, access) && access in {"read", "write"}
    ensures Level(Required(file), scope) >= if access == "write" then 2 else 1
  {
    hide Required, Parse, JobPermissions, Says, ActionNeeds, StepPermissions, StepSays, StepUsesAction, GoverningText;
    if Says(Field(file.root, "permissions"), scope, access) {
      ParseExactly(Field(file.root, "permissions"), scope);
      RequiredCovers(file, TopPermissions(file), scope);
    } else if job :| job in Jobs(file) && Says(GoverningText(file, job), scope, access) {
      JobGrantsExactly(file, job, scope);
      assert JobPermissions(file, job) in JobContributions(file, job);
      RequiredCovers(file, JobPermissions(file, job), scope);
    } else {
      var job, i: nat, step, path, reference :| StepSays(file, job, i, step) && StepUsesAction(step, path, reference) &&
        ActionNeeds(path, Field(step, "with"), scope, access);
      StepIs(file, job, i, step);
      StepPermissionsExactly(step, path, reference, scope);
      assert StepPermissions(Steps(file, job)[i]) in JobContributions(file, job);
      RequiredCovers(file, StepPermissions(Obj(step)), scope);
    }
  }

  /** After an empty report, whatever the text of a workflow asks for, at the end of any chain of calls, the
      text that governs the outermost job gives. */
  lemma CeilingByText(
    files: seq<WorkflowFile>, context: Context, file: WorkflowFile, job: string, rest: seq<string>,
    target: WorkflowFile, scope: string)
    requires forall f :: f in files ==> Clean(f, IndexOf(files), context)
    requires file in files && Reaches(IndexOf(files), file, job, rest, target)
    ensures Asks(target, scope, "write") ==> Says(GoverningText(file, job), scope, "write")
    ensures Asks(target, scope, "read") ==>
      Says(GoverningText(file, job), scope, "read") || Says(GoverningText(file, job), scope, "write")
  {
    hide Clean, Required, IndexOf, JobPermissions, Says, Asks, GoverningText;
    EmptyReportIsCeiling(files, context, file, job, rest, target);
    JobGrantsExactly(file, job, scope);
    if Asks(target, scope, "write") {
      AskedIsRequired(target, scope, "write");
    }
    if Asks(target, scope, "read") {
      AskedIsRequired(target, scope, "read");
    }
  }

  /** After an empty report, the text that governs a job gives what each of its own steps needs. */
  lemma StepsByText(
    files: seq<WorkflowFile>, context: Context, file: WorkflowFile, job: string, i: nat, step: Fields,
    path: string, reference: string, scope: string)
    requires forall f :: f in files ==> Clean(f, IndexOf(files), context)
    requires file in files && StepSays(file, job, i, step) && StepUsesAction(step, path, reference)
    ensures LevelSaid(GoverningText(file, job), scope) >= LevelNeeded(path, Field(step, "with"), scope)
  {
    hide Clean, IndexOf, JobPermissions, Says, GoverningText, SemanticPermissions, LevelNeeded, LevelSaid, ActionPath,
      StepSays, StepUsesAction, Steps, NeedsList, StepUses;
    CleanMeans(file, IndexOf(files), context);
    StepIs(file, job, i, step);
    CleanGrantsSteps(file, job, i);
    BothCutsLeavePath(step, path, reference);
    SemanticExactly(path, Obj(step), scope);
    JobGrantsExactly(file, job, scope);
    assert StepNeeds(file, job, i) == SemanticPermissions(path, Obj(step));
  }
}
