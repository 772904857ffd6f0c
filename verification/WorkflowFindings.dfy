/** What a run reports, finding by finding, by the texts of the workflows. */
module WorkflowFindings {
  import opened Wrappers
  import opened Text
  import opened Ordering
  import opened Gathering
  import opened Values
  import opened Workflows
  import opened CallGraph
  import opened Permissions
  import opened PermissionTexts
  import opened Reports
  import opened CycleSearch
  import opened WorkflowChecks
  import opened WorkflowContract

  /** A finding about a job, in the report's own words. */
  function Finding(file: WorkflowFile, job: string, callee: string, code: string, field: string, message: string)
    : Violation
  {
    Violation(code, file.repository, file.name, job, callee, "jobs." + job + field, message)
  }

  // ----- References

  /** A key belongs to a repository at a revision, as far as its two ends show. */
  ghost predicate Bears(key: string, repository: string, revision: string) {
    repository + "/.github/workflows/" <= key && exists head :: key == head + ("@" + revision)
  }

  /** The key is the caller's own, or the first authority it begins with is reviewed at the key's revision. */
  ghost predicate Authorized(key: string, caller: WorkflowFile, specs: seq<AuthoritySpec>) {
    || Bears(key, caller.repository, caller.revision)
    || exists i :: IsAuthority(key, specs, i) && specs[i].state == "reviewed" &&
         Bears(key, specs[i].repository,
           if specs[i].repository == ".github" then specs[i].implementationRevision else specs[i].revision)
  }

  ghost predicate IsAuthority(key: string, specs: seq<AuthoritySpec>, i: int) {
    0 <= i < |specs| && specs[i].repository + "/.github/workflows/" <= key &&
    forall j :: 0 <= j < i ==> !(specs[j].repository + "/.github/workflows/" <= key)
  }

  lemma HasSuffixExactly(s: string, suffix: string)
    ensures HasSuffix(s, suffix) <==> exists head :: s == head + suffix
  {
    if HasSuffix(s, suffix) {
      assert s == s[..|s| - |suffix|] + suffix;
    }
    if head :| s == head + suffix {
      assert s[|head|..] == suffix;
    }
  }

  lemma {:induction false} SpecsMatchExactly(key: string, specs: seq<AuthoritySpec>)
    ensures SpecsMatch(key, specs) <==>
      exists i :: IsAuthority(key, specs, i) && specs[i].state == "reviewed" &&
        HasSuffix(key, "@" +
          if specs[i].repository == ".github" then specs[i].implementationRevision else specs[i].revision)
  {
    hide HasSuffix;
    if specs != [] {
      var rest := specs[1..];
      SpecsMatchExactly(key, rest);
      if specs[0].repository + WORKFLOW_DIRECTORY <= key {
        assert IsAuthority(key, specs, 0);
      } else {
        forall i | 0 <= i < |rest| ensures IsAuthority(key, rest, i) <==> IsAuthority(key, specs, i + 1) {
          assert rest[i] == specs[i + 1];
          if IsAuthority(key, rest, i) {
            forall j | 0 <= j < i + 1 ensures !(specs[j].repository + "/.github/workflows/" <= key) {
              assert j > 0 ==> specs[j] == rest[j - 1];
            }
          }
          if IsAuthority(key, specs, i + 1) {
            forall j | 0 <= j < i ensures !(rest[j].repository + "/.github/workflows/" <= key) {
              assert rest[j] == specs[j + 1];
            }
          }
        }
        forall i | IsAuthority(key, specs, i)
          ensures i > 0 && IsAuthority(key, rest, i - 1) && rest[i - 1] == specs[i]
        {
        }
      }
    }
  }

  lemma AuthorizedExactly(key: string, caller: WorkflowFile, specs: seq<AuthoritySpec>)
    ensures ReferenceMatchesAuthority(key, caller, specs) <==> Authorized(key, caller, specs)
  {
    hide SpecsMatch, HasSuffix;
    SpecsMatchExactly(key, specs);
    forall suffix ensures HasSuffix(key, suffix) <==> exists head :: key == head + suffix {
      HasSuffixExactly(key, suffix);
    }
  }

  /** The repository a key names: what stands before the workflow directory where that first occurs. */
  ghost predicate IsRepositoryOf(key: string, repository: string) {
    repository + "/.github/workflows/" <= key &&
    forall k :: 0 <= k < |repository| ==> !("/.github/workflows/" <= key[k..])
  }

  lemma {:induction false} BeforeFirstExactly(s: string, sep: string, n: nat)
    requires n <= |s| && sep != [] && sep <= s[n..]
    ensures |BeforeFirst(s, sep)| <= n && BeforeFirst(s, sep) <= s && sep <= s[|BeforeFirst(s, sep)|..]
    ensures forall k :: 0 <= k < |BeforeFirst(s, sep)| ==> !(sep <= s[k..])
    decreases n
  {
    if sep <= s {
      assert s[0..] == s;
    } else {
      assert s[0..] == s && s[1..][n - 1..] == s[n..];
      BeforeFirstExactly(s[1..], sep, n - 1);
      OneFurther(s, sep, BeforeFirst(s[1..], sep));
    }
  }

  lemma OneFurther(s: string, sep: string, rest: string)
    requires s != [] && !(sep <= s) && rest <= s[1..] && sep <= s[1..][|rest|..]
    requires forall k :: 0 <= k < |rest| ==> !(sep <= s[1..][k..])
    ensures [s[0]] + rest <= s && sep <= s[1 + |rest|..]
    ensures forall k :: 0 <= k < 1 + |rest| ==> !(sep <= s[k..])
  {
    assert s == [s[0]] + s[1..];
    assert s[1..][|rest|..] == s[1 + |rest|..];
    forall k | 0 <= k < 1 + |rest| ensures !(sep <= s[k..]) {
      if k > 0 {
        assert s[k..] == s[1..][k - 1..];
      } else {
        assert s[0..] == s;
      }
    }
  }

  lemma PrefixAt(key: string, head: string, sep: string)
    ensures head + sep <= key <==> head <= key && sep <= key[|head|..]
  {
    if head + sep <= key {
      assert key[..|head|] == (head + sep)[..|head|] == head;
      assert key[|head|..][..|sep|] == (head + sep)[|head|..] == sep;
    }
  }

  lemma RepositoryOfKey(key: string, repository: string, n: nat)
    requires n <= |key| && "/.github/workflows/" <= key[n..]
    ensures repository == BeforeFirst(key, WORKFLOW_DIRECTORY) <==> IsRepositoryOf(key, repository)
  {
    hide BeforeFirst;
    var sep := WORKFLOW_DIRECTORY;
    BeforeFirstExactly(key, sep, n);
    var first := BeforeFirst(key, sep);
    PrefixAt(key, first, sep);
    PrefixAt(key, repository, sep);
    if IsRepositoryOf(key, repository) {
      assert repository <= key && sep <= key[|repository|..];
      assert |first| >= |repository|;
      assert |repository| >= |first|;
      assert first == key[..|first|] && repository == key[..|repository|];
    }
  }

  /** The callee should have been loaded: it is the caller's own, or of a repository whose authority was
      checked and is no candidate. */
  ghost predicate ShouldBeLoaded(key: string, caller: WorkflowFile, checked: seq<Authority>) {
    exists repository :: IsRepositoryOf(key, repository) &&
      ((repository == caller.repository && exists head :: key == head + ("@" + caller.revision)) ||
       exists a :: a in checked && a.repository == repository && a.status == "checked" && !a.candidate)
  }

  lemma ShouldBeLoadedExactly(key: string, caller: WorkflowFile, checked: seq<Authority>, n: nat)
    requires n <= |key| && "/.github/workflows/" <= key[n..]
    ensures ReferenceExpectedLoaded(key, caller, checked) <==> ShouldBeLoaded(key, caller, checked)
  {
    hide BeforeFirst, HasSuffix, IsRepositoryOf;
    HasSuffixExactly(key, "@" + caller.revision);
    forall repository
      ensures repository == BeforeFirst(key, WORKFLOW_DIRECTORY) <==> IsRepositoryOf(key, repository)
    {
      RepositoryOfKey(key, repository, n);
    }
    var repository := BeforeFirst(key, WORKFLOW_DIRECTORY);
    assert IsRepositoryOf(key, repository);
  }

  // ----- One call

  /** The secrets of a job are the word `inherit`, in whatever case. */
  ghost predicate SaysInherit(fields: Fields) {
    "secrets" in fields && fields["secrets"].Str? &&
    IsSpelled(fields["secrets"].s,
      [{'i', 'I'}, {'n', 'N'}, {'h', 'H'}, {'e', 'E'}, {'r', 'R'}, {'i', 'I'}, {'t', 'T'}])
  }

  lemma InheritsExactly(job: Fields)
    ensures InheritsSecrets(job) <==> SaysInherit(job)
  {
    hide EqualFold;
    if "secrets" in job && job["secrets"].Str? {
      EqualFoldInherit(job["secrets"].s);
    }
  }

  /** What is wrong with a parameter block of a call, in either direction. */
  ghost predicate BlockFinds(
    file: WorkflowFile, job: string, callee: string, field: string, kind: string, provided: Json,
    declared: map<string, Parameter>, v: Violation)
  {
    || (exists name :: provided.Obj? && name in provided.fields && name !in declared &&
          v == Finding(file, job, callee, "REUSABLE_UNKNOWN_" + kind, "." + field + "." + name,
                 "caller supplies a field not declared by the reusable workflow"))
    || (exists name :: name in declared && declared[name].required && !declared[name].hasDefault &&
          !(provided.Obj? && name in provided.fields) &&
          v == Finding(file, job, callee, "REUSABLE_REQUIRED_" + kind + "_MISSING", "." + field + "." + name,
                 "caller omits a required reusable-workflow field"))
  }

  /** What is wrong between a job and the callable workflow it calls. */
  ghost predicate InterfaceFinds(
    file: WorkflowFile, job: string, fields: Fields, callee: string, target: WorkflowFile, text: Json,
    v: Violation)
  {
    || (SaysInherit(fields) && v == Finding(file, job, callee, "SECRETS_INHERIT_FORBIDDEN", ".secrets",
          "secrets: inherit crosses the reusable-workflow trust boundary"))
    || BlockFinds(file, job, callee, "with", "INPUT", Field(fields, "with"), target.Call().inputs, v)
    || BlockFinds(file, job, callee, "secrets", "SECRET", Field(fields, "secrets"), target.Call().secrets, v)
    || (exists scope, access :: LevelSaid(text, scope) < Level(Required(target), scope) &&
          IsAccess(Level(Required(target), scope), access) &&
          v == Finding(file, job, callee, "REUSABLE_PERMISSION_CEILING", ".permissions." + scope,
                 "caller permission must grant " + scope + ": " + access))
  }

  /** The word for a level above none. */
  ghost predicate IsAccess(level: nat, access: string) {
    (level == 1 && access == "read") || (level >= 2 && access == "write")
  }

  /** What is wrong with a call that spells a key. */
  ghost predicate KeyFinds(
    file: WorkflowFile, job: string, fields: Fields, key: string, text: Json, index: Index, context: Context,
    v: Violation)
  {
    || (!Authorized(key, file, context.specs) &&
        v == Finding(file, job, key, "REUSABLE_WORKFLOW_AUTHORITY_MISMATCH", ".uses",
               "reusable workflow pin does not match its reviewed authority revision"))
    || (key !in index && ShouldBeLoaded(key, file, context.checked) &&
        v == Finding(file, job, key, "REUSABLE_WORKFLOW_UNRESOLVED", ".uses",
               "reusable workflow does not exist in its exact authority checkout"))
    || (key in index && !index[key].Call().enabled &&
        v == Finding(file, job, key, "REUSABLE_WORKFLOW_CALL_UNDECLARED", ".uses",
               "referenced workflow does not declare on.workflow_call"))
    || (key in index && index[key].Call().enabled &&
        InterfaceFinds(file, job, fields, key, index[key], text, v))
  }

  /** What is wrong with a call. */
  ghost predicate CallFinds(
    file: WorkflowFile, job: string, fields: Fields, uses: string, text: Json, index: Index, context: Context,
    v: Violation)
  {
    || ((forall repository, name, revision :: !Spells(file, uses, repository, name, revision)) &&
        v == Finding(file, job, if |uses| > 256 then uses[..256] else uses, "REUSABLE_WORKFLOW_PIN_INVALID", ".uses",
               "reusable workflow must use an exact 40-character commit SHA"))
    || (exists repository, name, revision :: Spells(file, uses, repository, name, revision) &&
          KeyFinds(file, job, fields, KeyText(repository, name, revision), text, index, context, v))
  }

  lemma FieldIs(file: WorkflowFile, job: string, callee: string, code: string, field: string, message: string)
    ensures CallViolation(code, file, job, callee, field, message) ==
      Finding(file, job, callee, code, "." + field, message)
  {
    assert "jobs." + job + "." + field == "jobs." + job + ("." + field);
  }

  lemma BlockExactly(
    file: WorkflowFile, job: string, callee: string, block: Block, provided: Json, declared: map<string, Parameter>,
    v: Violation)
    ensures v in ParameterList(file, job, callee, block, ObjectValue(provided), declared) <==>
      BlockFinds(file, job, callee, if block.Inputs? then "with" else "secrets",
        if block.Inputs? then "INPUT" else "SECRET", provided, declared, v)
  {
    hide Gather, Finding, Unknown, Missing;
    var given := ObjectValue(provided);
    InGather(SortedKeys(given.Keys), name => Unknown(file, job, callee, block, declared, name), v);
    InGather(SortedKeys(declared.Keys), name => Missing(file, job, callee, block, given, declared, name), v);
    forall name
      ensures v in Unknown(file, job, callee, block, declared, name) <==>
        name !in declared && v == Finding(file, job, callee, "REUSABLE_UNKNOWN_" + block.Label(),
          "." + block.FieldName() + "." + name, "caller supplies a field not declared by the reusable workflow")
    {
      UnknownExactly(file, job, callee, block, declared, name, v);
    }
    forall name
      ensures v in Missing(file, job, callee, block, given, declared, name) <==>
        name in declared && declared[name].required && !declared[name].hasDefault && name !in given &&
        v == Finding(file, job, callee, "REUSABLE_REQUIRED_" + block.Label() + "_MISSING",
          "." + block.FieldName() + "." + name, "caller omits a required reusable-workflow field")
    {
      MissingExactly(file, job, callee, block, given, declared, name, v);
    }
  }

  lemma UnknownExactly(
    file: WorkflowFile, job: string, callee: string, block: Block, declared: map<string, Parameter>, name: string,
    v: Violation)
    ensures v in Unknown(file, job, callee, block, declared, name) <==>
      name !in declared && v == Finding(file, job, callee, "REUSABLE_UNKNOWN_" + block.Label(),
        "." + block.FieldName() + "." + name, "caller supplies a field not declared by the reusable workflow")
  {
    hide CallViolation, Finding, Block.Label, Block.FieldName;
    FieldIs(file, job, callee, "REUSABLE_UNKNOWN_" + block.Label(), block.FieldName() + "." + name,
      "caller supplies a field not declared by the reusable workflow");
    assert "." + (block.FieldName() + "." + name) == "." + block.FieldName() + "." + name;
  }

  lemma MissingExactly(
    file: WorkflowFile, job: string, callee: string, block: Block, given: Fields, declared: map<string, Parameter>,
    name: string, v: Violation)
    ensures v in Missing(file, job, callee, block, given, declared, name) <==>
      name in declared && declared[name].required && !declared[name].hasDefault && name !in given &&
      v == Finding(file, job, callee, "REUSABLE_REQUIRED_" + block.Label() + "_MISSING",
        "." + block.FieldName() + "." + name, "caller omits a required reusable-workflow field")
  {
    hide CallViolation, Finding, Block.Label, Block.FieldName;
    FieldIs(file, job, callee, "REUSABLE_REQUIRED_" + block.Label() + "_MISSING", block.FieldName() + "." + name,
      "caller omits a required reusable-workflow field");
    assert "." + (block.FieldName() + "." + name) == "." + block.FieldName() + "." + name;
  }

  /** The levels are those a permissions text gives. */
  ghost predicate AreSaid(granted: Levels, text: Json) {
    forall scope :: Level(granted, scope) == LevelSaid(text, scope)
  }

  lemma CeilingAtExactly(
    file: WorkflowFile, job: string, callee: string, granted: Levels, required: Levels, scope: string, v: Violation)
    ensures v in CeilingAt(file, job, callee, granted, required, scope) <==>
      Level(granted, scope) < Level(required, scope) &&
      v == Finding(file, job, callee, "REUSABLE_PERMISSION_CEILING", ".permissions." + scope,
        "caller permission must grant " + scope + ": " + PermissionName(Level(required, scope)))
  {
    hide Finding, CallViolation;
    FieldIs(file, job, callee, "REUSABLE_PERMISSION_CEILING", "permissions." + scope,
      "caller permission must grant " + scope + ": " + PermissionName(Level(required, scope)));
    assert "." + ("permissions." + scope) == ".permissions." + scope;
  }

  lemma AccessIs(level: nat, access: string)
    requires level > 0
    ensures IsAccess(level, access) <==> access == PermissionName(level)
  {
  }

  lemma CeilingExactly(
    file: WorkflowFile, job: string, callee: string, granted: Levels, text: Json, target: WorkflowFile, v: Violation)
    requires AreSaid(granted, text)
    ensures v in CeilingList(file, job, callee, granted, Required(target)) <==>
      exists scope, access :: LevelSaid(text, scope) < Level(Required(target), scope) &&
        IsAccess(Level(Required(target), scope), access) &&
        v == Finding(file, job, callee, "REUSABLE_PERMISSION_CEILING", ".permissions." + scope,
               "caller permission must grant " + scope + ": " + access)
  {
    hide Gather, Finding, CeilingAt, LevelSaid, Required, IsJoin, IsAccess, PermissionName;
    var required := Required(target);
    InGather(SortedKeys(required.Keys), scope => CeilingAt(file, job, callee, granted, required, scope), v);
    if v in CeilingList(file, job, callee, granted, required) {
      var scope :| scope in required && v in CeilingAt(file, job, callee, granted, required, scope);
      CeilingAtExactly(file, job, callee, granted, required, scope, v);
      AccessIs(Level(required, scope), PermissionName(Level(required, scope)));
    }
    if scope, access :|
      && LevelSaid(text, scope) < Level(required, scope) && IsAccess(Level(required, scope), access)
      && v == Finding(file, job, callee, "REUSABLE_PERMISSION_CEILING", ".permissions." + scope,
                "caller permission must grant " + scope + ": " + access)
    {
      AccessIs(Level(required, scope), access);
      CeilingAtExactly(file, job, callee, granted, required, scope, v);
      assert scope in SortedKeys(required.Keys);
    }
  }

  lemma SecretsExactly(file: WorkflowFile, job: string, callee: string, fields: Fields, v: Violation)
    requires fields == Job(file, job)
    ensures v in SecretsList(file, job, callee) <==>
      SaysInherit(fields) &&
      v == Finding(file, job, callee, "SECRETS_INHERIT_FORBIDDEN", ".secrets",
             "secrets: inherit crosses the reusable-workflow trust boundary")
  {
    hide InheritsSecrets, SaysInherit, Job, CallViolation, Finding;
    InheritsExactly(fields);
    FieldIs(file, job, callee, "SECRETS_INHERIT_FORBIDDEN", "secrets",
      "secrets: inherit crosses the reusable-workflow trust boundary");
    assert "." + "secrets" == ".secrets";
  }

  lemma InterfaceExactly(
    file: WorkflowFile, job: string, fields: Fields, callee: string, target: WorkflowFile, granted: Levels, text: Json,
    v: Violation)
    requires fields == Job(file, job) && AreSaid(granted, text)
    ensures v in InterfaceList(file, job, callee, target, granted) <==>
      InterfaceFinds(file, job, fields, callee, target, text, v)
  {
    hide SecretsList, ParameterList, CeilingList, BlockFinds, SaysInherit, Job, Finding, Required, IsAccess, AreSaid,
      LevelSaid, IsJoin;
    SecretsExactly(file, job, callee, fields, v);
    BlockExactly(file, job, callee, Inputs, Field(fields, "with"), target.Call().inputs, v);
    BlockExactly(file, job, callee, Secrets, Field(fields, "secrets"), target.Call().secrets, v);
    CeilingExactly(file, job, callee, granted, text, target, v);
  }

  lemma KeyExactly(
    file: WorkflowFile, job: string, fields: Fields, key: string, n: nat, granted: Levels, text: Json, index: Index,
    context: Context, v: Violation)
    requires fields == Job(file, job) && AreSaid(granted, text)
    requires n <= |key| && "/.github/workflows/" <= key[n..]
    ensures
      v in AuthorityList(file, job, key, context) +
        (if key !in index then UnresolvedList(file, job, key, context)
         else if !index[key].Call().enabled then [UndeclaredViolation(file, job, key)]
         else InterfaceList(file, job, key, index[key], granted)) <==>
      KeyFinds(file, job, fields, key, text, index, context, v)
  {
    hide Authorized, ShouldBeLoaded, ReferenceMatchesAuthority, ReferenceExpectedLoaded, InterfaceList, InterfaceFinds,
      Job, CallViolation, Finding, AreSaid;
    AuthorizedExactly(key, file, context.specs);
    ShouldBeLoadedExactly(key, file, context.checked, n);
    assert "." + "uses" == ".uses";
    FieldIs(file, job, key, "REUSABLE_WORKFLOW_AUTHORITY_MISMATCH", "uses",
      "reusable workflow pin does not match its reviewed authority revision");
    FieldIs(file, job, key, "REUSABLE_WORKFLOW_UNRESOLVED", "uses",
      "reusable workflow does not exist in its exact authority checkout");
    FieldIs(file, job, key, "REUSABLE_WORKFLOW_CALL_UNDECLARED", "uses",
      "referenced workflow does not declare on.workflow_call");
    if key in index {
      InterfaceExactly(file, job, fields, key, index[key], granted, text, v);
    }
  }

  /** A call is judged by what its text spells. */
  lemma CallExactly(
    file: WorkflowFile, job: string, fields: Fields, uses: string, granted: Levels, text: Json, index: Index,
    context: Context, v: Violation)
    requires fields == Job(file, job) && AreSaid(granted, text)
    ensures v in CallList(file, job, uses, granted, index, context) <==>
      CallFinds(file, job, fields, uses, text, index, context, v)
  {
    hide CanonicalReference, Spells, KeyText, KeyFinds, AuthorityList, UnresolvedList, UndeclaredViolation,
      InterfaceList, Job, AreSaid;
    forall key
      ensures CanonicalReference(file, uses) == Some(key) <==>
        exists r, n, v :: Spells(file, uses, r, n, v) && key == KeyText(r, n, v)
    {
      ReferenceExactly(file, uses, key);
    }
    if CanonicalReference(file, uses).Some? {
      var key := CanonicalReference(file, uses).value;
      var r, n, w :| Spells(file, uses, r, n, w) && key == KeyText(r, n, w);
      DirectoryInKey(r, n, w);
      KeyExactly(file, job, fields, key, |r|, granted, text, index, context, v);
      forall r', n', w' | Spells(file, uses, r', n', w') ensures KeyText(r', n', w') == key {
        assert CanonicalReference(file, uses) == Some(KeyText(r', n', w'));
      }
    } else {
      forall r, n, w ensures !Spells(file, uses, r, n, w) {
        assert CanonicalReference(file, uses) != Some(KeyText(r, n, w));
      }
      PinInvalidIs(file, job, uses);
    }
  }

  lemma PinInvalidIs(file: WorkflowFile, job: string, uses: string)
    ensures PinInvalid(file, job, uses) ==
      Finding(file, job, if |uses| > 256 then uses[..256] else uses, "REUSABLE_WORKFLOW_PIN_INVALID", ".uses",
        "reusable workflow must use an exact 40-character commit SHA")
  {
  }

  lemma DirectoryInKey(repository: string, name: string, revision: string)
    ensures |repository| <= |KeyText(repository, name, revision)|
    ensures "/.github/workflows/" <= KeyText(repository, name, revision)[|repository|..]
  {
    var key := KeyText(repository, name, revision);
    assert key[|repository|..] == "/.github/workflows/" + (name + "@" + revision);
  }

  // ----- One file

  /** A job of the file and its fields. */
  ghost predicate JobIs(file: WorkflowFile, job: string, fields: Fields) {
    "jobs" in file.root && file.root["jobs"].Obj? && job in file.root["jobs"].fields &&
    file.root["jobs"].fields[job] == Obj(fields)
  }

  /** The path of an action reference: what stands before its last at sign, unless that is its first character. */
  ghost predicate IsActionPath(uses: string, path: string) {
    || (path != "" && exists reference :: '@' !in reference && uses == path + "@" + reference)
    || (path == uses && uses != "" && '@' !in uses[1..])
  }

  lemma ActionPathExactly(uses: string, path: string)
    requires uses != ""
    ensures path == ActionPath(uses) <==> IsActionPath(uses, path)
  {
    var at := LastIndex(uses, '@');
    if at > 0 {
      assert uses == uses[..at] + "@" + uses[at + 1..];
      assert uses[1..][at - 1] == '@';
    } else {
      assert '@' !in uses[1..] by {
        if at == -1 {
          assert uses[0..] == uses;
          assert forall i :: 0 <= i < |uses[1..]| ==> uses[1..][i] == uses[i + 1];
        }
      }
    }
    if reference :| '@' !in reference && path != "" && uses == path + "@" + reference {
      LastIndexOfTail(path, '@', reference);
    }
  }

  /** What is missing for the i-th step of a job. */
  ghost predicate StepFinds(file: WorkflowFile, job: string, i: nat, step: Fields, v: Violation) {
    exists uses, path, scope, access ::
      Field(step, "uses") == Str(uses) && IsActionPath(uses, path) &&
      ActionNeeds(path, Field(step, "with"), scope, access) &&
      LevelSaid(GoverningText(file, job), scope) < (if access == "write" then 2 else 1) &&
      v == Finding(file, job, "", "SEMANTIC_PERMISSION_MISSING", ".steps[" + Itoa(i) + "].uses",
             "action requires " + scope + ": " + access)
  }

  lemma SemanticAtExactly(
    file: WorkflowFile, job: string, i: nat, needs: Levels, scope: string, v: Violation)
    requires job in Jobs(file)
    ensures v in SemanticAt(file, job, StepField(job, i), JobPermissions(file, job), needs, scope) <==>
      LevelSaid(GoverningText(file, job), scope) < Level(needs, scope) &&
      v == Finding(file, job, "", "SEMANTIC_PERMISSION_MISSING", ".steps[" + Itoa(i) + "].uses",
        "action requires " + scope + ": " + PermissionName(Level(needs, scope)))
  {
    hide Finding, Jobs, JobPermissions, GoverningText, Itoa, LevelSaid, StepField;
    JobGrantsExactly(file, job, scope);
    StepFieldIs(file, job, i, scope, PermissionName(Level(needs, scope)));
  }

  lemma NeedsExactly(file: WorkflowFile, job: string, i: nat, step: Fields, v: Violation)
    requires job in Jobs(file) && i < |Steps(file, job)| && Steps(file, job)[i] == Obj(step)
    ensures v in NeedsList(file, job, i) <==> StepFinds(file, job, i, step, v)
  {
    hide Gather, Finding, Jobs, Steps, JobPermissions, GoverningText, SemanticPermissions, ActionNeeds, ActionPath,
      IsActionPath, Itoa, LevelSaid, SemanticAt, LevelNeeded, PermissionName, StepField;
    var needs, uses, inputs := StepNeeds(file, job, i), StringValue(Field(step, "uses")), Field(step, "with");
    InGather(SortedKeys(needs.Keys),
      scope => SemanticAt(file, job, StepField(job, i), JobPermissions(file, job), needs, scope), v);
    if v in NeedsList(file, job, i) {
      var scope :| scope in needs &&
        v in SemanticAt(file, job, StepField(job, i), JobPermissions(file, job), needs, scope);
      ActionPathExactly(uses, ActionPath(uses));
      SemanticAtExactly(file, job, i, needs, scope, v);
      SemanticExactly(ActionPath(uses), Obj(step), scope);
      AccessNeeded(ActionPath(uses), inputs, scope, PermissionName(Level(needs, scope)));
    }
    if uses', path, scope, access :|
      && Field(step, "uses") == Str(uses') && IsActionPath(uses', path) && ActionNeeds(path, inputs, scope, access)
      && LevelSaid(GoverningText(file, job), scope) < (if access == "write" then 2 else 1)
      && v == Finding(file, job, "", "SEMANTIC_PERMISSION_MISSING", ".steps[" + Itoa(i) + "].uses",
                "action requires " + scope + ": " + access)
    {
      ActionPathIsGiven(uses', path);
      ActionPathExactly(uses, path);
      AccessNeeded(path, inputs, scope, access);
      SemanticExactly(path, Obj(step), scope);
      SemanticAtExactly(file, job, i, needs, scope, v);
      assert scope in SortedKeys(needs.Keys);
    }
  }

  lemma ActionPathIsGiven(uses: string, path: string)
    requires IsActionPath(uses, path)
    ensures uses != ""
  {
  }

  lemma StepFieldIs(file: WorkflowFile, job: string, i: nat, scope: string, access: string)
    ensures Violation("SEMANTIC_PERMISSION_MISSING", file.repository, file.name, job, "", StepField(job, i),
        "action requires " + scope + ": " + access) ==
      Finding(file, job, "", "SEMANTIC_PERMISSION_MISSING", ".steps[" + Itoa(i) + "].uses",
        "action requires " + scope + ": " + access)
  {
    assert StepField(job, i) == "jobs." + job + (".steps[" + Itoa(i) + "].uses");
  }

  lemma AccessNeeded(path: string, inputs: Json, scope: string, access: string)
    ensures ActionNeeds(path, inputs, scope, access) <==>
      LevelNeeded(path, inputs, scope) > 0 && access == PermissionName(LevelNeeded(path, inputs, scope))
    ensures ActionNeeds(path, inputs, scope, access) ==>
      LevelNeeded(path, inputs, scope) == if access == "write" then 2 else 1
  {
    assert "read" != "write";
  }

  /** The i-th step of a job uses something, and the check of its pin or of its needs finds something. */
  ghost predicate JobStepFinds(
    file: WorkflowFile, job: string, fields: Fields, i: nat, context: Context, v: Violation)
  {
    "steps" in fields && fields["steps"].Arr? && i < |fields["steps"].items| &&
    UsingStepFinds(file, job, i, fields["steps"].items[i], context, v)
  }

  ghost predicate UsingStepFinds(file: WorkflowFile, job: string, i: nat, step: Json, context: Context, v: Violation) {
    step.Obj? && (exists uses :: Field(step.fields, "uses") == Str(uses) && uses != "") &&
    (v in context.actions(file, job, i) || StepFinds(file, job, i, step.fields, v))
  }

  lemma StepListExactly(file: WorkflowFile, job: string, fields: Fields, i: nat, context: Context, v: Violation)
    requires job in Jobs(file) && fields == Job(file, job)
    ensures v in StepList(file, job, i, context) <==> JobStepFinds(file, job, fields, i, context, v)
  {
    hide NeedsList, StepFinds;
    if i < |Steps(file, job)| {
      var step := Steps(file, job)[i];
      if step.Obj? {
        NeedsExactly(file, job, i, step.fields, v);
      }
      UselessStepNeedsNothing(file, job, i);
    }
  }

  lemma UselessStepNeedsNothing(file: WorkflowFile, job: string, i: nat)
    requires i < |Steps(file, job)|
    ensures StepUses(Steps(file, job)[i]) == "" ==> NeedsList(file, job, i) == []
  {
    assert SortedKeys({}) == [];
  }

  /** What is wrong with a job. */
  ghost predicate JobFinds(file: WorkflowFile, job: string, index: Index, context: Context, v: Violation) {
    exists fields :: JobIs(file, job, fields) &&
      ((exists uses :: Field(fields, "uses") == Str(uses) && uses != "" &&
          CallFinds(file, job, fields, uses, GoverningText(file, job), index, context, v)) ||
       (exists i: nat :: JobStepFinds(file, job, fields, i, context, v)))
  }

  lemma StepsExactly(file: WorkflowFile, job: string, fields: Fields, context: Context, v: Violation)
    requires job in Jobs(file) && fields == Job(file, job)
    ensures v in Gather(Upto(|Steps(file, job)|), (i: nat) => StepList(file, job, i, context)) <==>
      exists i: nat :: JobStepFinds(file, job, fields, i, context, v)
  {
    hide Gather, StepList, JobStepFinds, Job, Jobs;
    var steps, at := Upto(|Steps(file, job)|), (i: nat) => StepList(file, job, i, context);
    InGather(steps, at, v);
    if v in Gather(steps, at) {
      var i :| i in steps && v in at(i);
      StepListExactly(file, job, fields, i, context, v);
    }
    if i: nat :| JobStepFinds(file, job, fields, i, context, v) {
      StepListExactly(file, job, fields, i, context, v);
      StepIsListed(file, job, i, context, v);
      assert steps[i] == i;
      assert v in at(i);
    }
  }

  lemma StepIsListed(file: WorkflowFile, job: string, i: nat, context: Context, v: Violation)
    requires v in StepList(file, job, i, context)
    ensures i < |Steps(file, job)|
  {
    hide Steps, ActionList, NeedsList;
  }

  lemma JobExactly(file: WorkflowFile, job: string, index: Index, context: Context, v: Violation)
    requires job in Jobs(file)
    ensures v in JobList(file, job, index, context) <==> JobFinds(file, job, index, context, v)
  {
    hide Gather, StepList, JobStepFinds, CallList, CallFinds, JobPermissions, GoverningText, Level, LevelSaid;
    var fields, uses, text := Job(file, job), Uses(file, job), GoverningText(file, job);
    forall scope ensures Level(JobPermissions(file, job), scope) == LevelSaid(text, scope) {
      JobGrantsExactly(file, job, scope);
    }
    CallExactly(file, job, fields, uses, JobPermissions(file, job), text, index, context, v);
    StepsExactly(file, job, fields, context, v);
    if !JobIs(file, job, fields) {
      assert fields == map[];
      NoFieldsNoSteps(file, job, context, v);
    }
  }

  lemma NoFieldsNoSteps(file: WorkflowFile, job: string, context: Context, v: Violation)
    ensures forall i: nat :: !JobStepFinds(file, job, map[], i, context, v)
  {
  }

  /** What is wrong with a file: with its jobs, or with its output references. */
  ghost predicate FileFinds(file: WorkflowFile, index: Index, context: Context, v: Violation) {
    (exists job :: JobFinds(file, job, index, context, v)) || v in context.outputs(file, index)
  }

  /** A file is reported for exactly what its text shows to be wrong. */
  lemma FileExactly(file: WorkflowFile, index: Index, context: Context, v: Violation)
    ensures v in WorkflowList(file, index, context) <==> FileFinds(file, index, context, v)
  {
    hide Gather, JobList, JobFinds;
    var jobs, at := SortedKeys(Jobs(file).Keys), job => JobList(file, job, index, context);
    InGather(jobs, at, v);
    if v in JobsList(file, index, context) {
      var job :| job in jobs && v in at(job);
      JobExactly(file, job, index, context, v);
    }
    if job :| JobFinds(file, job, index, context, v) {
      FindingJobIsListed(file, job, index, context, v);
      JobExactly(file, job, index, context, v);
      assert job in jobs && v in at(job);
    }
  }

  lemma FindingJobIsListed(file: WorkflowFile, job: string, index: Index, context: Context, v: Violation)
    requires JobFinds(file, job, index, context, v)
    ensures job in Jobs(file)
  {
    hide CallFinds, JobStepFinds;
  }

  // ----- The run

  /** A trail, reported at its last key. */
  ghost predicate IsTrailReport(index: Index, trail: seq<string>, v: Violation) {
    trail != [] && trail[|trail| - 1] in index &&
    var file := index[trail[|trail| - 1]];
    v == Violation("REUSABLE_WORKFLOW_CYCLE", file.repository, file.name, "", trail[|trail| - 1], "",
      "reusable workflow call graph contains a cycle: " + Join(trail, " -> "))
  }

  /** One of the trails of the search. */
  ghost predicate TrailFinds(index: Index, v: Violation) {
    exists trail :: trail in TrailsOf(index) && IsTrailReport(index, trail, v)
  }

  /** A run reports exactly what loading reported, what the texts of the files show to be wrong, and the
      cycles. */
  lemma RunExactly(initial: seq<Violation>, files: seq<WorkflowFile>, context: Context, v: Violation)
    requires AllLassos(IndexOf(files), TrailsOf(IndexOf(files)))
    ensures v in Expected(initial, files, context) <==>
      || v in initial
      || (exists file :: file in files && FileFinds(file, IndexOf(files), context, v))
      || TrailFinds(IndexOf(files), v)
  {
    hide Gather, FileFinds, WorkflowList, IndexOf, TrailsOf, Join;
    var index := IndexOf(files);
    InGather(files, file => WorkflowList(file, index, context), v);
    forall file ensures v in WorkflowList(file, index, context) <==> FileFinds(file, index, context, v) {
      FileExactly(file, index, context, v);
    }
    TrailsExactly(index, v);
  }

  lemma TrailExactly(index: Index, trail: seq<string>, v: Violation)
    requires IsLasso(index, trail)
    ensures trail != [] && Last(trail) in index
    ensures IsTrailReport(index, trail, v) <==> v == CycleViolation(index, trail)
  {
    hide Join, Edge;
  }

  lemma TrailsExactly(index: Index, v: Violation)
    requires AllLassos(index, TrailsOf(index))
    ensures v in CycleViolations(index, TrailsOf(index)) <==> TrailFinds(index, v)
  {
    hide TrailsOf, IsTrailReport, IsLasso, CycleViolation;
    var trails := TrailsOf(index);
    var found := CycleViolations(index, trails);
    forall i | 0 <= i < |trails| ensures IsTrailReport(index, trails[i], v) <==> v == found[i] {
      TrailExactly(index, trails[i], v);
      CycleViolationsAt(index, trails, i);
    }
  }

  lemma CycleViolationsAt(index: Index, trails: seq<seq<string>>, i: nat)
    requires AllLassos(index, trails) && i < |trails|
    ensures trails[i] != [] && Last(trails[i]) in index
    ensures CycleViolations(index, trails)[i] == CycleViolation(index, trails[i])
  {
    hide CycleViolation, Edge;
    assert IsLasso(index, trails[i]);
  }
}
