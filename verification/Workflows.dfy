/** Workflow files, the keys they are indexed under, and how a job's `uses` resolves to a key. */
module Workflows {
  import opened Wrappers
  import opened Text
  import opened Values

  datatype Parameter = Parameter(required: bool, hasDefault: bool)

  datatype CallInterface = CallInterface(
    enabled: bool,
    inputs: map<string, Parameter>,
    secrets: map<string, Parameter>,
    outputs: set<string>)

  datatype WorkflowFile = WorkflowFile(repository: string, name: string, revision: string, root: map<string, Json>) {
    /** What the file offers to its callers. */
    function Call(): CallInterface {
      Interface(root)
    }
  }

  /** The parameters of a block; only inputs have defaults. */
  function Declared(block: Json, defaults: bool): map<string, Parameter> {
    var fields := ObjectValue(block);
    map name | name in fields ::
      Parameter(
        BoolValue(Field(ObjectValue(fields[name]), "required")), defaults && "default" in ObjectValue(fields[name]))
  }

  function Interface(root: map<string, Json>): CallInterface {
    var on := ObjectValue(Field(root, "on"));
    var call := ObjectValue(Field(on, "workflow_call"));
    CallInterface("workflow_call" in on, Declared(Field(call, "inputs"), true),
      Declared(Field(call, "secrets"), false), ObjectValue(Field(call, "outputs")).Keys)
  }

  /** `reusableInterface`, over the parameters in any order. */
  method ReusableInterface(root: map<string, Json>) returns (result: CallInterface)
    ensures result == Interface(root)
  {
    var on := ObjectValue(Field(root, "on"));
    var call := ObjectValue(Field(on, "workflow_call"));
    var inputs := CollectParameters(Field(call, "inputs"), true);
    var secrets := CollectParameters(Field(call, "secrets"), false);
    result := CallInterface("workflow_call" in on, inputs, secrets, ObjectValue(Field(call, "outputs")).Keys);
  }

  method CollectParameters(block: Json, defaults: bool) returns (result: map<string, Parameter>)
    ensures result == Declared(block, defaults)
  {
    var fields, all := ObjectValue(block), Declared(block, defaults);
    result := map[];
    var rest := fields.Keys;
    while rest != {}
      invariant rest <= fields.Keys
      invariant result.Keys == fields.Keys - rest
      invariant forall name :: name in result ==> result[name] == all[name]
    {
      var name :| name in rest;
      var definition := ObjectValue(fields[name]);
      result := result[name :=
        Parameter(BoolValue(Field(definition, "required")), defaults && "default" in definition)];
      rest := rest - {name};
    }
  }

  /** The file declares a parameter of a block by a definition. */
  ghost predicate DeclaresAs(root: map<string, Json>, block: string, name: string, definition: Json) {
    && "on" in root && root["on"].Obj? && "workflow_call" in root["on"].fields
    && root["on"].fields["workflow_call"].Obj?
    && var call := root["on"].fields["workflow_call"].fields;
       block in call && call[block].Obj? && name in call[block].fields && call[block].fields[name] == definition
  }

  /** What a file offers is what it says under its call trigger: inputs, required or with a default, and secrets,
      required or not. */
  lemma InterfaceDeclares(root: map<string, Json>)
    ensures Interface(root).enabled <==> "on" in root && root["on"].Obj? && "workflow_call" in root["on"].fields
    ensures forall name :: name in Interface(root).inputs <==>
      exists definition :: DeclaresAs(root, "inputs", name, definition)
    ensures forall name :: name in Interface(root).secrets <==>
      exists definition :: DeclaresAs(root, "secrets", name, definition)
    ensures forall name, definition :: DeclaresAs(root, "inputs", name, definition) ==>
      Interface(root).inputs[name] == Parameter(
        definition.Obj? && "required" in definition.fields && definition.fields["required"] == Bool(true),
        definition.Obj? && "default" in definition.fields)
    ensures forall name, definition :: DeclaresAs(root, "secrets", name, definition) ==>
      Interface(root).secrets[name] == Parameter(
        definition.Obj? && "required" in definition.fields && definition.fields["required"] == Bool(true), false)
  {
    forall block, name
      ensures (exists definition :: DeclaresAs(root, block, name, definition)) <==>
        name in ObjectValue(Field(ObjectValue(Field(ObjectValue(Field(root, "on")), "workflow_call")), block))
    {
      DeclaresExactly(root, block, name);
    }
  }

  lemma DeclaresExactly(root: map<string, Json>, block: string, name: string)
    ensures (exists definition :: DeclaresAs(root, block, name, definition)) <==>
      name in ObjectValue(Field(ObjectValue(Field(ObjectValue(Field(root, "on")), "workflow_call")), block))
  {
    var call := ObjectValue(Field(ObjectValue(Field(root, "on")), "workflow_call"));
    var fields := ObjectValue(Field(call, block));
    if name in fields {
      assert DeclaresAs(root, block, name, fields[name]);
    }
  }

  /** Files by workflow key. */
  type Index = map<string, WorkflowFile>

  const WORKFLOW_DIRECTORY: string := "/.github/workflows/"
  const LOCAL_PREFIX: string := "./.github/workflows/"
  const OWNER_PREFIX: string := "mindclade/"

  function WorkflowKey(repository: string, name: string, revision: string): string {
    repository + WORKFLOW_DIRECTORY + name + "@" + revision
  }

  /** An exact commit: forty lower-case hexadecimal digits. */
  predicate IsCommit(s: string) {
    |s| == 40 && forall i :: 0 <= i < |s| ==> IsDigit(s[i]) || 'a' <= s[i] <= 'f'
  }

  /** Length of a path without its trailing slashes. */
  function TrimmedLength(s: string, end: nat): (n: nat)
    requires end <= |s|
    ensures n <= end && (n > 0 ==> s[n - 1] != '/')
  {
    if end > 0 && s[end - 1] == '/' then TrimmedLength(s, end - 1) else end
  }

  /** `filepath.Base`. */
  function Base(path: string): string {
    if path == [] then "."
    else
      var trimmed := path[..TrimmedLength(path, |path|)];
      var last := trimmed[LastIndex(trimmed, '/') + 1..];
      if last == [] then "/" else last
  }

  /** A name equals its own base exactly when it is one path component, or the root. */
  lemma BaseIsIdentity(name: string)
    ensures Base(name) == name <==> (name != [] && '/' !in name) || name == "/"
  {
    var trimmed := name[..TrimmedLength(name, |name|)];
    if name != [] && '/' !in name {
      assert trimmed == name;
      assert LastIndex(name, '/') == -1;
    } else if name == "/" {
      assert TrimmedLength("/", 1) == TrimmedLength("/", 0);
    } else if name != [] {
      assert '/' !in trimmed[LastIndex(trimmed, '/') + 1..];
    }
  }

  /** `canonicalReusableReference`: a local path takes the caller's repository and revision; anything
      else must be an owner path pinned to an exact commit. */
  function CanonicalReference(caller: WorkflowFile, uses: string): Option<string> {
    if LOCAL_PREFIX <= uses then LocalReference(caller, uses[|LOCAL_PREFIX|..]) else PinnedReference(uses)
  }

  function LocalReference(caller: WorkflowFile, name: string): Option<string> {
    if Base(name) != name then None else Some(WorkflowKey(caller.repository, name, caller.revision))
  }

  function PinnedReference(uses: string): Option<string> {
    var at := LastIndex(uses, '@');
    if at <= 0 || !IsCommit(uses[at + 1..]) then None
    else if !(OWNER_PREFIX <= uses[..at]) then None
    else PathReference(uses[..at][|OWNER_PREFIX|..], uses[at + 1..])
  }

  function PathReference(path: string, revision: string): Option<string> {
    var parts := Split(path, '/');
    if |parts| != 4 || parts[1] != ".github" || parts[2] != "workflows" || Base(parts[3]) != parts[3] then None
    else Some(WorkflowKey(parts[0], parts[3], revision))
  }

  /** A component that can stand between slashes. */
  predicate IsComponent(s: string) {
    s != [] && '/' !in s
  }

  /** A key is a pinned reference to itself: prefixed with the owner it resolves, from any caller, to the same key. */
  lemma PinnedKeyResolves(caller: WorkflowFile, repository: string, name: string, revision: string)
    requires '/' !in repository && IsComponent(name) && IsCommit(revision)
    ensures CanonicalReference(caller, OWNER_PREFIX + WorkflowKey(repository, name, revision)) ==
            Some(WorkflowKey(repository, name, revision))
  {
    hide PathReference;
    var path := repository + WORKFLOW_DIRECTORY + name;
    var uses := OWNER_PREFIX + WorkflowKey(repository, name, revision);
    var head := OWNER_PREFIX + path;
    assert uses == head + "@" + revision by {
      Regroup(OWNER_PREFIX, path, "@", revision);
    }
    assert uses[0] == 'm' && LOCAL_PREFIX[0] == '.';
    LastIndexOfTail(head, '@', revision);
    DropPrefix(OWNER_PREFIX, path);
    KeyPathResolves(repository, name, revision);
  }

  lemma Regroup(a: string, b: string, c: string, d: string)
    ensures a + (b + c + d) == a + b + c + d
  {
  }

  lemma KeyPathSplits(repository: string, name: string)
    requires '/' !in repository && '/' !in name
    ensures Split(repository + WORKFLOW_DIRECTORY + name, '/') == [repository, ".github", "workflows", name]
  {
    SplitFour(repository, ".github", "workflows", name, '/');
    assert WORKFLOW_DIRECTORY == "/" + ".github" + "/" + "workflows" + "/";
    Distribute(repository, "/", ".github", "/", "workflows", "/", name);
  }

  lemma KeyPathResolves(repository: string, name: string, revision: string)
    requires '/' !in repository && IsComponent(name)
    ensures PathReference(repository + WORKFLOW_DIRECTORY + name, revision) ==
            Some(WorkflowKey(repository, name, revision))
  {
    hide Base;
    KeyPathSplits(repository, name);
    BaseIsIdentity(name);
  }

  lemma Distribute(a: string, b: string, c: string, d: string, e: string, f: string, g: string)
    ensures a + (b + c + d + e + f) + g == a + b + (c + d + (e + f + g))
  {
  }

  lemma LocalResolves(caller: WorkflowFile, name: string)
    requires IsComponent(name)
    ensures CanonicalReference(caller, LOCAL_PREFIX + name) ==
            Some(WorkflowKey(caller.repository, name, caller.revision))
  {
    hide Base, PinnedReference;
    DropPrefix(LOCAL_PREFIX, name);
    BaseIsIdentity(name);
  }

  /** A local reference and the pinned reference to the caller's own repository and revision name the same file. */
  lemma LocalAndPinnedAgree(caller: WorkflowFile, name: string)
    requires '/' !in caller.repository && IsComponent(name) && IsCommit(caller.revision)
    ensures CanonicalReference(caller, LOCAL_PREFIX + name) ==
            CanonicalReference(caller, OWNER_PREFIX + WorkflowKey(caller.repository, name, caller.revision))
  {
    hide CanonicalReference;
    LocalResolves(caller, name);
    PinnedKeyResolves(caller, caller.repository, name, caller.revision);
  }

  /** Keys tell files apart: repository, name and revision can be read back. */
  lemma KeyIsInjective(r: string, n: string, v: string, r': string, n': string, v': string)
    requires '/' !in r && '/' !in r' && '@' !in v && '@' !in v'
    requires WorkflowKey(r, n, v) == WorkflowKey(r', n', v')
    ensures r == r' && n == n' && v == v'
  {
    var head, head' := r + WORKFLOW_DIRECTORY + n, r' + WORKFLOW_DIRECTORY + n';
    LastIndexOfTail(head, '@', v);
    LastIndexOfTail(head', '@', v');
    var rest, rest' := WORKFLOW_DIRECTORY[1..] + n, WORKFLOW_DIRECTORY[1..] + n';
    assert head == r + ['/'] + rest && head' == r' + ['/'] + rest';
    SplitAtSeparator(r, rest, '/');
    SplitAtSeparator(r', rest', '/');
    assert r == Split(head, '/')[0] && r' == Split(head', '/')[0];
    assert n == head[|r| + |WORKFLOW_DIRECTORY|..] && n' == head'[|r'| + |WORKFLOW_DIRECTORY|..];
  }

  /** The parts of a key. */
  ghost predicate IsKeyOf(key: string, repository: string, name: string, revision: string) {
    key == WorkflowKey(repository, name, revision) && (IsComponent(name) || name == "/")
  }

  /** A pinned reference that resolves names an exact commit. */
  lemma PinnedIsExact(uses: string) returns (repository: string, name: string, revision: string)
    requires PinnedReference(uses).Some?
    ensures IsKeyOf(PinnedReference(uses).value, repository, name, revision)
    ensures IsCommit(revision) && '/' !in repository
  {
    hide Base;
    var at := LastIndex(uses, '@');
    var parts := Split(uses[..at][|OWNER_PREFIX|..], '/');
    repository, name, revision := parts[0], parts[3], uses[at + 1..];
    BaseIsIdentity(name);
  }

  /** A reference resolves only to the caller's own repository and revision or to an exact commit. */
  lemma ResolvedIsPinned(caller: WorkflowFile, uses: string)
    returns (repository: string, name: string, revision: string)
    requires CanonicalReference(caller, uses).Some?
    ensures IsKeyOf(CanonicalReference(caller, uses).value, repository, name, revision)
    ensures (repository == caller.repository && revision == caller.revision)
         || (IsCommit(revision) && '/' !in repository)
  {
    hide Base, PinnedReference;
    if LOCAL_PREFIX <= uses {
      repository, name, revision := caller.repository, uses[|LOCAL_PREFIX|..], caller.revision;
      BaseIsIdentity(name);
    } else {
      repository, name, revision := PinnedIsExact(uses);
    }
  }

  // ----- The call graph

  function Jobs(file: WorkflowFile): map<string, Json> {
    ObjectValue(Field(file.root, "jobs"))
  }

  function Job(file: WorkflowFile, job: string): map<string, Json> {
    ObjectValue(Field(Jobs(file), job))
  }

  function Uses(file: WorkflowFile, job: string): string {
    StringValue(Field(Job(file, job), "uses"))
  }

  /** The indexed workflow a job calls, if any. */
  function Callee(index: Index, file: WorkflowFile, job: string): (r: Option<string>)
    ensures r.Some? ==> r.value in index
  {
    match CanonicalReference(file, Uses(file, job))
    case Some(key) => if key in index then Some(key) else None
    case None => None
  }

  /** Job `job` of the workflow under key `a` calls the workflow under key `b`. */
  predicate Calls(index: Index, a: string, job: string, b: string) {
    a in index && job in Jobs(index[a]) && Callee(index, index[a], job) == Some(b)
  }

  ghost predicate Edge(index: Index, a: string, b: string) {
    exists job :: Calls(index, a, job, b)
  }

  ghost predicate IsWalk(index: Index, walk: seq<string>) {
    && (forall i :: 0 <= i < |walk| ==> walk[i] in index)
    && (forall i :: 0 <= i < |walk| - 1 ==> Edge(index, walk[i], walk[i + 1]))
  }

  ghost predicate IsCycle(index: Index, walk: seq<string>) {
    |walk| >= 2 && IsWalk(index, walk) && walk[0] == walk[|walk| - 1]
  }

  ghost predicate HasCycle(index: Index) {
    exists walk :: IsCycle(index, walk)
  }
}
