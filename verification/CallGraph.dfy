/** The call graph by the texts of the workflows: which reference each `uses` spells, and so which workflow
    calls which. */
module CallGraph {
  import opened Wrappers
  import opened Text
  import opened Values
  import opened Workflows

  /** A `uses` text spells a workflow: a file beside the caller, under one name (or the lone name `/`), or a
      file of one of the owner's repositories at an exact commit. */
  ghost predicate Spells(caller: WorkflowFile, uses: string, repository: string, name: string, revision: string) {
    SpellsLocal(caller, uses, repository, name, revision) || SpellsPinned(uses, repository, name, revision)
  }

  ghost predicate SpellsLocal(
    caller: WorkflowFile, uses: string, repository: string, name: string, revision: string)
  {
    && uses == "./.github/workflows/" + name && ((name != "" && '/' !in name) || name == "/")
    && repository == caller.repository && revision == caller.revision
  }

  ghost predicate SpellsPinned(uses: string, repository: string, name: string, revision: string) {
    && uses == "mindclade/" + KeyText(repository, name, revision)
    && '/' !in repository && name != "" && '/' !in name
    && |revision| == 40 && forall c :: c in revision ==> '0' <= c <= '9' || 'a' <= c <= 'f'
  }

  function KeyText(repository: string, name: string, revision: string): string {
    repository + "/.github/workflows/" + name + "@" + revision
  }

  lemma LocalReferenceExactly(caller: WorkflowFile, name: string)
    ensures LocalReference(caller, name) ==
      if (name != "" && '/' !in name) || name == "/"
      then Some(KeyText(caller.repository, name, caller.revision)) else None
  {
    hide Base;
    BaseIsIdentity(name);
  }

  /** What a path reference resolves to is the path again, at the revision. */
  lemma PathReferenceSpells(path: string, revision: string) returns (repository: string, name: string)
    requires PathReference(path, revision).Some?
    ensures path == repository + "/.github/workflows/" + name
    ensures '/' !in repository && name != "" && '/' !in name
    ensures PathReference(path, revision).value == KeyText(repository, name, revision)
  {
    hide Base, Join;
    var parts := Split(path, '/');
    repository, name := parts[0], parts[3];
    BaseIsIdentity(name);
    JoinUndoesSplit(path, '/');
    JoinFour(parts);
    RegroupPath(repository, name);
  }

  lemma RegroupPath(repository: string, name: string)
    ensures repository + "/" + (".github" + "/" + ("workflows" + "/" + name)) ==
      repository + "/.github/workflows/" + name
  {
    assert "/" + (".github" + "/" + ("workflows" + "/" + name)) == "/.github/workflows/" + name;
  }

  /** A pinned reference takes its key apart and puts it together again. */
  lemma PinnedReferenceSpells(uses: string) returns (repository: string, name: string, revision: string)
    requires PinnedReference(uses).Some?
    ensures SpellsPinned(uses, repository, name, revision)
    ensures PinnedReference(uses).value == KeyText(repository, name, revision)
  {
    hide PathReference;
    var at := LastIndex(uses, '@');
    var path := uses[..at][|OWNER_PREFIX|..];
    revision := uses[at + 1..];
    repository, name := PathReferenceSpells(path, revision);
    CutAtOwner(uses, at);
    Regroup(OWNER_PREFIX, path, "@", revision);
  }

  lemma CutAtOwner(uses: string, at: nat)
    requires at < |uses| && uses[at] == '@' && OWNER_PREFIX <= uses[..at]
    ensures uses == OWNER_PREFIX + uses[..at][|OWNER_PREFIX|..] + "@" + uses[at + 1..]
  {
    assert uses == uses[..at] + "@" + uses[at + 1..];
    assert uses[..at] == OWNER_PREFIX + uses[..at][|OWNER_PREFIX|..];
  }

  lemma JoinFour(parts: seq<string>)
    requires |parts| == 4
    ensures Join(parts, ['/']) == parts[0] + "/" + (parts[1] + "/" + (parts[2] + "/" + parts[3]))
  {
    assert Join(parts[3..], ['/']) == parts[3];
    assert parts[1..][1..] == parts[2..] && parts[2..][1..] == parts[3..];
    assert Join(parts[2..], ['/']) == parts[2] + ['/'] + parts[3];
    assert Join(parts[1..], ['/']) == parts[1] + ['/'] + (parts[2] + ['/'] + parts[3]);
  }

  /** What a reference resolves to is what its text spells. */
  lemma ReferenceExactly(caller: WorkflowFile, uses: string, key: string)
    ensures CanonicalReference(caller, uses) == Some(key) <==>
      exists r, n, v :: Spells(caller, uses, r, n, v) && key == KeyText(r, n, v)
  {
    hide LocalReference, PinnedReference, KeyText;
    if CanonicalReference(caller, uses) == Some(key) {
      if LOCAL_PREFIX <= uses {
        var name := uses[|LOCAL_PREFIX|..];
        LocalReferenceExactly(caller, name);
        assert uses == LOCAL_PREFIX + name;
        assert SpellsLocal(caller, uses, caller.repository, name, caller.revision);
      } else {
        var r, n, v := PinnedReferenceSpells(uses);
        assert Spells(caller, uses, r, n, v);
      }
    }
    if r, n, v :| Spells(caller, uses, r, n, v) && key == KeyText(r, n, v) {
      SpelledResolves(caller, uses, r, n, v);
    }
  }

  lemma SpelledResolves(caller: WorkflowFile, uses: string, repository: string, name: string, revision: string)
    requires Spells(caller, uses, repository, name, revision)
    ensures CanonicalReference(caller, uses) == Some(KeyText(repository, name, revision))
  {
    hide LocalReference, PinnedReference;
    if SpellsLocal(caller, uses, repository, name, revision) {
      LocalReferenceExactly(caller, name);
      DropPrefix(LOCAL_PREFIX, name);
    } else {
      assert OWNER_PREFIX + WorkflowKey(repository, name, revision) == uses;
      assert forall i :: 0 <= i < |revision| ==> revision[i] in revision;
      PinnedKeyResolves(caller, repository, name, revision);
    }
  }

  // ----- Edges

  /** A job of the file says `uses`. */
  ghost predicate JobSays(file: WorkflowFile, job: string, uses: string) {
    && "jobs" in file.root && file.root["jobs"].Obj?
    && var jobs := file.root["jobs"].fields;
       job in jobs && jobs[job].Obj? && "uses" in jobs[job].fields && jobs[job].fields["uses"] == Str(uses)
  }

  /** Some job of a file says a text that spells a key. */
  ghost predicate Names(file: WorkflowFile, key: string) {
    exists job, uses, r, n, v ::
      JobSays(file, job, uses) && Spells(file, uses, r, n, v) && key == KeyText(r, n, v)
  }

  lemma UsesExactly(file: WorkflowFile, job: string, uses: string)
    requires uses != ""
    ensures job in Jobs(file) && Uses(file, job) == uses <==> JobSays(file, job, uses)
  {
  }

  /** One workflow calls another exactly when the other is indexed under a key the first one names. */
  lemma EdgeExactly(index: Index, a: string, b: string)
    requires a in index
    ensures Edge(index, a, b) <==> b in index && Names(index[a], b)
  {
    hide CanonicalReference, Spells, JobSays, Uses, Jobs, KeyText;
    var file := index[a];
    if Edge(index, a, b) {
      var job :| Calls(index, a, job, b);
      var uses := Uses(file, job);
      EmptySpellsNothing(file);
      UsesExactly(file, job, uses);
      ReferenceExactly(file, uses, b);
    }
    if b in index && Names(file, b) {
      var job, uses, r, n, v :| JobSays(file, job, uses) && Spells(file, uses, r, n, v) && b == KeyText(r, n, v);
      assert uses != "" by { EmptySpellsNothing(file); ReferenceExactly(file, uses, b); }
      UsesExactly(file, job, uses);
      ReferenceExactly(file, uses, b);
      assert Calls(index, a, job, b);
    }
  }

  lemma EmptySpellsNothing(file: WorkflowFile)
    ensures CanonicalReference(file, "") == None
  {
    assert |LOCAL_PREFIX| > 0;
  }

  // ----- Short cycles

  /** A workflow that names itself, or two that name each other, are a cycle. */
  lemma NamedCycle(index: Index, a: string, b: string)
    requires a in index && b in index && Names(index[a], b) && Names(index[b], a)
    ensures HasCycle(index)
  {
    hide Edge, Names;
    EdgeExactly(index, a, b);
    EdgeExactly(index, b, a);
    assert IsCycle(index, [a, b, a]);
  }

  /** Some two indexed workflows, or one and itself, name each other. */
  ghost predicate CallEachOther(index: Index) {
    exists a, b :: a in index && b in index && Names(index[a], b) && Names(index[b], a)
  }

  lemma CallingEachOtherIsCycle(index: Index)
    requires CallEachOther(index)
    ensures HasCycle(index)
  {
    hide Names, HasCycle;
    var a, b :| a in index && b in index && Names(index[a], b) && Names(index[b], a);
    NamedCycle(index, a, b);
  }

  /** A workflow with a job that says its own file name. */
  lemma SelfCallIsCycle(index: Index, a: string, job: string, name: string)
    requires a in index && name != "" && '/' !in name
    requires JobSays(index[a], job, "./.github/workflows/" + name)
    requires a == KeyText(index[a].repository, name, index[a].revision)
    ensures CallEachOther(index) && HasCycle(index)
  {
    hide JobSays, KeyText;
    assert Spells(index[a], "./.github/workflows/" + name, index[a].repository, name, index[a].revision);
    assert Names(index[a], a);
    NamedCycle(index, a, a);
  }
}
