/** Token permissions: levels per scope, joined over everything a workflow does. */
module Permissions {
  import opened Text
  import opened Values
  import opened Workflows

  /** 0 none, 1 read, 2 write; a missing scope reads as 0. */
  type Levels = map<string, nat>

  function Level(p: Levels, scope: string): nat {
    if scope in p then p[scope] else 0
  }

  /** Grants at least as much as q in every scope. */
  ghost predicate Dominates(p: Levels, q: Levels) {
    forall scope :: scope in q ==> Level(p, scope) >= q[scope]
  }

  function Max(a: nat, b: nat): nat {
    if a < b then b else a
  }

  function Merged(p: Levels, q: Levels): Levels {
    map scope | scope in p.Keys + q.Keys :: Max(Level(p, scope), Level(q, scope))
  }

  /** r is the least upper bound of a set of permission sets: its scopes are theirs, it dominates
      each of them, and each of its levels is attained. */
  ghost predicate IsJoin(r: Levels, parts: set<Levels>) {
    && IsBound(r, parts)
    && (forall scope :: scope in r ==> AttainedBy(parts, scope, r[scope]))
  }

  ghost predicate IsBound(r: Levels, parts: set<Levels>) {
    forall p :: p in parts ==> p.Keys <= r.Keys && Dominates(r, p)
  }

  ghost predicate AttainedBy(parts: set<Levels>, scope: string, level: nat) {
    exists p :: p in parts && scope in p && p[scope] == level
  }

  lemma JoinStep(r: Levels, parts: set<Levels>, q: Levels)
    requires IsJoin(r, parts)
    ensures IsJoin(Merged(r, q), parts + {q})
  {
    var j := Merged(r, q);
    forall scope | scope in j ensures AttainedBy(parts + {q}, scope, j[scope]) {
      if scope in q && q[scope] == j[scope] {
        assert q in parts + {q};
      } else {
        assert scope in r && r[scope] == j[scope];
        var p :| p in parts && scope in p && p[scope] == r[scope];
        assert p in parts + {q};
      }
    }
    forall p | p in parts + {q} ensures p.Keys <= j.Keys && Dominates(j, p) {
      if p in parts {
        forall scope | scope in p ensures Level(j, scope) >= p[scope] {
          assert Level(r, scope) >= p[scope];
        }
      }
    }
  }

  /** There is one join, whatever the order it was built in. */
  lemma JoinIsUnique(r: Levels, s: Levels, parts: set<Levels>)
    requires IsJoin(r, parts) && IsJoin(s, parts)
    ensures r == s
  {
    hide IsBound, AttainedBy;
    JoinIsBelow(r, s, parts);
    JoinIsBelow(s, r, parts);
    assert forall scope :: scope in r ==> scope in s && r[scope] <= Level(s, scope) && s[scope] <= Level(r, scope);
  }

  lemma JoinIsBelow(r: Levels, s: Levels, parts: set<Levels>)
    requires IsJoin(r, parts) && IsBound(s, parts)
    ensures r.Keys <= s.Keys && Dominates(s, r)
  {
    forall scope | scope in r ensures scope in s && s[scope] >= r[scope] {
      var p :| p in parts && scope in p && p[scope] == r[scope];
      assert Level(s, scope) >= p[scope];
    }
  }

  /** Dominating the join is dominating every part: the join is the least permission set that covers them all. */
  lemma DominatesJoin(c: Levels, r: Levels, parts: set<Levels>)
    requires IsJoin(r, parts)
    ensures Dominates(c, r) <==> forall p :: p in parts ==> Dominates(c, p)
  {
    if forall p :: p in parts ==> Dominates(c, p) {
      forall scope | scope in r ensures Level(c, scope) >= r[scope] {
        var p :| p in parts && scope in p && p[scope] == r[scope];
      }
    }
    if Dominates(c, r) {
      forall p | p in parts ensures Dominates(c, p) {
        DominatesIsTransitive(c, r, p);
      }
    }
  }

  lemma DominatesIsTransitive(p: Levels, q: Levels, r: Levels)
    requires Dominates(p, q) && Dominates(q, r)
    ensures Dominates(p, r)
  {
    forall scope | scope in r ensures Level(p, scope) >= r[scope] {
      assert Level(q, scope) >= r[scope];
    }
  }

  ghost function JoinAll(parts: set<Levels>): (r: Levels)
    ensures IsJoin(r, parts)
  {
    if parts == {} then map[]
    else
      var p :| p in parts;
      JoinLast(JoinAll(parts - {p}), parts, p);
      Merged(JoinAll(parts - {p}), p)
  }

  lemma JoinLast(r: Levels, parts: set<Levels>, p: Levels)
    requires p in parts && IsJoin(r, parts - {p})
    ensures IsJoin(Merged(r, p), parts)
  {
    hide IsJoin, Merged;
    JoinStep(r, parts - {p}, p);
    assert parts - {p} + {p} == parts;
  }

  // ----- What a workflow file asks for

  const SCOPES: set<string> := {
    "actions", "attestations", "checks", "contents", "deployments", "id-token", "issues", "packages",
    "pull-requests", "security-events", "statuses"
  }

  function NamedLevel(text: string): nat {
    if text == "read" then 1 else if text == "write" then 2 else 0
  }

  /** `parsePermissions`: a shorthand string covers the listed scopes, an object names its own. */
  function Parse(value: Json): Levels {
    if value.Str? then
      var level := if value.s == "read-all" then 1 else if value.s == "write-all" then 2 else 0;
      map scope | scope in SCOPES :: level
    else
      var fields := ObjectValue(value);
      map scope | scope in fields :: NamedLevel(StringValue(fields[scope]))
  }

  function TopPermissions(file: WorkflowFile): Levels {
    Parse(Field(file.root, "permissions"))
  }

  /** A job's own permissions replace the workflow's. */
  function JobPermissions(file: WorkflowFile, job: string): Levels {
    if "permissions" in Job(file, job) then Parse(Job(file, job)["permissions"]) else TopPermissions(file)
  }

  function Steps(file: WorkflowFile, job: string): seq<Json> {
    ListValue(Field(Job(file, job), "steps"))
  }

  function StepUses(step: Json): string {
    StringValue(Field(ObjectValue(step), "uses"))
  }

  /** What an action is known to need, by its path. */
  function SemanticPermissions(path: string, step: Json): Levels {
    var inputs := ObjectValue(Field(ObjectValue(step), "with"));
    if path == "google-github-actions/auth" then map["id-token" := 2]
    else if path == "github/codeql-action/upload-sarif" then map["security-events" := 2]
    else if path == "github/codeql-action/analyze" && StringValue(Field(inputs, "upload")) != "never" then
      map["security-events" := 2]
    else if path == "actions/attest-build-provenance" then map["id-token" := 2, "attestations" := 2]
    else if path == "actions/download-artifact" && "run-id" in inputs then map["actions" := 1]
    else map[]
  }

  /** `requiredPermissions` cuts an action reference at its first at sign. */
  function StepPermissions(step: Json): Levels {
    SemanticPermissions(Split(StepUses(step), '@')[0], step)
  }

  ghost function JobContributions(file: WorkflowFile, job: string): set<Levels> {
    {JobPermissions(file, job)} + set i | 0 <= i < |Steps(file, job)| :: StepPermissions(Steps(file, job)[i])
  }

  /** Everything a workflow grants itself or needs: its default, each job's, and each step's. */
  ghost function Contributions(file: WorkflowFile): set<Levels> {
    {TopPermissions(file)} + set job, p | job in Jobs(file) && p in JobContributions(file, job) :: p
  }

  /** What a caller must grant: the join of everything the workflow does. */
  ghost function Required(file: WorkflowFile): (r: Levels)
    ensures IsJoin(r, Contributions(file))
  {
    JoinAll(Contributions(file))
  }

  /** The set `requiredPermissions` builds up in place. */
  class PermissionSet {
    var levels: Levels

    constructor ()
      ensures levels == map[]
    {
      levels := map[];
    }

    /** `mergePermissions`, over the scopes in any order. */
    method Merge(source: Levels)
      modifies this
      ensures levels == Merged(old(levels), source)
    {
      var remaining := source.Keys;
      while remaining != {}
        invariant remaining <= source.Keys
        invariant levels.Keys == old(levels).Keys + (source.Keys - remaining)
        invariant forall scope :: scope in levels ==>
          levels[scope] == if scope in source.Keys - remaining
                           then Max(Level(old(levels), scope), source[scope])
                           else Level(old(levels), scope)
        decreases remaining
      {
        var scope :| scope in remaining;
        levels := levels[scope := Max(Level(levels, scope), source[scope])];
        remaining := remaining - {scope};
      }
    }

    /** One job's share: its permissions and those of its steps. */
    method MergeJob(file: WorkflowFile, job: string, ghost parts: set<Levels>)
      requires IsJoin(levels, parts)
      modifies this
      ensures IsJoin(levels, parts + JobContributions(file, job))
    {
      hide Merged, IsJoin, StepPermissions, JobPermissions;
      ghost var done := parts + {JobPermissions(file, job)};
      JoinStep(levels, parts, JobPermissions(file, job));
      Merge(JobPermissions(file, job));
      var steps := Steps(file, job);
      for i := 0 to |steps|
        invariant IsJoin(levels, done)
        invariant done == parts + {JobPermissions(file, job)} + set j | 0 <= j < i :: StepPermissions(steps[j])
      {
        JoinStep(levels, done, StepPermissions(steps[i]));
        Merge(StepPermissions(steps[i]));
        done := done + {StepPermissions(steps[i])};
      }
      assert done == parts + JobContributions(file, job);
    }
  }

  /** `requiredPermissions`: whatever order the jobs come in, the result is the join of all contributions. */
  method RequiredPermissions(file: WorkflowFile) returns (result: Levels)
    ensures IsJoin(result, Contributions(file))
    ensures result == Required(file)
  {
    var acc := new PermissionSet();
    acc.Merge(TopPermissions(file));
    JoinStep(map[], {}, TopPermissions(file));
    ghost var parts := {TopPermissions(file)};
    assert {} + parts == parts;
    var remaining := Jobs(file).Keys;
    while remaining != {}
      invariant remaining <= Jobs(file).Keys
      invariant IsJoin(acc.levels, parts)
      invariant parts == {TopPermissions(file)} +
        set job, p | job in Jobs(file) && job !in remaining && p in JobContributions(file, job) :: p
      decreases remaining
    {
      hide IsJoin, JobContributions, TopPermissions;
      var job :| job in remaining;
      acc.MergeJob(file, job, parts);
      parts := parts + JobContributions(file, job);
      remaining := remaining - {job};
    }
    assert parts == Contributions(file);
    result := acc.levels;
    JoinIsUnique(result, Required(file), Contributions(file));
  }
}
