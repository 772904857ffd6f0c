/** `validateCycles`: a three-colour depth-first search over the call graph. */
module CycleSearch {
  import opened Text
  import opened Ordering
  import opened Workflows
  import opened CallGraph
  import opened Reports

  const CYCLE_CODE: string := "REUSABLE_WORKFLOW_CYCLE"
  const CYCLE_PREFIX: string := "reusable workflow call graph contains a cycle: "

  function Last<T>(s: seq<T>): T
    requires s != []
  {
    s[|s| - 1]
  }

  function CycleViolation(index: Index, trail: seq<string>): Violation
    requires trail != [] && Last(trail) in index
  {
    var file := index[Last(trail)];
    Violation(CYCLE_CODE, file.repository, file.name, "", Last(trail), "", CYCLE_PREFIX + Join(trail, " -> "))
  }

  /** A walk whose last node occurs earlier in it. */
  ghost predicate IsLasso(index: Index, trail: seq<string>) {
    |trail| >= 2 && IsWalk(index, trail) && Last(trail) in trail[..|trail| - 1]
  }

  ghost predicate AllLassos(index: Index, trails: seq<seq<string>>) {
    forall i :: 0 <= i < |trails| ==> IsLasso(index, trails[i])
  }

  ghost function CycleViolations(index: Index, trails: seq<seq<string>>): (r: seq<Violation>)
    requires AllLassos(index, trails)
    ensures |r| == |trails|
  {
    seq(|trails|, i requires 0 <= i < |trails| => CycleViolation(index, trails[i]))
  }

  /** Every callee of a ranked workflow is ranked strictly below it. */
  ghost predicate Ranked(index: Index, rank: map<string, nat>) {
    forall a, b :: a in rank && Edge(index, a, b) ==> b in rank && rank[b] < rank[a]
  }

  lemma LassoIsCycle(index: Index, trail: seq<string>)
    requires IsLasso(index, trail)
    ensures HasCycle(index)
  {
    hide Callee, Edge;
    var front := trail[..|trail| - 1];
    var i :| 0 <= i < |front| && front[i] == Last(trail);
    var walk := trail[i..];
    assert walk[0] == trail[i] && Last(walk) == Last(trail);
    forall k | 0 <= k < |walk| - 1 ensures Edge(index, walk[k], walk[k + 1]) {
      assert Edge(index, trail[i + k], trail[i + k + 1]);
    }
    assert IsCycle(index, walk);
  }

  lemma {:induction false} RankFallsAlongWalk(index: Index, rank: map<string, nat>, walk: seq<string>)
    requires Ranked(index, rank) && IsWalk(index, walk) && |walk| >= 2 && walk[0] in rank
    ensures Last(walk) in rank && rank[Last(walk)] < rank[walk[0]]
  {
    hide Callee;
    var rest := walk[1..];
    assert Edge(index, walk[0], walk[1]);
    if |walk| > 2 {
      forall i | 0 <= i < |rest| - 1 ensures Edge(index, rest[i], rest[i + 1]) {
        assert Edge(index, walk[i + 1], walk[i + 2]);
      }
      RankFallsAlongWalk(index, rank, rest);
    }
  }

  /** A ranking of the whole index rules out every cycle. */
  lemma RankedHasNoCycle(index: Index, rank: map<string, nat>)
    requires Ranked(index, rank) && index.Keys <= rank.Keys
    ensures !HasCycle(index)
  {
    hide Callee;
    if HasCycle(index) {
      var walk :| IsCycle(index, walk);
      RankFallsAlongWalk(index, rank, walk);
    }
  }

  /** One job edge, as the search follows it. */
  datatype Call = Call(caller: string, job: string)

  predicate IsCall(index: Index, call: Call) {
    && call.caller in index
    && call.job in Jobs(index[call.caller])
    && Callee(index, index[call.caller], call.job).Some?
  }

  /** Go's zero value: an unvisited key reads as 0, a key on the stack as 1, a finished key as 2. */
  const ACTIVE := 1
  const FINISHED := 2

  /** The state of a search: the program's colours and stack, the trails reported so far, the order in
      which keys finished, and how often each job edge was followed. */
  datatype Progress = Progress(
    state: map<string, int>,
    stack: seq<string>,
    trails: seq<seq<string>>,
    rank: map<string, nat>,
    followed: multiset<Call>)

  const START := Progress(map[], [], [], map[], multiset{})

  /** The stack holds the active keys, the ranking the finished ones. */
  ghost predicate ColoursValid(index: Index, p: Progress) {
    && p.state.Keys <= index.Keys
    && (forall k :: k in p.state ==> p.state[k] == ACTIVE || p.state[k] == FINISHED)
    && (forall k :: k in p.stack <==> k in p.state && p.state[k] == ACTIVE)
    && (forall k :: k in p.rank <==> k in p.state && p.state[k] == FINISHED)
    && (forall k :: k in p.rank ==> p.rank[k] < |p.rank|)
  }

  ghost predicate StackValid(index: Index, p: Progress) {
    && IsWalk(index, p.stack)
    && forall i, j :: 0 <= i < j < |p.stack| ==> p.stack[i] != p.stack[j]
  }

  /** Edges of finished keys were followed once, edges of unvisited keys not at all. */
  ghost predicate FollowedValid(index: Index, p: Progress) {
    && (forall c: Call :: c.caller !in p.state ==> p.followed[c] == 0)
    && (forall c: Call :: c.caller in p.rank ==> p.followed[c] == Times(index, c))
  }

  ghost function Times(index: Index, c: Call): nat {
    if IsCall(index, c) then 1 else 0
  }

  ghost predicate Valid(index: Index, p: Progress) {
    && ColoursValid(index, p)
    && StackValid(index, p)
    && FollowedValid(index, p)
    && AllLassos(index, p.trails)
    && (p.trails == [] ==> Ranked(index, p.rank))
  }

  /** What a visit may change: it keeps the stack and every earlier result. */
  ghost predicate Extends(p: Progress, q: Progress) {
    && q.stack == p.stack
    && p.state.Keys <= q.state.Keys
    && (forall k :: k in p.rank ==> k in q.rank && q.rank[k] == p.rank[k])
    && p.trails <= q.trails
  }

  /** Edges out of keys that p had reached, other than `key`, are not followed between p and q. */
  ghost predicate FollowsNoneOf(p: Progress, q: Progress, key: string) {
    forall c: Call :: c.caller in p.state && c.caller != key ==> q.followed[c] == p.followed[c]
  }

  /** Some workflow calls `key` next: the top of the stack, if there is one. */
  ghost predicate CanVisit(index: Index, p: Progress, key: string) {
    key in index && (p.stack != [] ==> Edge(index, Last(p.stack), key))
  }

  // ----- The steps of a search

  function Enter(p: Progress, key: string): Progress {
    p.(state := p.state[key := ACTIVE], stack := p.stack + [key])
  }

  lemma EnterKeepsStack(index: Index, p: Progress, key: string)
    requires StackValid(index, p) && CanVisit(index, p, key) && key !in p.stack
    ensures StackValid(index, Enter(p, key))
    ensures forall k :: k in Enter(p, key).stack <==> k in p.stack || k == key
  {
    hide Callee, Calls, Edge;
    WalkGrows(index, p.stack, key);
  }

  lemma WalkGrows(index: Index, walk: seq<string>, key: string)
    requires IsWalk(index, walk) && key in index && (walk != [] ==> Edge(index, Last(walk), key))
    ensures IsWalk(index, walk + [key])
  {
    hide Callee, Calls, Edge;
  }

  lemma EnterKeepsValid(index: Index, p: Progress, key: string)
    requires Valid(index, p) && CanVisit(index, p, key) && key !in p.state
    ensures Valid(index, Enter(p, key))
    ensures forall c: Call :: c.caller == key ==> p.followed[c] == 0
  {
    hide StackValid, CanVisit, Ranked, AllLassos, Times;
    KeyIsIndexed(index, p, key);
    EnterKeepsStack(index, p, key);
  }

  lemma KeyIsIndexed(index: Index, p: Progress, key: string)
    requires CanVisit(index, p, key)
    ensures key in index
  {
    hide Callee, Calls, Edge;
  }

  function ReportTrail(p: Progress, key: string): Progress {
    p.(trails := p.trails + [p.stack + [key]])
  }

  /** An active key is reached again: the stack and the key spell a cycle. */
  lemma ReportKeepsValid(index: Index, p: Progress, key: string)
    requires Valid(index, p) && CanVisit(index, p, key) && key in p.stack
    ensures Valid(index, ReportTrail(p, key))
    ensures IsLasso(index, p.stack + [key])
  {
    hide ColoursValid, FollowedValid, StackValid, Ranked, IsLasso, CanVisit;
    ReportKeepsTheRest(index, p, key);
    StackLasso(index, p, key);
  }

  lemma ReportKeepsTheRest(index: Index, p: Progress, key: string)
    ensures ColoursValid(index, p) ==> ColoursValid(index, ReportTrail(p, key))
    ensures StackValid(index, p) ==> StackValid(index, ReportTrail(p, key))
    ensures FollowedValid(index, p) ==> FollowedValid(index, ReportTrail(p, key))
  {
    hide IsWalk, Times;
  }

  lemma StackLasso(index: Index, p: Progress, key: string)
    requires StackValid(index, p) && CanVisit(index, p, key) && key in p.stack
    ensures IsLasso(index, p.stack + [key])
  {
    hide Callee, Calls, Edge;
    WalkGrows(index, p.stack, key);
    assert (p.stack + [key])[..|p.stack|] == p.stack;
  }

  function FollowEdge(p: Progress, call: Call): Progress {
    p.(followed := p.followed[call := p.followed[call] + 1])
  }

  lemma FollowKeepsValid(index: Index, p: Progress, call: Call)
    requires Valid(index, p) && call.caller in p.stack
    ensures Valid(index, FollowEdge(p, call))
  {
    hide Callee, Calls, Edge;
  }

  function Leave(p: Progress): Progress
    requires p.stack != []
  {
    var key := Last(p.stack);
    p.(state := p.state[key := FINISHED],
       stack := p.stack[..|p.stack| - 1],
       rank := p.rank[key := |p.rank|])
  }

  lemma LeaveKeepsStack(index: Index, p: Progress)
    requires StackValid(index, p) && p.stack != []
    ensures StackValid(index, Leave(p))
    ensures forall k :: k in p.stack <==> k in Leave(p).stack || k == Last(p.stack)
    ensures Last(p.stack) !in Leave(p).stack
  {
    hide Callee, Calls, Edge;
    assert p.stack == Leave(p).stack + [Last(p.stack)];
  }

  lemma LeaveKeepsColours(index: Index, p: Progress)
    requires ColoursValid(index, p) && StackValid(index, p) && p.stack != []
    ensures ColoursValid(index, Leave(p))
  {
    hide StackValid;
    LeaveKeepsStack(index, p);
    var key, q := Last(p.stack), Leave(p);
    assert key in p.stack && key !in p.rank;
    assert q.rank.Keys == p.rank.Keys + {key};
    assert |q.rank| == |q.rank.Keys| == |p.rank| + 1;
  }

  lemma LeaveKeepsRanking(index: Index, p: Progress)
    requires p.stack != [] && Ranked(index, p.rank) && Last(p.stack) !in p.rank
    requires forall k :: k in p.rank ==> p.rank[k] < |p.rank|
    requires forall b :: Edge(index, Last(p.stack), b) ==> b in p.rank
    ensures Ranked(index, Leave(p).rank)
  {
    hide Callee, Calls, Edge;
  }

  /** All jobs of the top key were followed: it finishes above everything it calls. */
  lemma LeaveKeepsValid(index: Index, p: Progress)
    requires Valid(index, p) && p.stack != []
    requires forall c: Call :: c.caller == Last(p.stack) ==> p.followed[c] == Times(index, c)
    requires p.trails == [] ==> forall b :: Edge(index, Last(p.stack), b) ==> b in p.rank
    ensures Valid(index, Leave(p)) && Extends(p.(stack := Leave(p).stack), Leave(p))
  {
    hide Callee, Calls, Edge, AllLassos, Times, IsWalk;
    LeaveKeepsColours(index, p);
    LeaveKeepsStack(index, p);
    assert Last(p.stack) in p.stack && Last(p.stack) !in p.rank;
    if p.trails == [] {
      LeaveKeepsRanking(index, p);
    }
  }

  /** The edges of the first n jobs of a key, and no others of that key, were followed. */
  ghost predicate FollowedUpTo(index: Index, p: Progress, key: string, jobs: seq<string>, n: nat) {
    && n <= |jobs|
    && forall c: Call :: c.caller == key ==> p.followed[c] == if c.job in jobs[..n] then Times(index, c) else 0
  }

  ghost predicate CalleeIsRanked(index: Index, p: Progress, key: string, job: string) {
    forall b :: Calls(index, key, job, b) ==> b in p.rank
  }

  ghost predicate RankedUpTo(index: Index, p: Progress, key: string, jobs: seq<string>, n: nat) {
    && n <= |jobs|
    && (p.trails == [] ==> forall j :: 0 <= j < n ==> CalleeIsRanked(index, p, key, jobs[j]))
  }

  lemma AllFollowed(index: Index, p: Progress, key: string, jobs: seq<string>)
    requires key in index && forall job :: job in jobs <==> job in Jobs(index[key])
    requires FollowedUpTo(index, p, key, jobs, |jobs|) && RankedUpTo(index, p, key, jobs, |jobs|)
    ensures forall c: Call :: c.caller == key ==> p.followed[c] == Times(index, c)
    ensures p.trails == [] ==> forall b :: Edge(index, key, b) ==> b in p.rank
  {
    hide Callee;
    assert jobs[..|jobs|] == jobs;
    forall b | p.trails == [] && Edge(index, key, b) ensures b in p.rank {
      var job :| Calls(index, key, job, b);
      assert job in jobs;
    }
  }

  lemma FollowsNoneIsReflexive(p: Progress, key: string)
    ensures FollowsNoneOf(p, p, key) && Extends(p, p)
  {
  }

  /** A search that has reached every key and unwound its stack has decided whether there is a cycle. */
  lemma AllVisited(index: Index, p: Progress)
    requires Valid(index, p) && p.stack == [] && index.Keys <= p.state.Keys
    ensures forall key :: key in index ==> key in p.state && p.state[key] == FINISHED
    ensures forall c: Call :: p.followed[c] == Times(index, c)
    ensures AllLassos(index, p.trails)
    ensures p.trails == [] <==> !HasCycle(index)
    ensures !HasCycle(index) ==> p.rank.Keys == index.Keys && Ranked(index, p.rank)
  {
    hide Callee, Calls, Edge, Ranked, IsLasso, HasCycle;
    assert p.rank.Keys == index.Keys;
    if p.trails == [] {
      RankedHasNoCycle(index, p.rank);
    } else {
      LassoIsCycle(index, p.trails[0]);
    }
    forall c: Call ensures p.followed[c] == Times(index, c) {
      if c.caller in index {
        assert c.caller in p.rank;
      }
    }
  }

  lemma FollowsNoneIsTransitive(p: Progress, q: Progress, r: Progress, key: string)
    requires Extends(p, q) && FollowsNoneOf(p, q, key) && FollowsNoneOf(q, r, key)
    ensures FollowsNoneOf(p, r, key)
  {
  }

  lemma LeaveExtends(p: Progress, q: Progress, key: string)
    requires key !in p.state && (forall k :: k in p.rank ==> k in p.state)
    requires Extends(Enter(p, key), q)
    ensures q.stack != [] && Last(q.stack) == key && Extends(p, Leave(q))
    ensures key in Leave(q).rank && key in Leave(q).state
  {
  }

  /** Between entering and leaving a new key, all its jobs are followed. */
  lemma VisitNewSteps(index: Index, p: Progress, q: Progress, key: string)
    requires Valid(index, p) && CanVisit(index, p, key) && key !in p.state
    requires Valid(index, q) && Extends(Enter(p, key), q) && FollowsNoneOf(Enter(p, key), q, key)
    requires forall c: Call :: c.caller == key ==> q.followed[c] == Times(index, c)
    requires q.trails == [] ==> forall b :: Edge(index, key, b) ==> b in q.rank
    ensures q.stack != [] && Last(q.stack) == key
    ensures Valid(index, Leave(q)) && Extends(p, Leave(q)) && FollowsNoneOf(p, Leave(q), key)
    ensures key in Leave(q).rank && key in Leave(q).state
  {
    hide Callee, Calls, Edge, StackValid, FollowedValid, AllLassos, Ranked, Times, Extends;
    LeaveExtends(p, q, key);
    hide ColoursValid;
    LeaveKeepsValid(index, q);
  }

  /** One more job followed: the edge counts once, and the visit left this key's other edges alone. */
  lemma FollowSteps(index: Index, p: Progress, q: Progress, key: string, jobs: seq<string>, i: nat, b: string)
    requires key in p.state && i < |jobs| && jobs[i] !in jobs[..i] && Calls(index, key, jobs[i], b)
    requires FollowedUpTo(index, p, key, jobs, i) && RankedUpTo(index, p, key, jobs, i)
    requires Extends(FollowEdge(p, Call(key, jobs[i])), q)
    requires FollowsNoneOf(FollowEdge(p, Call(key, jobs[i])), q, b)
    requires b in p.state ==> q.followed == FollowEdge(p, Call(key, jobs[i])).followed
    requires q.trails == [] ==> b in q.rank
    ensures Extends(p, q) && FollowsNoneOf(p, q, key)
    ensures FollowedUpTo(index, q, key, jobs, i + 1) && RankedUpTo(index, q, key, jobs, i + 1)
  {
    hide Callee;
    assert jobs[..i + 1] == jobs[..i] + [jobs[i]];
  }

  lemma SkipSteps(index: Index, p: Progress, key: string, jobs: seq<string>, i: nat)
    requires i < |jobs| && forall b :: !Calls(index, key, jobs[i], b)
    requires !IsCall(index, Call(key, jobs[i]))
    requires FollowedUpTo(index, p, key, jobs, i) && RankedUpTo(index, p, key, jobs, i)
    ensures FollowedUpTo(index, p, key, jobs, i + 1) && RankedUpTo(index, p, key, jobs, i + 1)
  {
    hide Callee, Calls;
    assert jobs[..i + 1] == jobs[..i] + [jobs[i]];
  }

  // ----- The search as a function

  /** The program's variables, and the trails reported so far. */
  datatype Trace = Trace(state: map<string, int>, stack: seq<string>, trails: seq<seq<string>>)

  function JobNames(index: Index, key: string): seq<string>
    requires key in index
  {
    SortedKeys(Jobs(index[key]).Keys)
  }

  /** A visit: nothing, one more trail, or a whole subtree. */
  ghost function VisitFrom(index: Index, s: Trace, key: string): (r: Trace)
    requires key in index && s.state.Keys <= index.Keys
    ensures s.state.Keys <= r.state.Keys <= index.Keys
    decreases index.Keys - s.state.Keys, 0, 0
  {
    if key in s.state then
      (if s.state[key] == ACTIVE then s.(trails := s.trails + [s.stack + [key]]) else s)
    else
      var entered := s.(state := s.state[key := ACTIVE], stack := s.stack + [key]);
      assert index.Keys - entered.state.Keys == index.Keys - s.state.Keys - {key};
      var done := FollowFrom(index, entered, key, JobNames(index, key));
      done.(state := done.state[key := FINISHED], stack := s.stack)
  }

  ghost function FollowFrom(index: Index, s: Trace, key: string, jobs: seq<string>): (r: Trace)
    requires key in index && s.state.Keys <= index.Keys
    ensures s.state.Keys <= r.state.Keys <= index.Keys
    decreases index.Keys - s.state.Keys, 1, |jobs|
  {
    if jobs == [] then s
    else
      var callee := Callee(index, index[key], jobs[0]);
      if callee.Some? then FollowFrom(index, VisitFrom(index, s, callee.value), key, jobs[1..])
      else FollowFrom(index, s, key, jobs[1..])
  }

  ghost function VisitEach(index: Index, s: Trace, keys: seq<string>): Trace
    requires s.state.Keys <= index.Keys && forall key :: key in keys ==> key in index
    decreases |keys|
  {
    if keys == [] then s else VisitEach(index, VisitFrom(index, s, keys[0]), keys[1..])
  }

  /** The trails the search of an index reports, in order. */
  ghost function TrailsOf(index: Index): seq<seq<string>> {
    VisitEach(index, Trace(map[], [], []), SortedKeys(index.Keys)).trails
  }

  /** Workflows are visited in the order of their keys, and the jobs of each in the order of their names. */
  lemma TrailsInOrder(index: Index, keys: seq<string>)
    requires Increasing(keys) && forall key :: key in keys <==> key in index
    ensures TrailsOf(index) == VisitEach(index, Trace(map[], [], []), keys).trails
    ensures forall key, jobs ::
      key in index && Increasing(jobs) && (forall job :: job in jobs <==> job in Jobs(index[key])) ==>
      JobNames(index, key) == jobs
  {
    hide VisitFrom, SortedKeys, Jobs;
    IncreasingIsUnique(SortedKeys(index.Keys), keys);
    forall key, jobs |
      key in index && Increasing(jobs) && (forall job :: job in jobs <==> job in Jobs(index[key]))
      ensures JobNames(index, key) == jobs
    {
      IncreasingIsUnique(JobNames(index, key), jobs);
    }
  }

  lemma StateIsIndexed(index: Index, p: Progress)
    requires Valid(index, p)
    ensures p.state.Keys <= index.Keys
  {
    hide StackValid, FollowedValid, AllLassos, Ranked;
  }

  lemma VisitFromOld(index: Index, s: Trace, key: string)
    requires key in index && s.state.Keys <= index.Keys && key in s.state
    ensures VisitFrom(index, s, key) ==
      if s.state[key] == ACTIVE then s.(trails := s.trails + [s.stack + [key]]) else s
  {
    hide FollowFrom;
  }

  /** A visit to a new key: enter, follow its jobs, leave. */
  lemma VisitFromNew(index: Index, s: Trace, key: string, entered: Trace, done: Trace)
    requires key in index && s.state.Keys <= index.Keys && key !in s.state
    requires entered == s.(state := s.state[key := ACTIVE], stack := s.stack + [key])
    requires done == FollowFrom(index, entered, key, JobNames(index, key)) && done.stack == entered.stack
    ensures VisitFrom(index, s, key) ==
      done.(state := done.state[key := FINISHED], stack := done.stack[..|done.stack| - 1])
  {
    hide FollowFrom, JobNames;
    assert done.stack[..|done.stack| - 1] == s.stack;
  }

  lemma ExtendsIsTransitive(p: Progress, q: Progress, r: Progress)
    requires Extends(p, q) && Extends(q, r)
    ensures Extends(p, r)
  {
  }

  /** Where following the jobs of a key begins. */
  lemma Starts(index: Index, p: Progress, key: string, jobs: seq<string>)
    requires Valid(index, p) && key in index && jobs == SortedKeys(Jobs(index[key]).Keys)
    requires forall c: Call :: c.caller == key ==> p.followed[c] == 0
    ensures FollowedUpTo(index, p, key, jobs, 0) && RankedUpTo(index, p, key, jobs, 0)
    ensures Extends(p, p) && FollowsNoneOf(p, p, key) && p.state.Keys <= index.Keys
    ensures jobs == JobNames(index, key)
  {
    hide Valid, Calls, Callee;
    StateIsIndexed(index, p);
  }

  lemma JobAt(index: Index, key: string, jobs: seq<string>, i: nat)
    requires key in index && jobs == SortedKeys(Jobs(index[key]).Keys) && i < |jobs|
    ensures jobs[i] in Jobs(index[key]) && jobs[i] !in jobs[..i]
  {
    IncreasingIsDistinct(jobs);
  }

  lemma StackUnchanged(p: Progress, q: Progress)
    requires Extends(p, q)
    ensures q.stack == p.stack && p.state.Keys <= q.state.Keys
  {
  }

  lemma FollowFromStep(index: Index, s: Trace, key: string, jobs: seq<string>, i: nat)
    requires key in index && s.state.Keys <= index.Keys && i < |jobs|
    ensures var callee := Callee(index, index[key], jobs[i]);
      FollowFrom(index, s, key, jobs[i..]) ==
        FollowFrom(index, if callee.Some? then VisitFrom(index, s, callee.value) else s, key, jobs[i + 1..])
  {
    hide Callee, VisitFrom;
    assert jobs[i..][0] == jobs[i] && jobs[i..][1..] == jobs[i + 1..];
  }

  lemma FollowFromNothing(index: Index, s: Trace, key: string, jobs: seq<string>)
    requires key in index && s.state.Keys <= index.Keys && jobs == []
    ensures FollowFrom(index, s, key, jobs) == s
  {
  }

  lemma VisitEachStep(index: Index, s: Trace, keys: seq<string>, i: nat)
    requires s.state.Keys <= index.Keys && (forall key :: key in keys ==> key in index) && i < |keys|
    ensures VisitEach(index, s, keys[i..]) == VisitEach(index, VisitFrom(index, s, keys[i]), keys[i + 1..])
  {
    hide VisitFrom;
    assert keys[i..][0] == keys[i] && keys[i..][1..] == keys[i + 1..];
  }

  lemma VisitEachNothing(index: Index, s: Trace, keys: seq<string>)
    requires s.state.Keys <= index.Keys && keys == []
    ensures VisitEach(index, s, keys) == s
  {
  }

  class Search {
    const index: Index
    const report: Report
    /** The colours and the stack, which are the program's variables, and the history of the search. */
    var state: map<string, int>
    var stack: seq<string>
    ghost var trails: seq<seq<string>>
    ghost var rank: map<string, nat>
    ghost var followed: multiset<Call>
    /** What the report held before the search. */
    ghost const base: seq<Violation>

    constructor (index: Index, report: Report)
      ensures this.index == index && this.report == report
      ensures Now() == START && Consistent() && base == report.violations
    {
      this.index, this.report := index, report;
      state, stack := map[], [];
      trails, rank, followed := [], map[], multiset{};
      base := report.violations;
    }

    ghost function Now(): Progress
      reads this
    {
      Progress(state, stack, trails, rank, followed)
    }

    ghost function Traced(): Trace
      reads this
    {
      Trace(state, stack, trails)
    }

    /** A valid search that has reported exactly its trails. */
    ghost predicate Consistent()
      reads this, report
    {
      && Valid(index, Now())
      && report.violations == base + CycleViolations(index, trails)
    }

    /** `visit`. */
    method Visit(key: string)
      requires Consistent() && CanVisit(index, Now(), key)
      modifies this, report
      ensures Consistent() && Extends(old(Now()), Now()) && FollowsNoneOf(old(Now()), Now(), key)
      ensures key in old(state) ==> followed == old(followed)
      ensures key in state && (trails == [] ==> key in rank)
      ensures key in index && old(state).Keys <= index.Keys && Traced() == VisitFrom(index, old(Traced()), key)
      decreases index.Keys - state.Keys, 1
    {
      hide Callee, Calls, Edge, StackValid, FollowedValid, AllLassos, Ranked, CycleViolations, VisitFrom;
      StateIsIndexed(index, Now());
      KeyIsIndexed(index, Now(), key);
      if key in state {
        VisitFromOld(index, Traced(), key);
      }
      if key in state && state[key] == FINISHED {
        return;
      }
      if key in state && state[key] == ACTIVE {
        AddTrail(key);
        return;
      }
      VisitNew(key);
    }

    method AddTrail(key: string)
      requires Consistent() && CanVisit(index, Now(), key) && key in stack
      modifies `trails, report
      ensures Consistent() && Now() == ReportTrail(old(Now()), key)
    {
      hide Callee, Calls, Edge, Valid;
      ReportKeepsValid(index, Now(), key);
      report.Append(CycleViolation(index, stack + [key]));
      trails := trails + [stack + [key]];
    }

    method VisitNew(key: string)
      requires Consistent() && CanVisit(index, Now(), key) && key !in state
      modifies this, report
      ensures Consistent() && Extends(old(Now()), Now()) && FollowsNoneOf(old(Now()), Now(), key)
      ensures key in rank && key in state
      ensures key in index && old(state).Keys <= index.Keys && Traced() == VisitFrom(index, old(Traced()), key)
      decreases index.Keys - state.Keys, 0
    {
      hide Callee, Calls, Edge, Valid, CycleViolations, Extends, FollowsNoneOf, VisitFrom, FollowFrom, JobNames;
      ghost var p, s := Now(), Traced();
      StateIsIndexed(index, p);
      KeyIsIndexed(index, p, key);
      EnterKeepsValid(index, p, key);
      state := state[key := ACTIVE];
      stack := stack + [key];
      assert Now() == Enter(p, key);
      assert index.Keys - state.Keys == index.Keys - p.state.Keys - {key};
      ghost var entered := Traced();
      FollowAll(key);
      ghost var q := Now();
      StackUnchanged(Enter(p, key), q);
      VisitFromNew(index, s, key, entered, Traced());
      VisitNewSteps(index, p, q, key);
      stack := stack[..|stack| - 1];
      state := state[key := FINISHED];
      rank := rank[key := |rank|];
      assert Now() == Leave(q);
    }

    /** All jobs of the active key, in order of their names. */
    method FollowAll(key: string)
      requires Consistent() && stack != [] && Last(stack) == key && key in index && key in state
      requires forall c: Call :: c.caller == key ==> followed[c] == 0
      modifies this, report
      ensures Consistent() && Extends(old(Now()), Now()) && FollowsNoneOf(old(Now()), Now(), key)
      ensures forall c: Call :: c.caller == key ==> followed[c] == Times(index, c)
      ensures trails == [] ==> forall b :: Edge(index, key, b) ==> b in rank
      ensures old(state).Keys <= index.Keys
      ensures Traced() == FollowFrom(index, old(Traced()), key, JobNames(index, key))
      decreases index.Keys - state.Keys, 3
    {
      hide Callee, Calls, Edge, Valid, CycleViolations, FollowsNoneOf, FollowFrom, Extends, FollowedUpTo, RankedUpTo,
        Times, JobNames, Search.Consistent, SortedKeys;
      var jobs := SortedKeys(Jobs(index[key]).Keys);
      ghost var p, s := Now(), Traced();
      ConsistentMeans();
      Starts(index, p, key, jobs);
      assert jobs[0..] == jobs;
      for i := 0 to |jobs|
        invariant Consistent() && Valid(index, Now()) && stack == p.stack && key in state
        invariant p.state.Keys <= state.Keys && state.Keys <= index.Keys
        invariant Extends(p, Now()) && FollowsNoneOf(p, Now(), key)
        invariant FollowFrom(index, Traced(), key, jobs[i..]) == FollowFrom(index, s, key, jobs)
        invariant FollowedUpTo(index, Now(), key, jobs, i) && RankedUpTo(index, Now(), key, jobs, i)
      {
        ghost var q := Now();
        JobAt(index, key, jobs, i);
        Follow(key, jobs, i);
        FollowsNoneIsTransitive(p, q, Now(), key);
        ExtendsIsTransitive(p, q, Now());
        StackUnchanged(p, Now());
        ConsistentMeans();
      }
      FollowFromNothing(index, Traced(), key, jobs[|jobs|..]);
      AllFollowed(index, Now(), key, jobs);
    }

    lemma ConsistentMeans()
      requires Consistent()
      ensures Valid(index, Now()) && state.Keys <= index.Keys
    {
      hide Valid, CycleViolations;
      StateIsIndexed(index, Now());
    }

    /** One job of the active key: visit the workflow it calls, if that is indexed. */
    method Follow(key: string, jobs: seq<string>, i: nat)
      requires Consistent() && stack != [] && Last(stack) == key && key in index && key in state
      requires i < |jobs| && jobs[i] in Jobs(index[key]) && jobs[i] !in jobs[..i]
      requires FollowedUpTo(index, Now(), key, jobs, i) && RankedUpTo(index, Now(), key, jobs, i)
      modifies this, report
      ensures Consistent() && Extends(old(Now()), Now()) && FollowsNoneOf(old(Now()), Now(), key)
      ensures FollowedUpTo(index, Now(), key, jobs, i + 1) && RankedUpTo(index, Now(), key, jobs, i + 1)
      ensures old(state).Keys <= index.Keys && state.Keys <= index.Keys
      ensures FollowFrom(index, old(Traced()), key, jobs[i..]) == FollowFrom(index, Traced(), key, jobs[i + 1..])
      decreases index.Keys - state.Keys, 2
    {
      hide Callee, Valid, CycleViolations, FollowedUpTo, RankedUpTo, FollowsNoneOf, VisitFrom, FollowFrom;
      ghost var p := Now();
      StateIsIndexed(index, p);
      FollowFromStep(index, Traced(), key, jobs, i);
      var callee := Callee(index, index[key], jobs[i]);
      if callee.Some? {
        assert Calls(index, key, jobs[i], callee.value);
        FollowKeepsValid(index, p, Call(key, jobs[i]));
        followed := FollowEdge(p, Call(key, jobs[i])).followed;
        assert Now() == FollowEdge(p, Call(key, jobs[i]));
        Visit(callee.value);
        FollowSteps(index, p, Now(), key, jobs, i, callee.value);
        StateIsIndexed(index, Now());
      } else {
        SkipSteps(index, p, key, jobs, i);
        FollowsNoneIsReflexive(p, key);
      }
    }

    /** The whole search, from every key in order. */
    method Run()
      requires Now() == START && Consistent()
      modifies this, report
      ensures Consistent() && stack == []
      ensures forall key :: key in index ==> key in state && state[key] == FINISHED
      ensures forall c: Call :: followed[c] == Times(index, c)
      ensures report.violations == base <==> !HasCycle(index)
      ensures CallEachOther(index) ==> report.violations != base
      ensures !HasCycle(index) ==> rank.Keys == index.Keys && Ranked(index, rank)
      ensures trails == TrailsOf(index)
    {
      hide Callee, Calls, Edge, Valid, CycleViolations, VisitFrom, VisitEach, HasCycle, Times, Ranked, Extends,
        FollowsNoneOf, SortedKeys, CallEachOther;
      if CallEachOther(index) {
        CallingEachOtherIsCycle(index);
      }
      var keys := SortedKeys(index.Keys);
      assert keys[0..] == keys;
      StateIsIndexed(index, Now());
      ghost var s := Traced();
      for i := 0 to |keys|
        invariant state.Keys <= index.Keys
        invariant VisitEach(index, Traced(), keys[i..]) == VisitEach(index, s, keys)
        invariant Consistent() && stack == []
        invariant forall j :: 0 <= j < i ==> keys[j] in state
      {
        VisitEachStep(index, Traced(), keys, i);
        ghost var p := Now();
        Visit(keys[i]);
        StackUnchanged(p, Now());
        StateIsIndexed(index, Now());
      }
      VisitEachNothing(index, Traced(), keys[|keys|..]);
      AllVisited(index, Now());
      assert |CycleViolations(index, trails)| == |trails|;
      assert |report.violations| == |base| + |trails|;
    }
  }
}
