/** `BuildDAG`: jobs, steps and build matrices become one causal graph. */
module Plan {
  import opened Wrappers
  import opened Ids
  import opened Digraph
  import opened Schedules
  import opened CausalGraph
  import opened JobOrder
  import opened Waves

  // ----- Node identifiers

  function StartId(job: string): Id { job + ":job_start" }
  function EndId(job: string): Id { job + ":job_end" }
  function CacheId(job: string, step: string): Id { (job + ":" + step) + ":cache" }
  function RunId(job: string, step: string): Id { (job + ":" + step) + ":run" }

  /** What follows the last colon. */
  function LastSegment(s: string): string {
    if s == [] || s[|s| - 1] == ':' then [] else LastSegment(s[..|s| - 1]) + [s[|s| - 1]]
  }

  /** What precedes the first colon. */
  function FirstSegment(s: string): string {
    if s == [] || s[0] == ':' then [] else [s[0]] + FirstSegment(s[1..])
  }

  lemma {:induction false} LastSegmentOf(a: string, b: string)
    requires ':' !in b
    ensures LastSegment(a + [':'] + b) == b
  {
    var s := a + [':'] + b;
    if b != [] {
      var n := |b| - 1;
      assert s[..|s| - 1] == a + [':'] + b[..n];
      LastSegmentOf(a, b[..n]);
    }
  }

  lemma {:induction false} FirstSegmentOf(a: string, b: string)
    requires ':' !in a
    ensures FirstSegment(a + [':'] + b) == a
  {
    var s := a + [':'] + b;
    if a != [] {
      assert s[1..] == a[1..] + [':'] + b;
      FirstSegmentOf(a[1..], b);
    }
  }

  lemma Suffixes(job: string, step: string)
    ensures LastSegment(StartId(job)) == "job_start" && LastSegment(EndId(job)) == "job_end"
    ensures LastSegment(CacheId(job, step)) == "cache" && LastSegment(RunId(job, step)) == "run"
  {
    LastSegmentOf(job, "job_start");
    assert job + [':'] + "job_start" == StartId(job);
    LastSegmentOf(job, "job_end");
    assert job + [':'] + "job_end" == EndId(job);
    LastSegmentOf(job + ":" + step, "cache");
    assert (job + ":" + step) + [':'] + "cache" == CacheId(job, step);
    LastSegmentOf(job + ":" + step, "run");
    assert (job + ":" + step) + [':'] + "run" == RunId(job, step);
  }

  lemma Prefixes(job: string, step: string)
    requires ':' !in job
    ensures FirstSegment(StartId(job)) == job && FirstSegment(EndId(job)) == job
    ensures FirstSegment(CacheId(job, step)) == job && FirstSegment(RunId(job, step)) == job
  {
    FirstSegmentOf(job, "job_start");
    assert job + [':'] + "job_start" == StartId(job);
    FirstSegmentOf(job, "job_end");
    assert job + [':'] + "job_end" == EndId(job);
    FirstSegmentOf(job, step + ":cache");
    assert job + [':'] + (step + ":cache") == CacheId(job, step);
    FirstSegmentOf(job, step + ":run");
    assert job + [':'] + (step + ":run") == RunId(job, step);
  }

  // ----- The shape that every node keeps, whatever the identifiers are

  /** Start and cache nodes wait for nothing, run nodes for such nodes, end nodes for run nodes. */
  function Level(id: Id): int {
    if LastSegment(id) == "run" then 1 else if LastSegment(id) == "job_end" then 2 else 0
  }

  ghost predicate NodeShaped(nodes: map<Id, Node>, id: Id)
    requires id in nodes
  {
    nodes[id].id == id && forall d :: d in nodes[id].dependencies ==> d in nodes && Level(d) < Level(id)
  }

  ghost predicate Shaped(nodes: map<Id, Node>) {
    forall id :: id in nodes ==> NodeShaped(nodes, id)
  }

  lemma AddShaped(nodes: map<Id, Node>, n: Node)
    requires Shaped(nodes) && forall d :: d in n.dependencies ==> d in nodes && Level(d) < Level(n.id)
    ensures Shaped(nodes[n.id := n])
  {
    var after := nodes[n.id := n];
    forall id | id in after
      ensures NodeShaped(after, id)
    {
      assert id != n.id ==> NodeShaped(nodes, id);
    }
  }

  /** A shaped graph is dependency-closed and acyclic. */
  lemma ShapedIsAcyclic(g: Graph)
    requires Shaped(g.nodes)
    ensures WellKeyed(g) && Closed(DepsOf(g)) && Acyclic(DepsOf(g))
  {
    var deps := DepsOf(g);
    var rank := map id | id in deps :: Level(id);
    assert forall id :: id in g.nodes ==> NodeShaped(g.nodes, id);
    RankedIsAcyclic(deps, rank);
  }

  // ----- Matrix expansion

  predicate IsAssignment(vars: map<string, seq<string>>, keys: set<string>, a: map<string, string>)
    requires keys <= vars.Keys
  {
    a.Keys == keys && forall k :: k in keys ==> a[k] in vars[k]
  }

  method ExtendAll(vars: map<string, seq<string>>, ghost keys: set<string>, key: string, result: seq<map<string, string>>)
    returns (next: seq<map<string, string>>)
    requires keys <= vars.Keys && key in vars && key !in keys
    requires forall a: map<string, string> :: a in result <==> IsAssignment(vars, keys, a)
    ensures forall a: map<string, string> :: a in next <==> IsAssignment(vars, keys + {key}, a)
    ensures NoDup(result) && NoDup(vars[key]) ==> NoDup(next)
  {
    next := [];
    var values := vars[key];
    for i := 0 to |result|
      invariant forall a: map<string, string> :: a in next <==> a.Keys == keys + {key} && a[key] in values && a - {key} in result[..i]
      invariant NoDup(result) && NoDup(values) ==> NoDup(next)
    {
      var r := result[i];
      assert r in result;
      assert result[..i + 1] == result[..i] + [r];
      ghost var before := next;
      for j := 0 to |values|
        invariant forall a: map<string, string> :: a in next <==> a in before || (a.Keys == keys + {key} && a[key] in values[..j] && a - {key} == r)
        invariant NoDup(result) && NoDup(values) ==> NoDup(next)
      {
        assert values[..j + 1] == values[..j] + [values[j]];
        ghost var cp := r[key := values[j]];
        forall a: map<string, string> | a.Keys == keys + {key} && a[key] == values[j] && a - {key} == r
          ensures a == cp
        {
          assert forall k :: k in keys ==> a[k] == (a - {key})[k];
        }
        assert cp - {key} == r;
        next := next + [r[key := values[j]]];
      }
      assert values[..|values|] == values;
    }
    assert result[..|result|] == result;
    forall a: map<string, string>
      ensures a in next <==> IsAssignment(vars, keys + {key}, a)
    {
      if a.Keys == keys + {key} {
        assert (a - {key}).Keys == keys;
      }
    }
  }

  /** The cartesian product of the variables' values; the variables may be taken in any order. */
  method Expand(vars: map<string, seq<string>>) returns (result: seq<map<string, string>>)
    ensures forall a: map<string, string> :: a in result <==> IsAssignment(vars, vars.Keys, a)
    ensures (forall k :: k in vars ==> NoDup(vars[k])) ==> NoDup(result)
  {
    result := [map[]];
    var todo := vars.Keys;
    ghost var keys: set<string> := {};
    while todo != {}
      invariant keys == vars.Keys - todo && todo <= vars.Keys
      invariant forall a: map<string, string> :: a in result <==> IsAssignment(vars, keys, a)
      invariant (forall k :: k in vars ==> NoDup(vars[k])) ==> NoDup(result)
    {
      var key :| key in todo;
      result := ExtendAll(vars, keys, key, result);
      todo := todo - {key};
      keys := keys + {key};
    }
  }

  // ----- One job's nodes

  /** The steps by identifier; a step may go before or after others with its identifier. */
  function SortSteps(steps: seq<Step>): (r: seq<Step>)
    ensures multiset(r) == multiset(steps)
  {
    if steps == [] then []
    else
      assert steps == [steps[0]] + steps[1..];
      InsertStep(steps[0], SortSteps(steps[1..]))
  }

  function InsertStep(x: Step, s: seq<Step>): (r: seq<Step>)
    ensures multiset(r) == multiset(s) + multiset{x}
  {
    if s == [] then [x]
    else if Leq(x.id, s[0].id) then [x] + s
    else
      assert s == [s[0]] + s[1..];
      [s[0]] + InsertStep(x, s[1..])
  }

  function StartNode(job: Job): Node {
    Node(StartId(job.id), JobStart, job.id, "", Action("", ""), [])
  }

  function CacheNodeOf(job: Job, step: Step): Node {
    Node(CacheId(job.id, step.id), CacheNode, job.id, step.id, Action("", ""), [])
  }

  function RunNode(job: Job, step: Step): Node {
    Node(RunId(job.id, step.id), StepRun, job.id, step.id, Action(step.run, step.workingDir),
         [StartId(job.id), CacheId(job.id, step.id)])
  }

  function EndNode(job: Job, deps: seq<Id>): Node {
    Node(EndId(job.id), JobEnd, job.id, "", Action("", ""), deps)
  }

  predicate IsStart(job: Job, n: Node) {
    n.id == StartId(job.id) && n.nodeType == JobStart && n.jobID == job.id && n.dependencies == []
  }

  predicate IsCache(job: Job, step: string, n: Node) {
    n.id == CacheId(job.id, step) && n.nodeType == CacheNode && n.jobID == job.id && n.stepID == step && n.dependencies == []
  }

  /** The node runs the step's command in the step's directory, once the job has started and the step's cache node is done. */
  predicate IsRun(job: Job, step: Step, n: Node) {
    && n.id == RunId(job.id, step.id) && n.nodeType == StepRun && n.jobID == job.id && n.stepID == step.id
    && n.action.command == step.run && n.action.workingDir == step.workingDir
    && n.dependencies == [StartId(job.id), CacheId(job.id, step.id)]
  }

  predicate IsEnd(job: Job, n: Node) {
    n.id == EndId(job.id) && n.nodeType == JobEnd && n.jobID == job.id
  }

  /** The step has its cache node, and a run node for a step of that identifier. */
  ghost predicate HasStep(nodes: map<Id, Node>, job: Job, step: string) {
    && CacheId(job.id, step) in nodes && IsCache(job, step, nodes[CacheId(job.id, step)])
    && RunId(job.id, step) in nodes
    && exists t :: t in job.steps && t.id == step && IsRun(job, t, nodes[RunId(job.id, step)])
  }

  /** A cache or run node of one of the job's steps. */
  ghost predicate StepNode(job: Job, n: Node) {
    exists s :: s in job.steps && (IsCache(job, s.id, n) || IsRun(job, s, n))
  }

  /** The nodes a job may contribute. */
  ghost predicate OwnNode(job: Job, n: Node) {
    IsStart(job, n) || IsEnd(job, n) || (Expands(job) && StepNode(job, n))
  }

  /** A node that was there before, or one of the job's step nodes. */
  ghost predicate OldOrStep(before: map<Id, Node>, job: Job, id: Id, n: Node) {
    (id in before && before[id] == n) || StepNode(job, n)
  }

  ghost predicate OldOrOwn(before: map<Id, Node>, job: Job, id: Id, n: Node) {
    (id in before && before[id] == n) || OwnNode(job, n)
  }

  lemma RunIdInjective(job: string, s: string, t: string)
    requires RunId(job, s) == RunId(job, t)
    ensures s == t
  {
    assert RunId(job, s)[|job| + 1..|RunId(job, s)| - 4] == s;
    assert RunId(job, t)[|job| + 1..|RunId(job, t)| - 4] == t;
  }

  lemma CacheIdInjective(job: string, s: string, t: string)
    requires CacheId(job, s) == CacheId(job, t)
    ensures s == t
  {
    assert CacheId(job, s)[|job| + 1..|CacheId(job, s)| - 6] == s;
    assert CacheId(job, t)[|job| + 1..|CacheId(job, t)| - 6] == t;
  }

  /** Both nodes of a step enter the graph. */
  function AddStep(nodes: map<Id, Node>, job: Job, step: Step): map<Id, Node> {
    nodes[CacheId(job.id, step.id) := CacheNodeOf(job, step)][RunId(job.id, step.id) := RunNode(job, step)]
  }

  lemma AddStepKeeps(nodes: map<Id, Node>, job: Job, step: Step)
    requires Shaped(nodes) && StartId(job.id) in nodes && nodes[StartId(job.id)] == StartNode(job) && step in job.steps
    ensures var after := AddStep(nodes, job, step);
            && Shaped(after) && StartId(job.id) in after && after[StartId(job.id)] == StartNode(job)
            && HasStep(after, job, step.id)
            && (forall s :: HasStep(nodes, job, s) ==> HasStep(after, job, s))
            && (forall id :: id in after ==> OldOrStep(nodes, job, id, after[id]))
  {
    Suffixes(job.id, step.id);
    AddShaped(nodes, CacheNodeOf(job, step));
    AddShaped(nodes[CacheId(job.id, step.id) := CacheNodeOf(job, step)], RunNode(job, step));
    forall s | HasStep(nodes, job, s)
      ensures HasStep(AddStep(nodes, job, step), job, s)
    {
      StepStays(nodes, job, step, s);
    }
  }

  lemma StepStays(nodes: map<Id, Node>, job: Job, step: Step, s: string)
    requires HasStep(nodes, job, s) && step in job.steps
    ensures HasStep(AddStep(nodes, job, step), job, s)
  {
    Suffixes(job.id, s);
    Suffixes(job.id, step.id);
    if RunId(job.id, s) == RunId(job.id, step.id) {
      RunIdInjective(job.id, s, step.id);
    }
    if CacheId(job.id, s) == CacheId(job.id, step.id) {
      CacheIdInjective(job.id, s, step.id);
    }
  }

  /** Nodes of other jobs are untouched: `after` differs from `before` only in nodes of `job`. */
  ghost predicate OnlyJob(before: map<Id, Node>, after: map<Id, Node>, job: string) {
    && (forall id :: id in before ==> id in after)
    && (':' !in job ==> forall id :: id in after && FirstSegment(id) != job ==> id in before && after[id] == before[id])
  }

  /** The nodes that one job contributes, when no node of it was there before. */
  ghost predicate JobWired(nodes: map<Id, Node>, job: Job, expanded: bool) {
    && StartId(job.id) in nodes && IsStart(job, nodes[StartId(job.id)])
    && (expanded ==> forall s :: s in job.steps ==> HasStep(nodes, job, s.id))
    && EndId(job.id) in nodes && IsEnd(job, nodes[EndId(job.id)])
    && nodes[EndId(job.id)].dependencies == (if expanded then RunIds(job, job.steps) else [])
  }

  function RunIds(job: Job, steps: seq<Step>): seq<Id> {
    seq(|steps|, i requires 0 <= i < |steps| => RunId(job.id, steps[i].id))
  }

  /** Does the job's matrix have a combination at all? */
  predicate Expands(job: Job) {
    forall k :: k in job.matrixVars ==> job.matrixVars[k] != []
  }

  lemma ExpandsMeansCombination(job: Job)
    ensures Expands(job) <==> exists a: map<string, string> :: IsAssignment(job.matrixVars, job.matrixVars.Keys, a)
  {
    if Expands(job) {
      var a: map<string, string> := map k | k in job.matrixVars :: job.matrixVars[k][0];
      assert IsAssignment(job.matrixVars, job.matrixVars.Keys, a);
    }
  }

  ghost predicate Started(nodes: map<Id, Node>, job: Job) {
    Shaped(nodes) && StartId(job.id) in nodes && nodes[StartId(job.id)] == StartNode(job)
  }

  /** `after` comes from `before` by steps of the job. */
  ghost predicate Stepped(before: map<Id, Node>, after: map<Id, Node>, job: Job) {
    && Started(after, job) && OnlyJob(before, after, job.id)
    && (forall s :: HasStep(before, job, s) ==> HasStep(after, job, s))
    && (forall id :: id in after ==> OldOrStep(before, job, id, after[id]))
  }

  lemma SteppedOnce(nodes: map<Id, Node>, job: Job, step: Step)
    requires Started(nodes, job) && step in job.steps
    ensures Stepped(nodes, AddStep(nodes, job, step), job) && HasStep(AddStep(nodes, job, step), job, step.id)
  {
    AddStepKeeps(nodes, job, step);
    if ':' !in job.id {
      Prefixes(job.id, step.id);
    }
  }

  lemma SteppedTwice(a: map<Id, Node>, b: map<Id, Node>, c: map<Id, Node>, job: Job)
    requires Stepped(a, b, job) && Stepped(b, c, job)
    ensures Stepped(a, c, job)
  {
    OnlyJobTwice(a, b, c, job.id);
  }

  lemma OnlyJobTwice(a: map<Id, Node>, b: map<Id, Node>, c: map<Id, Node>, job: string)
    requires OnlyJob(a, b, job) && OnlyJob(b, c, job)
    ensures OnlyJob(a, c, job)
  {
  }

  method AddSteps(job: Job, steps: seq<Step>, nodes0: map<Id, Node>) returns (nodes: map<Id, Node>)
    requires Started(nodes0, job)
    requires forall s :: s in steps ==> s in job.steps
    ensures Stepped(nodes0, nodes, job)
    ensures forall s :: s in steps ==> HasStep(nodes, job, s.id)
  {
    nodes := nodes0;
    for i := 0 to |steps|
      invariant Stepped(nodes0, nodes, job)
      invariant forall s :: s in steps[..i] ==> HasStep(nodes, job, s.id)
    {
      var step := steps[i];
      assert step in steps && steps[..i + 1] == steps[..i] + [step];
      SteppedOnce(nodes, job, step);
      SteppedTwice(nodes0, nodes, AddStep(nodes, job, step), job);
      nodes := AddStep(nodes, job, step);
    }
    assert steps[..|steps|] == steps;
  }

  /** The run nodes of the steps, in the steps' order, as far as the graph has them. */
  function ExistingRuns(job: Job, nodes: map<Id, Node>, steps: seq<Step>): seq<Id> {
    if steps == [] then []
    else
      var front, id := ExistingRuns(job, nodes, steps[..|steps| - 1]), RunId(job.id, steps[|steps| - 1].id);
      if id in nodes then front + [id] else front
  }

  lemma {:induction false} ExistingRunsFacts(job: Job, nodes: map<Id, Node>, steps: seq<Step>)
    ensures forall d :: d in ExistingRuns(job, nodes, steps) ==> d in nodes && LastSegment(d) == "run"
    ensures (forall s :: s in steps ==> RunId(job.id, s.id) in nodes) ==> ExistingRuns(job, nodes, steps) == RunIds(job, steps)
    ensures (forall s :: s in steps ==> RunId(job.id, s.id) !in nodes) ==> ExistingRuns(job, nodes, steps) == []
  {
    if steps != [] {
      var n := |steps| - 1;
      ExistingRunsFacts(job, nodes, steps[..n]);
      Suffixes(job.id, steps[n].id);
      assert steps[n] in steps && forall s :: s in steps[..n] ==> s in steps;
    }
  }

  method EndDependencies(job: Job, nodes: map<Id, Node>) returns (deps: seq<Id>)
    ensures deps == ExistingRuns(job, nodes, job.steps)
  {
    deps := [];
    for i := 0 to |job.steps|
      invariant deps == ExistingRuns(job, nodes, job.steps[..i])
    {
      var stepID := RunId(job.id, job.steps[i].id);
      assert job.steps[..i + 1][..i] == job.steps[..i];
      if stepID in nodes {
        deps := deps + [stepID];
      }
    }
    assert job.steps[..|job.steps|] == job.steps;
  }

  ghost predicate NewJob(nodes: map<Id, Node>, job: Job) {
    ':' !in job.id && forall id :: id in nodes ==> FirstSegment(id) != job.id
  }

  /** The job's start node is there, and only nodes of the job were added. */
  ghost predicate InProgress(before: map<Id, Node>, nodes: map<Id, Node>, job: Job) {
    && Started(nodes, job) && OnlyJob(before, nodes, job.id)
    && forall id :: id in nodes ==> OldOrOwn(before, job, id, nodes[id])
  }

  lemma JobBegins(nodes0: map<Id, Node>, job: Job)
    requires Shaped(nodes0)
    ensures InProgress(nodes0, nodes0[StartId(job.id) := StartNode(job)], job)
  {
    AddShaped(nodes0, StartNode(job));
    if ':' !in job.id {
      Prefixes(job.id, "");
    }
  }

  lemma JobGoesOn(nodes0: map<Id, Node>, nodes: map<Id, Node>, after: map<Id, Node>, job: Job)
    requires InProgress(nodes0, nodes, job) && Stepped(nodes, after, job) && Expands(job)
    ensures InProgress(nodes0, after, job)
  {
    OnlyJobTwice(nodes0, nodes, after, job.id);
  }

  method AddJob(job: Job, nodes0: map<Id, Node>) returns (nodes: map<Id, Node>)
    requires Shaped(nodes0)
    ensures Shaped(nodes) && OnlyJob(nodes0, nodes, job.id)
    ensures NewJob(nodes0, job) ==> JobWired(nodes, job, Expands(job))
    ensures forall id :: id in nodes ==> OldOrOwn(nodes0, job, id, nodes[id])
  {
    var start := StartNode(job);
    JobBegins(nodes0, job);
    nodes := nodes0[start.id := start];
    var steps := SortSteps(job.steps);
    SameSteps(steps, job.steps);
    var matrix := Expand(job.matrixVars);
    ExpandsMeansCombination(job);
    assert matrix != [] ==> matrix[0] in matrix;
    assert Expands(job) <==> matrix != [];
    for i := 0 to |matrix|
      invariant InProgress(nodes0, nodes, job)
      invariant i == 0 ==> nodes == nodes0[start.id := start]
      invariant i > 0 ==> forall s :: s in job.steps ==> HasStep(nodes, job, s.id)
    {
      ghost var before := nodes;
      nodes := AddSteps(job, steps, nodes);
      JobGoesOn(nodes0, before, nodes, job);
    }
    var deps := EndDependencies(job, nodes);
    JobEnds(nodes0, nodes, job, deps);
    nodes := nodes[EndId(job.id) := EndNode(job, deps)];
  }

  lemma JobEnds(nodes0: map<Id, Node>, nodes: map<Id, Node>, job: Job, deps: seq<Id>)
    requires InProgress(nodes0, nodes, job) && deps == ExistingRuns(job, nodes, job.steps)
    requires if Expands(job) then forall s :: s in job.steps ==> HasStep(nodes, job, s.id)
             else nodes == nodes0[StartId(job.id) := StartNode(job)]
    ensures InProgress(nodes0, nodes[EndId(job.id) := EndNode(job, deps)], job)
    ensures NewJob(nodes0, job) ==> JobWired(nodes[EndId(job.id) := EndNode(job, deps)], job, Expands(job))
  {
    if NewJob(nodes0, job) {
      NoRunsYet(job, nodes0);
    }
    ExistingRunsFacts(job, nodes, job.steps);
    FinishJob(job, nodes0, nodes, EndNode(job, deps));
  }

  lemma NoRunsYet(job: Job, nodes0: map<Id, Node>)
    requires NewJob(nodes0, job)
    ensures forall s :: s in job.steps ==> RunId(job.id, s.id) !in nodes0[StartId(job.id) := StartNode(job)]
  {
    forall s | s in job.steps
      ensures RunId(job.id, s.id) !in nodes0 && RunId(job.id, s.id) != StartId(job.id)
    {
      Prefixes(job.id, s.id);
      Suffixes(job.id, s.id);
    }
  }

  lemma SameSteps(a: seq<Step>, b: seq<Step>)
    requires multiset(a) == multiset(b)
    ensures forall s :: s in a <==> s in b
  {
    MultisetElems(a, b);
    assert forall s :: s in a <==> s in Elems(a);
    assert forall s :: s in b <==> s in Elems(b);
  }

  lemma FinishJob(job: Job, nodes0: map<Id, Node>, nodes: map<Id, Node>, end: Node)
    requires Shaped(nodes) && OnlyJob(nodes0, nodes, job.id)
    requires end.id == EndId(job.id) && forall d :: d in end.dependencies ==> d in nodes && LastSegment(d) == "run"
    ensures Shaped(nodes[end.id := end]) && OnlyJob(nodes0, nodes[end.id := end], job.id)
    ensures StartId(job.id) != end.id && forall s :: HasStep(nodes, job, s) ==> HasStep(nodes[end.id := end], job, s)
  {
    Suffixes(job.id, "");
    AddShaped(nodes, end);
    if ':' !in job.id {
      Prefixes(job.id, "");
    }
    forall s | HasStep(nodes, job, s)
      ensures HasStep(nodes[end.id := end], job, s)
    {
      Suffixes(job.id, s);
    }
  }

  // ----- The whole graph

  ghost predicate Resolvable(jobs: map<Id, Job>) {
    Closed(NeedsOf(jobs)) && Acyclic(NeedsOf(jobs))
  }

  /** Jobs are stored under their own identifiers, which contain no colon. */
  ghost predicate PlainIds(jobs: map<Id, Job>) {
    forall id :: id in jobs ==> jobs[id].id == id && ':' !in id
  }

  lemma WiredKept(before: map<Id, Node>, after: map<Id, Node>, other: string, job: Job, expanded: bool)
    requires OnlyJob(before, after, other) && ':' !in other && ':' !in job.id && job.id != other
    requires JobWired(before, job, expanded)
    ensures JobWired(after, job, expanded)
  {
    Prefixes(job.id, "");
    forall s | HasStep(before, job, s)
      ensures HasStep(after, job, s)
    {
      Prefixes(job.id, s);
    }
  }

  /** The jobs of the order are distinct, plainly named and cover the map. */
  ghost predicate OrderOk(jobs: map<Id, Job>, order: seq<Job>) {
    && (forall i :: 0 <= i < |order| ==> ':' !in order[i].id)
    && (forall i, j :: 0 <= i < j < |order| ==> order[i].id != order[j].id)
    && (forall id :: id in jobs ==> jobs[id] in order)
  }

  lemma OrderIsOk(jobs: map<Id, Job>, ids: seq<Id>, order: seq<Job>)
    requires PlainIds(jobs) && IsTopo(NeedsOf(jobs), ids) && JobsAt(jobs, ids, order)
    ensures OrderOk(jobs, order)
  {
    forall id | id in jobs
      ensures jobs[id] in order
    {
      assert id in NeedsOf(jobs).Keys - {};
      assert id in Elems(ids);
      var i :| 0 <= i < |ids| && ids[i] == id;
      assert order[i] == jobs[id];
    }
  }

  /** The node belongs to one of the first `n` jobs. */
  ghost predicate Contributed(order: seq<Job>, n: nat, node: Node) {
    exists k :: 0 <= k < n && k < |order| && OwnNode(order[k], node)
  }

  method AddJobs(ghost jobs: map<Id, Job>, order: seq<Job>) returns (nodes: map<Id, Node>)
    ensures Shaped(nodes) && (order == [] ==> nodes == map[])
    ensures OrderOk(jobs, order) ==> forall i :: 0 <= i < |order| ==> JobWired(nodes, order[i], Expands(order[i]))
    ensures forall id :: id in nodes ==> Contributed(order, |order|, nodes[id])
  {
    nodes := map[];
    for i := 0 to |order|
      invariant forall id :: id in nodes ==> Contributed(order, i, nodes[id])
      invariant Shaped(nodes) && (i == 0 ==> nodes == map[])
      invariant OrderOk(jobs, order) ==>
                  && (forall j :: 0 <= j < i ==> JobWired(nodes, order[j], Expands(order[j])))
                  && (forall id, k :: id in nodes && i <= k < |order| ==> FirstSegment(id) != order[k].id)
    {
      ghost var before := nodes;
      nodes := AddJob(order[i], nodes);
      if OrderOk(jobs, order) {
        forall j | 0 <= j < i
          ensures JobWired(nodes, order[j], Expands(order[j]))
        {
          WiredKept(before, nodes, order[i].id, order[j], Expands(order[j]));
        }
      }
    }
  }

  /**
   The graph of a set of jobs. For all jobs whatsoever it is dependency-closed and acyclic; it is
   empty when the needs cannot be resolved, since that error is dropped; with plain identifiers
   every job is wired start - runs - end; and no node is there that is not some job's own.
   */
  method BuildDAG(jobs: map<Id, Job>) returns (g: Graph)
    ensures Shaped(g.nodes)
    ensures WellKeyed(g) && Closed(DepsOf(g)) && Acyclic(DepsOf(g))
    ensures !Resolvable(jobs) ==> g.nodes == map[]
    ensures Resolvable(jobs) && PlainIds(jobs) ==>
              forall id :: id in jobs ==> JobWired(g.nodes, jobs[id], Expands(jobs[id]))
    ensures forall id :: id in g.nodes ==> exists j :: j in jobs && OwnNode(jobs[j], g.nodes[id])
  {
    var resolved, ids := ResolveJobOrder(jobs);
    var order := if resolved.Success? then resolved.value else [];
    var nodes := AddJobs(jobs, order);
    g := Graph(nodes);
    ShapedIsAcyclic(g);
    if resolved.Success? {
      OwnersAreJobs(jobs, ids, order);
    }
    if resolved.Success? && PlainIds(jobs) {
      OrderIsOk(jobs, ids, order);
      AllWired(jobs, order, nodes);
    }
  }

  lemma OwnersAreJobs(jobs: map<Id, Job>, ids: seq<Id>, order: seq<Job>)
    requires JobsAt(jobs, ids, order)
    ensures forall n :: Contributed(order, |order|, n) ==> exists j :: j in jobs && OwnNode(jobs[j], n)
  {
    forall n | Contributed(order, |order|, n)
      ensures exists j :: j in jobs && OwnNode(jobs[j], n)
    {
      var k :| 0 <= k < |order| && OwnNode(order[k], n);
      assert ids[k] in jobs && OwnNode(jobs[ids[k]], n);
    }
  }

  lemma AllWired(jobs: map<Id, Job>, order: seq<Job>, nodes: map<Id, Node>)
    requires OrderOk(jobs, order) && forall i :: 0 <= i < |order| ==> JobWired(nodes, order[i], Expands(order[i]))
    ensures forall id :: id in jobs ==> JobWired(nodes, jobs[id], Expands(jobs[id]))
  {
    forall id | id in jobs
      ensures JobWired(nodes, jobs[id], Expands(jobs[id]))
    {
      var i :| 0 <= i < |order| && order[i] == jobs[id];
    }
  }
}
