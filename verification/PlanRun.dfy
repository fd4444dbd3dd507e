/** How the executor's schedule runs the graphs that `BuildDAG` builds. */
module PlanRun {
  import opened Ids
  import opened Digraph
  import opened Schedules
  import opened CausalGraph
  import opened JobOrder
  import opened Plan
  import opened Reports
  import opened DagExecutor

  /** Nothing of a built graph is left out, whatever the parallelism. */
  lemma EveryNodeRuns(g: Graph, m: nat)
    requires Shaped(g.nodes) && m >= 1
    ensures Closed(DepsOf(g)) && Executed(DepsOf(g), m, {}) == g.nodes.Keys
  {
    ShapedIsAcyclic(g);
    ExecutedExactly(DepsOf(g), m);
    assert DepsOf(g).Keys == g.nodes.Keys;
  }

  lemma BatchOf(g: Graph, m: nat, id: Id) returns (k: nat)
    requires Shaped(g.nodes) && m >= 1 && id in g.nodes
    ensures k < |Schedule(DepsOf(g), m, {})| && id in Schedule(DepsOf(g), m, {})[k]
  {
    EveryNodeRuns(g, m);
    var s := Schedule(DepsOf(g), m, {});
    assert id in Flatten(s);
    InFlatten(s, id);
    k :| 0 <= k < |s| && id in s[k];
  }

  lemma InRunIds(job: Job, steps: seq<Step>, s: Step)
    requires s in steps
    ensures RunId(job.id, s.id) in RunIds(job, steps)
  {
    var k :| 0 <= k < |steps| && steps[k] == s;
    assert RunIds(job, steps)[k] == RunId(job.id, s.id);
  }

  /**
   Every step of a wired job runs after the job's start node and after its own cache node, and
   before the job's end node, in strictly separate batches.
   */
  lemma StepsInsideJob(g: Graph, job: Job, m: nat, s: Step) returns (i: nat, c: nat, j: nat, k: nat)
    requires Shaped(g.nodes) && JobWired(g.nodes, job, true) && s in job.steps && m >= 1
    ensures i < j < k < |Schedule(DepsOf(g), m, {})| && c < j
    ensures StartId(job.id) in Schedule(DepsOf(g), m, {})[i]
    ensures CacheId(job.id, s.id) in Schedule(DepsOf(g), m, {})[c]
    ensures RunId(job.id, s.id) in Schedule(DepsOf(g), m, {})[j]
    ensures EndId(job.id) in Schedule(DepsOf(g), m, {})[k]
  {
    var deps := DepsOf(g);
    assert HasStep(g.nodes, job, s.id);
    InRunIds(job, job.steps, s);
    k := BatchOf(g, m, EndId(job.id));
    j := StrictlyLater(deps, m, k, EndId(job.id), RunId(job.id, s.id));
    i := StrictlyLater(deps, m, j, RunId(job.id, s.id), StartId(job.id));
    c := StrictlyLater(deps, m, j, RunId(job.id, s.id), CacheId(job.id, s.id));
  }

  /** A run node of a built graph gives the shell the command and the directory of a step of one of the jobs. */
  lemma ShellGetsSteps(jobs: map<Id, Job>, g: Graph, x: Id) returns (job: Job, s: Step)
    requires forall id :: id in g.nodes ==> exists j :: j in jobs && OwnNode(jobs[j], g.nodes[id])
    requires x in g.nodes && g.nodes[x].nodeType == StepRun
    ensures job in jobs.Values && s in job.steps && g.nodes[x].id == RunId(job.id, s.id)
    ensures g.nodes[x].jobID == job.id && g.nodes[x].stepID == s.id
    ensures g.nodes[x].action.command == s.run && g.nodes[x].action.workingDir == s.workingDir
  {
    var j :| j in jobs && OwnNode(jobs[j], g.nodes[x]);
    job := jobs[j];
    s :| s in job.steps && IsRun(job, s, g.nodes[x]);
  }

  // ----- What the executor's events tell of a job

  ghost predicate JobStarted(evs: seq<Event>, job: Job) {
    exists i :: OnlyAt(evs, StartId(job.id), "CI_JOB_STARTED", i) && evs[i].jobID == job.id
  }

  ghost predicate JobFinished(evs: seq<Event>, job: Job) {
    exists i :: OnlyAt(evs, EndId(job.id), "CI_JOB_FINISHED", i) && evs[i].jobID == job.id
  }

  /** The events of the step's run node are those of its command in its directory, between the job's start and end. */
  ghost predicate StepTold(evs: seq<Event>, job: Job, s: Step, shell: Shell) {
    && (exists n: Node :: n.id == RunId(job.id, s.id) && n.jobID == job.id && n.stepID == s.id
                          && StepReported(evs, n, shell(s.run, s.workingDir)))
    && AllBefore(evs, StartId(job.id), RunId(job.id, s.id)) && AllBefore(evs, RunId(job.id, s.id), EndId(job.id))
  }

  /** Distinct step identifiers. */
  predicate DistinctSteps(job: Job) {
    forall s, t :: s in job.steps && t in job.steps && s.id == t.id ==> s == t
  }

  lemma WiredNodesRun(g: Graph, id: Id)
    requires Shaped(g.nodes) && id in g.nodes
    ensures Runs(g, id)
  {
    ShapedIsAcyclic(g);
    if BehindCycle(DepsOf(g), id) {
      BehindMeansCycle(DepsOf(g), id);
    }
  }

  lemma StepIsTold(g: Graph, job: Job, evs: seq<Event>, shell: Shell, s: Step)
    requires Shaped(g.nodes) && JobWired(g.nodes, job, true) && TellsRun(g, evs, shell)
    requires DistinctSteps(job) && s in job.steps
    ensures StepTold(evs, job, s, shell)
  {
    var run := RunId(job.id, s.id);
    assert HasStep(g.nodes, job, s.id);
    InRunIds(job, job.steps, s);
    WiredNodesRun(g, run);
    assert Reported(evs, g.nodes[run], shell);
  }

  /**
   A wired job is told from its start to its end: one started event, one finished event, and in
   between, for every step, exactly the events of its command in its directory.
   */
  lemma JobIsTold(g: Graph, job: Job, evs: seq<Event>, shell: Shell)
    requires Shaped(g.nodes) && JobWired(g.nodes, job, true) && TellsRun(g, evs, shell) && DistinctSteps(job)
    ensures JobStarted(evs, job) && JobFinished(evs, job)
    ensures forall s :: s in job.steps ==> StepTold(evs, job, s, shell)
  {
    WiredNodesRun(g, StartId(job.id));
    WiredNodesRun(g, EndId(job.id));
    assert JobReported(evs, g.nodes[StartId(job.id)], "CI_JOB_STARTED", "RUNNING");
    assert JobReported(evs, g.nodes[EndId(job.id)], "CI_JOB_FINISHED", "SUCCESS");
    forall s | s in job.steps
      ensures StepTold(evs, job, s, shell)
    {
      StepIsTold(g, job, evs, shell, s);
    }
  }

  // ----- Order of the collected events

  ghost predicate Before(s: seq<Id>, x: Id, y: Id) {
    exists i, j :: 0 <= i < j < |s| && s[i] == x && s[j] == y
  }

  lemma BeforeIsStrict(s: seq<Id>, x: Id, y: Id)
    requires NoDup(s) && Before(s, x, y)
    ensures !Before(s, y, x)
  {
    var i, j :| 0 <= i < j < |s| && s[i] == x && s[j] == y;
  }

  lemma BeforeAppend(a: seq<Id>, b: seq<Id>, x: Id, y: Id)
    ensures Before(a, x, y) ==> Before(a + b, x, y)
    ensures Before(b, x, y) ==> Before(a + b, x, y)
    ensures x in a && y in b ==> Before(a + b, x, y)
  {
    var s := a + b;
    if Before(a, x, y) {
      var i, j :| 0 <= i < j < |a| && a[i] == x && a[j] == y;
      assert s[i] == x && s[j] == y;
    }
    if Before(b, x, y) {
      var i, j :| 0 <= i < j < |b| && b[i] == x && b[j] == y;
      assert s[|a| + i] == x && s[|a| + j] == y;
    }
    if x in a && y in b {
      var i :| 0 <= i < |a| && a[i] == x;
      var j :| 0 <= j < |b| && b[j] == y;
      assert s[i] == x && s[|a| + j] == y;
    }
  }

  lemma {:induction false} LaterBatchLater(ss: seq<seq<Id>>, i: nat, k: nat, x: Id, y: Id)
    requires i < k < |ss| && x in ss[i] && y in ss[k]
    ensures Before(Flatten(ss), x, y)
    decreases ss
  {
    BeforeAppend(ss[0], Flatten(ss[1..]), x, y);
    if i > 0 {
      LaterBatchLater(ss[1..], i - 1, k - 1, x, y);
    } else {
      assert y in ss[1..][k - 1];
      InFlatten(ss[1..], y);
    }
  }

  /** Of two ready nodes the one with the smaller identifier is collected first, at every parallelism. */
  lemma {:induction false} SmallerFirst(g: Deps, m: nat, done: set<Id>, x: Id, y: Id)
    requires m >= 1 && Sound(g, done) && x in Available(g, done) && y in Available(g, done) && Less(x, y)
    ensures Before(Flatten(Schedule(g, m, done)), x, y)
    decreases g.Keys - done
  {
    var b := NextBatch(g, m, done);
    var rest := Flatten(Schedule(g, m, done + Elems(b)));
    assert Flatten(Schedule(g, m, done)) == b + rest && (g.Keys - done) > (g.Keys - (done + Elems(b))) by {
      ScheduleStep(g, m, done);
    }
    BeforeAppend(b, rest, x, y);
    if y in b {
      PrefixClosed(g, m, done, x, y);
    } else {
      StaysReady(g, m, done, y);
      if x in b {
        StillRuns(g, m, done + Elems(b), y);
      } else {
        StaysReady(g, m, done, x);
        SmallerFirst(g, m, done + Elems(b), x, y);
      }
    }
  }

  lemma StaysReady(g: Deps, m: nat, done: set<Id>, x: Id)
    requires m >= 1 && Sound(g, done) && x in Available(g, done) && x !in NextBatch(g, m, done)
    ensures x in Available(g, done + Elems(NextBatch(g, m, done)))
    ensures Sound(g, done + Elems(NextBatch(g, m, done)))
  {
    NextBatchFacts(g, m, done);
    SoundGrows(g, done, Elems(NextBatch(g, m, done)));
  }

  /** A batch is a prefix of the ready nodes in identifier order. */
  lemma PrefixClosed(g: Deps, m: nat, done: set<Id>, x: Id, y: Id)
    requires m >= 1 && x in Available(g, done) && Less(x, y)
    requires y in NextBatch(g, m, done)
    ensures Before(NextBatch(g, m, done), x, y)
  {
    var all, b := Enumerate(Available(g, done)), NextBatch(g, m, done);
    EnumerateFacts(Available(g, done));
    assert x in Elems(all);
    var i :| 0 <= i < |all| && all[i] == x;
    var j :| 0 <= j < |b| && b[j] == y;
    LessMeansBefore(all, i, j);
    assert b[i] == x;
  }

  lemma LessMeansBefore(s: seq<Id>, i: nat, j: nat)
    requires Ascending(s) && i < |s| && j < |s| && Less(s[i], s[j])
    ensures i < j
  {
    LessAsymmetric(s[i], s[j]);
  }

  /** What is ready runs in the end. */
  lemma StillRuns(g: Deps, m: nat, done: set<Id>, y: Id)
    requires m >= 1 && Sound(g, done) && y in Available(g, done)
    ensures y in Flatten(Schedule(g, m, done))
  {
    EndsExhausted(g, m, done);
    var end := done + Executed(g, m, done);
    assert DepsIn(g, end, y);
    assert y !in Available(g, end);
  }

  lemma {:induction false} LessUnderPrefix(p: string, a: string, b: string)
    requires Less(a, b)
    ensures Less(p + a, p + b)
  {
    if p == [] {
      assert p + a == a && p + b == b;
    } else {
      assert (p + a)[1..] == p[1..] + a && (p + b)[1..] == p[1..] + b;
      LessUnderPrefix(p[1..], a, b);
    }
  }

  lemma EndSortsFirst(job: string)
    ensures Less(EndId(job), StartId(job))
  {
    LessUnderPrefix(job + ":job_", "end", "start");
    assert job + ":job_" + "end" == EndId(job);
    assert job + ":job_" + "start" == StartId(job);
  }

  /**
   The finished event of a job comes after its started event exactly when the job has a step and
   its matrix has a combination; otherwise the end node waits for nothing and is collected first.
   */
  lemma FinishedAfterStarted(g: Graph, job: Job, m: nat)
    requires Shaped(g.nodes) && JobWired(g.nodes, job, Expands(job)) && m >= 1
    ensures Before(Flatten(Schedule(DepsOf(g), m, {})), StartId(job.id), EndId(job.id))
            <==> Expands(job) && job.steps != []
    ensures !(Expands(job) && job.steps != []) ==>
              Before(Flatten(Schedule(DepsOf(g), m, {})), EndId(job.id), StartId(job.id))
  {
    var deps := DepsOf(g);
    var s := Schedule(deps, m, {});
    if Expands(job) && job.steps != [] {
      var i, _, _, k := StepsInsideJob(g, job, m, job.steps[0]);
      LaterBatchLater(s, i, k, StartId(job.id), EndId(job.id));
    } else {
      assert g.nodes[EndId(job.id)].dependencies == [];
      EndSortsFirst(job.id);
      assert EndId(job.id) in Available(deps, {}) && StartId(job.id) in Available(deps, {});
      SmallerFirst(deps, m, {}, EndId(job.id), StartId(job.id));
      RunsOnce(deps, m, {});
      BeforeIsStrict(Flatten(s), EndId(job.id), StartId(job.id));
    }
  }
}
