# A verified model of the scheduling, evolution and policy core

The repository runs CI plans as a causal graph, evolves code candidates behind a stability gate, and decides on
pass or fail with a tunable policy. This project models those three parts in Dafny and proves what they promise.

- **Scheduling.** `Digraph` holds the graph theory (paths, cycles, topological orders), `Schedules` and `Waves` the
  orders that batch scheduling and queue-driven scheduling determine. `DagExecutor`, `DagResolver` and `JobOrder` are
  the three worklist algorithms in imperative form, each proved against those orders. `Workers` is the state machine
  of the goroutines of one batch, with semaphore, mutex and wait group. `Reports` says what an event list tells of the
  nodes that ran. `Plan` builds the graph of a set of jobs, and
  `PlanRun` says how the executor runs it.
- **Evolution runtime.** `EventQueues` (an append-only file with a read offset, through a line scanner with a bounded
  buffer), `QueueWorker` (deduplication), `RateLimits`, `RateLimitRuns`, `RateLimitQuota` and
  `RateLimitLru` (sliding window, cleanup, eviction), `AntiCollapse`, `StabilityGates`, `EvolutionLoop` and `LoopGates`
  (the live loop and the gate inside it), `ReplayEngines` (the state rebuilt from the event store).
- **Policy and comparison.** `PolicyEngine`, `PolicyTraces` and `PolicyAudits` (decision, audit trace, trace replay), `ConfigStores`
  (smoothing, drift, bounded undo), `AnomalyDetection` (smoothed rates, outlier test), `OnlineStats` (the one-pass mean
  and variance both share), `CausalTraces` (three comparators of event lists), `DiffStrip` (the diff-stripping
  automaton).

Go objects with mutable fields are classes, Go loops are loops. Every such method is tied by its contract to a function
of its inputs or of the old state, and the results below are lemmas about those functions. Go map iteration is an
arbitrary choice (`:|`), so every contract holds for every iteration order; goroutine scheduling is an arbitrary choice
of an enabled step. Floats are reals. Shell commands, square roots, payload hashes, the JSON encoding and clock
readings are parameters.

## Where the code does something else than it says

- `docs/DESIGN.md:86` promises ten requests per minute and token. Eviction forgets a token's admissions, so a token that
  comes back within the window can exceed its quota (`RateLimitQuota.EvictedTokenComesBack`). The promise holds for
  every token that is never evicted, and in all runs exactly when there are no more tokens than the table may keep, or
  limit or window are degenerate (`RateLimitQuota.SpacedIff`, `RateLimitQuota.SlidingWindowIff`).
- The same line calls the eviction LRU. The code evicts by *oldest live* admission, so neither a later admission nor a
  rejected request, which uses the token all the same, protects a token (`RateLimitLru.RejectedUseIsForgotten`). The
  eviction is least recently used in all runs exactly when the limit admits nothing or the window is no longer than one
  unit of the clock (`RateLimitLru.LruIff`); it is least recently *admitted* exactly when the limit is at most one
  (`RateLimitRuns.ByAdmissionUpToOne`).
- `internal/policy/evolution/stability_gate.go:80` says `ImportState` restores the internal state. It makes a detector as
  large as the long window and with the gate's threshold. So neither the default gate, whose detector holds five scores
  beside a long window of ten, nor the gate of the minimal loop, whose detector has another threshold, ever comes back
  the same, after any calls of their loops (`LoopGates.ServerLoopDoesNotRestore`, `LoopGates.MinimalLoopDoesNotRestore`).
  `StabilityGates.RestoreIsFaithfulIff` gives the exact condition for every gate.
- `internal/policy/explain.go:11-12` says a trace uses the same logic as the engine. It has its own copy of the *default*
  configuration. The trace of a decision replays exactly when its score is the default configuration's
  (`PolicyTraces.AuditIsExact`), and all decisions of a configuration replay exactly when its tables read like the
  default ones (`PolicyAudits.AlwaysReplaysIff`, with `PolicyAudits.HeavySyntaxFails` as a failing one).
- `internal/policy/evolution/event_queue.go:101-102` says the offset moves to the end of the file. One encoded event of
  65536 bytes or more stops the scanner inside its line, and the offset stays there (`EventQueues.EventQueue.ReadFrom`).
  Provided that no proper tail of such an encoding reads as an event, as with JSON objects, later reads skip that event
  and lose no other (`EventQueues.ReadOutcome`).
- `internal/dag/executor.go:19` says the executor returns the events in topological order. On a cyclic graph it returns,
  without an error, the events of the part that is not behind a cycle (`Schedules.ExecutedExactly`,
  `Schedules.BatchesAreTopological`).
- `internal/policy/config_store.go:20` says the instability lies between 0 and 1. `ConfigStores.LevelRangeIff` says for
  which scores it does; five zero scores make it not a number (`ConfigStores.FiveZeros`), and a negative mean makes it
  negative (`ConfigStores.NegativeLevel`).
- A job without steps, or with a matrix variable without values, is reported finished before it is reported started, at
  every parallelism (`PlanRun.FinishedAfterStarted`).

## Model

| member | source | states |
|---|---|---|
| DagExecutor.BuildIndex | internal/dag/executor.go:25-40 | in every order of visiting the nodes: fails exactly when some dependency is not a node, naming such a one; otherwise dependents are listed with multiplicity and indegrees count unmet entries |
| DagExecutor.InitialReady | internal/dag/executor.go:46-53 | the ready queue is the ascending list of the nodes without dependencies |
| DagExecutor.ReleaseOne | internal/dag/executor.go:95-102 | finishing one node lowers exactly its dependents' counts; those that reach zero, and only those, become ready, once each, duplicates included |
| DagExecutor.Release | internal/dag/executor.go:94-103 | after a batch the indegrees describe the larger done set and the queue is the ascending list of what is ready |
| DagExecutor.EffectiveParallel | internal/dag/executor.go:21-23 | a positive parallelism is taken as it is, any other stands for four, so it is always at least one |
| DagExecutor.CollectEvents | internal/dag/executor.go:87-92 | events are collected in batch order, whatever order the results came in |
| DagExecutor.RunAndCollect | internal/dag/executor.go:67-92 | a batch run concurrently under any interleaving yields the events of its nodes in batch order |
| DagExecutor.SchedulerLoop | internal/dag/executor.go:55-104 | the loop's batches are those of the schedule that the graph and the parallelism determine, and its event list is theirs, batch after batch |
| DagExecutor.Executor.Run | internal/dag/executor.go:20-107 | for every map iteration order and every interleaving of worker steps the same batches and the same event list; the list tells, of exactly the nodes not behind a cycle, the kind and outcome of each (`TraceTellsRun`), node after node in batch order; the only error is an unknown dependency, never a cycle |
| DagExecutor.TraceTellsRun | internal/dag/executor.go:19-180 | of every step that runs one started event, later one finished event with the output of its command in its directory, successful exactly when the exit code is zero, and after that an artifact exactly then; of every job node its one event; of cache nodes, and of nodes that do not run, none; and no event of a node before all events of its dependencies |
| Reports.NodeIsReported | internal/dag/executor.go:87-175 | running any list of distinct nodes leaves each node's events as said, whatever the other nodes' events in between |
| Workers.StepInv | internal/dag/executor.go:71-84 | every enabled worker step keeps the invariant on semaphore, mutex, wait group and results, and uses up one step |
| Workers.Progress | internal/dag/executor.go:71-85 | no deadlock: a step is enabled exactly until all workers are finished |
| Workers.WaitReturns | internal/dag/executor.go:85 | with all workers spawned, the wait group is at zero exactly when all are finished, and then all results are present |
| Workers.EveryInterleaving | internal/dag/executor.go:57-85 | in every interleaving at most m slots of the semaphore are held and at most one worker holds the mutex; every run that cannot go on has taken 8 steps a worker, left everything released and stored every result |
| Workers.RunBatch | internal/dag/executor.go:67-85 | under an arbitrary scheduler the result map is the node-wise one |
| Schedules.RunsOnce | internal/dag/executor.go:59-104 | every node runs at most once |
| Schedules.StrictlyLater | internal/dag/executor.go:94-103 | a dependency runs in a strictly earlier batch than the node that needs it |
| Schedules.BatchIsIndependent | internal/dag/executor.go:59-65 | no node of a batch depends on a node of the same batch |
| Schedules.ExecutedExactly | internal/dag/executor.go:59-106 | executed are exactly the nodes that neither lie on a cycle nor depend, over any number of steps, on one that does; all of them exactly when the graph is acyclic |
| Schedules.NonFullOrChain | internal/dag/executor.go:59-65 | there is a chain of executed nodes with a node for every batch that is not full |
| Schedules.BatchesAreTopological | internal/dag/executor.go:19-107 | at every parallelism the nodes, batch after batch, are in topological order exactly when the graph is acyclic |
| Schedules.LengthBound | internal/dag/executor.go:59-104 | the loop takes at most n / m batches plus the number of nodes on some dependency chain among the n executed nodes |
| Schedules.OneWorkerIsKahn | internal/dag/executor.go:59-65 | with one worker the executor runs the nodes in the resolver's order, one a batch |
| Schedules.LeastTopologicalOrder | internal/dag/resolver.go:36-53 | smallest-first gives the lexicographically least of all topological orders; it is one exactly when there is no cycle |
| Schedules.KahnRespectsDeps | internal/dag/resolver.go:37-53 | even on a cyclic graph every node taken has its dependencies before it |
| DagResolver.CountIndegrees | internal/dag/resolver.go:10-21 | fails exactly on an unknown dependency, and otherwise counts entries |
| DagResolver.InitialReady | internal/dag/resolver.go:23-34 | the first ready list is ascending and exact |
| DagResolver.VisitNode | internal/dag/resolver.go:43-51 | each entry naming the taken node is struck off, and the node becomes ready at its last one |
| DagResolver.Rescan | internal/dag/resolver.go:42-52 | in every order of visiting the nodes, the ready list stays ascending and exact |
| DagResolver.ResolveOrder | internal/dag/resolver.go:9-60 | unknown dependency, cycle and success are told apart exactly; on success the nodes come in the smallest-first order |
| Waves.FifoIsTopo | internal/ci/dag.go:45-65 | the queue's order is topological exactly on acyclic graphs, complete exactly then, and takes exactly the nodes that are not behind a cycle |
| Waves.WaveByWave | internal/ci/dag.go:45-61 | the queue takes the jobs wave by wave: first all that need nothing, then all that need only those, and so on |
| Waves.WaveIsDepth | internal/ci/dag.go:45-61 | the first k waves are the jobs whose longest dependency chain has at most k jobs |
| Waves.QueueOrderIff | internal/ci/dag.go:38-61 | for every list: it is topological and in order of readiness (jobs without needs first and ascending; of two others the one whose last-taken need comes earlier, and with the same last need the smaller one) exactly when the graph is acyclic and the list is the queue's |
| Waves.OnlyQueueOrder | internal/ci/dag.go:38-61 | no graph has two such orders |
| JobOrder.BuildJobIndex | internal/ci/dag.go:10-36 | fails exactly when some job needs an unknown one, naming the least unknown need of the least such job |
| JobOrder.WakeNeighbors | internal/ci/dag.go:51-60 | the jobs that finishing one makes ready join the queue once each and in ascending order |
| JobOrder.DrainQueue | internal/ci/dag.go:45-61 | the result lists the jobs in queue order |
| JobOrder.ResolveJobOrder | internal/ci/dag.go:9-68 | an unknown job, a cycle and success are told apart exactly; the unknown job named is the least unknown need of the least job that has one; on success the jobs come in the only topological order by readiness |
| Plan.Expand | internal/ci/matrix.go:9-29 | the combinations are exactly the assignments of a value to every variable, once each when no variable repeats a value; with no variable, the empty one |
| Plan.AddSteps | internal/ci/plan.go:57-85 | every step gets its cache node and its run node, which has the step's command and directory and waits for the job's start node and that cache node; nothing else is added, and nodes of other jobs stay as they are |
| Plan.EndDependencies | internal/ci/plan.go:95-100 | the end node waits for exactly the run nodes that exist, in the order of the steps |
| Plan.AddJob | internal/ci/plan.go:38-102 | one job is wired up without touching another job's nodes or adding any that is not its own |
| Plan.ShapedIsAcyclic | internal/ci/plan.go:40-101 | a graph of start, cache, run and end nodes wired this way is closed and acyclic, whatever the identifiers |
| Plan.BuildDAG | internal/ci/plan.go:13-105 | the graph is always dependency-closed and acyclic, and each of its nodes is, field by field, the start, end, cache or run node of some job, a run node with command and directory of a step of that job; unresolvable jobs give the empty graph; resolvable jobs with plain identifiers are all wired up |
| PlanRun.EveryNodeRuns | internal/ci/plan.go:34-104 | the executor runs every node of a built graph, at every parallelism |
| PlanRun.StepsInsideJob | internal/ci/plan.go:75-101 | at every parallelism a job's start, each of its steps and its end run in strictly increasing batches, and each step's cache node in an earlier batch than the step |
| PlanRun.ShellGetsSteps | internal/ci/plan.go:76-84 | every step node of a built graph gives the shell the command and the directory of a step of one of the jobs |
| PlanRun.JobIsTold | internal/ci/plan.go:38-102 | what the executor reports of a wired job with distinct step identifiers: one started and one finished event, and for every step, between the two, exactly the events of its own command in its own directory |
| PlanRun.SmallerFirst | internal/dag/executor.go:53-65 | of two nodes ready together the smaller identifier is collected first, at every parallelism |
| PlanRun.FinishedAfterStarted | internal/ci/plan.go:88-101 | a job is reported finished after it is reported started exactly when it has a step and a matrix combination; otherwise before |
| RateLimits.RateLimiter.Middleware | internal/policy/evolution/ratelimit.go:135-165 | a header that is not `Bearer ` and a non-empty token is rejected without using quota; with a token, admitted exactly below the limit of live admissions |
| RateLimits.RateLimiter.Cleanup | internal/policy/evolution/ratelimit.go:66-118 | stale timestamps go, at most maxTokens tokens stay, and the evicted are a set that the sort allows, ties either way |
| RateLimits.EvictOldest | internal/policy/evolution/ratelimit.go:91-113 | exactly the surplus is evicted, no evicted token having a later first live timestamp than a kept one |
| RateLimitRuns.TableIsHistory | internal/policy/evolution/ratelimit.go:66-165 | over every run with a non-decreasing clock the pruned table and the list of all admissions since the token was last evicted have the same live timestamps |
| RateLimitRuns.DecisionIsSlidingWindow | internal/policy/evolution/ratelimit.go:147-160 | a request is admitted exactly when fewer than limit earlier admissions of its token since its last eviction lie within the window |
| RateLimitRuns.CleanupIsInvisible | internal/policy/evolution/ratelimit.go:66-118 | a cleanup at any moment changes no later decision of a token it does not evict |
| RateLimitRuns.AdmissionsAreSpaced | internal/policy/evolution/ratelimit.go:147-162 | between two evictions of a token, its admissions i and i + limit are at least one window apart |
| RateLimitQuota.SparedHistory | internal/policy/evolution/ratelimit.go:66-165 | of a token that no cleanup of the run evicts, the history is the list of all admissions ever made |
| RateLimitQuota.SparedWindow | internal/policy/evolution/ratelimit.go:147-160 | such a token is admitted exactly when fewer than limit of all its admissions lie within the window |
| RateLimitQuota.SparedSpacing | internal/policy/evolution/ratelimit.go:147-162 | all admissions of such a token are spaced |
| RateLimitQuota.EvictedTokenComesBack | internal/policy/evolution/ratelimit.go:91-118 | a run of four steps in which one request in ten time units is allowed and an evicted token has two, three units apart |
| RateLimitQuota.QuotaExceeded | internal/policy/evolution/ratelimit.go:66-165 | whenever there are more non-empty tokens than the table may keep, some allowed run uses up a token's quota and then forgets it |
| RateLimitQuota.SpacedIff | internal/policy/evolution/ratelimit.go:66-165 | over all runs with tokens of a given set and evictions the code allows, all admissions are spaced exactly when the set has at most maxTokens non-empty tokens, or none, or limit or window are degenerate |
| RateLimitQuota.SlidingWindowIff | internal/policy/evolution/ratelimit.go:66-165 | under the same condition, and no other, requests are decided by all admissions within the window |
| RateLimitRuns.EvictsOldestLive | internal/policy/evolution/ratelimit.go:71-113 | over a non-decreasing clock the first live timestamp is the oldest, so no evicted token has a later oldest live timestamp than any live timestamp of a kept one |
| RateLimitRuns.RecentTokenEvicted | internal/policy/evolution/ratelimit.go:103-106 | a run of three requests in which cleanup evicts the token that was admitted last |
| RateLimitRuns.ByAdmissionUpToOne | internal/policy/evolution/ratelimit.go:91-113 | an evicted token was last admitted no later than a kept one, in all runs, exactly when the limit is at most one |
| RateLimitLru.LruIff | internal/policy/evolution/ratelimit.go:66-165 | an evicted token was last requested, admitted or not, no later than a kept one, in all allowed runs, exactly when the limit admits nothing or the window is no longer than one unit of the clock |
| RateLimitLru.LastUsedIsEvicted | internal/policy/evolution/ratelimit.go:91-113 | for every other limit and window: two tokens, three requests, and a cleanup that may evict the one requested last |
| RateLimitLru.RejectedUseIsForgotten | internal/policy/evolution/ratelimit.go:91-160 | one admission in ten units: a token's second request is rejected, and a cleanup evicts it although no request was later |
| EventQueues.ScanLoop | internal/policy/evolution/event_queue.go:116-125 | the scanner loop delivers the decodable lines in order up to the end or the first line that is too long |
| EventQueues.ScanOutcome | internal/policy/evolution/event_queue.go:116-133 | from any event boundary: everything, without an error, exactly when every remaining event fits the buffer; otherwise everything before the first that does not |
| EventQueues.EventQueue.Enqueue | internal/policy/evolution/event_queue.go:59-73 | whatever earlier reads met, the event goes to the end of the log and of the unread tail; the offset stays |
| EventQueues.EventQueue.LoadAll | internal/policy/evolution/event_queue.go:77-98 | whatever earlier reads met and without moving the offset, all events ever enqueued, in order and without an error, exactly when each encodes to fewer than 65536 bytes; otherwise, with an error, those before the first that does not |
| EventQueues.EventQueue.ReadFrom | internal/policy/evolution/event_queue.go:104-134 | over every run of the queue, failed reads included, what was delivered is the events behind the offset that fit, once each and in order; a read without an error leaves nothing unread, and one with an error has moved on by at least 65536 bytes and stands inside a long event's line |
| EventQueues.ReadOutcome | internal/policy/evolution/event_queue.go:104-134 | for every offset a read can leave behind: how far the next one gets, that it yields exactly the fitting events on the way, and exactly when it fails |
| EventQueues.LongEventIsSkipped | internal/policy/evolution/event_queue.go:112-133 | when no proper tail of a long event's encoding reads as an event, a read from inside its line fails again inside it or goes on exactly like a read from the next event: the long event is never delivered |
| EventQueues.LongEventBlocks | internal/policy/evolution/event_queue.go:116-133 | a codec and events that do not fit, after which a first read returns nothing but an error |
| AntiCollapse.WindowIsNewest | internal/policy/evolution/anti_collapse.go:19-24 | after any additions the window holds exactly the newest scores |
| AntiCollapse.AntiCollapseDetector.Add | internal/policy/evolution/anti_collapse.go:19-24 | the score joins the window, and one score goes when there is one too many |
| AntiCollapse.AntiCollapseDetector.ComputeVariance | internal/policy/evolution/anti_collapse.go:27-38 | the two-pass population variance |
| AntiCollapse.AntiCollapseDetector.IsOscillating | internal/policy/evolution/anti_collapse.go:62-75 | true exactly when some slope change has an amplitude above one percent of the mean |
| AntiCollapse.OscillatesIff | internal/policy/evolution/anti_collapse.go:62-75 | a window oscillates exactly when some inner score is above both its neighbours or below both, and the next one is off by more than one percent of the mean |
| AntiCollapse.ConstantWindow | internal/policy/evolution/anti_collapse.go:27-75 | a window of equal scores has no variance and does not oscillate |
| AntiCollapse.SpikeVariance | internal/policy/evolution/anti_collapse.go:27-38 | a spike still in the window bounds the variance from below, whatever else the window holds |
| StabilityGates.StabilityGate.WithDetector | internal/policy/evolution/stability_gate.go:15-24 | the gate shares the given detector |
| StabilityGates.StabilityGate.Default | internal/policy/evolution/stability_gate.go:27-29 | a detector of five scores beside a long window of ten |
| StabilityGates.StabilityGate.V2 | internal/policy/evolution/stability_gate.go:32-42 | detector and long window of one size, thresholds equal |
| StabilityGates.StabilityGate.Check | internal/policy/evolution/stability_gate.go:44-62 | both windows take the score, then the adaptive threshold and the variance decide |
| StabilityGates.AcceptsIff | internal/policy/evolution/stability_gate.go:51-61 | without roots: a score passes exactly when the detector's variance is below its threshold and, with two scores or more in the long window, the score is at least 100, or is above the threshold by a distance whose square is at least the squared factor times the window's variance (for a negative factor accordingly); with fewer, when it reaches the threshold |
| StabilityGates.StabilityGate.ExportState | internal/policy/evolution/stability_gate.go:65-78 | everything but the detector's own size and threshold |
| StabilityGates.StabilityGate.ImportState | internal/policy/evolution/stability_gate.go:81-91 | a fresh detector of the long window's size and the gate's threshold, with the exported window |
| StabilityGates.InStepAnswers | internal/policy/evolution/stability_gate.go:44-62 | bisimulation: gates in step stay in step and answer every series of checks alike |
| StabilityGates.RestoreIsFaithfulIff | internal/policy/evolution/stability_gate.go:65-91 | for every gate: the restored gate answers every future series of checks as the original does exactly when neither detector can pass anything, or both can, reach equally far back, and no series of at most that many scores passes with a variance between the two thresholds |
| StabilityGates.EqualThresholdsIff | internal/policy/evolution/stability_gate.go:65-91 | with equal thresholds only the reach of the two variance tests matters |
| StabilityGates.FreshGateIff | internal/policy/evolution/stability_gate.go:65-91 | for an unused detector with another threshold, faithful exactly when no window of whole numbers up to its size has a variance between the thresholds |
| StabilityGates.FullGateIff | internal/policy/evolution/stability_gate.go:65-91 | for a full detector only windows of its own length count |
| StabilityGates.GapSpoils | internal/policy/evolution/stability_gate.go:65-91 | for every gate, one such window of the detector's length is enough for a different answer |
| StabilityGates.MinimalDoesNotRestore | internal/policy/evolution/stability_gate.go:65-91 | a gate with a detector of ten scores and another threshold than its own never restores faithfully, whatever its two windows hold, although both reach equally far |
| StabilityGates.V2Restores | internal/policy/evolution/stability_gate.go:32-91 | a gate built by the V2 constructor restores faithfully after any past |
| StabilityGates.DefaultDoesNotRestore | internal/policy/evolution/stability_gate.go:27-91 | the default gate never does, whatever it has seen |
| EvolutionLoop.SafeEvolutionLoop.Evolve | internal/policy/evolution/safe_loop_v3.go:60-113 | the whole state after a call, including that a rolled-back call has moved both windows but neither sequence nor store, also for a detector shared with the gate |
| EvolutionLoop.TruncIff | internal/policy/evolution/evaluator.go:10-11 | Go's conversion: the integer no larger in size than the number, by less than one, and of no other sign |
| EvolutionLoop.ScoreEntersWindows | internal/policy/evolution/safe_loop_v3.go:71-80 | for all scores and weights, the newest score in both windows after a call is the product of candidate score and weight without its fraction |
| EvolutionLoop.AcceptedIff | internal/policy/evolution/evaluator.go:10-13 | accepted are exactly the candidates whose weighted score without its fraction is at least the current one's and passes the gate |
| EvolutionLoop.RollsBackIff | internal/policy/evolution/rollback.go:15-28 | a call is rolled back exactly when it leaves the window with a variance not below the threshold, or with a sharp turn |
| EvolutionLoop.FaithfulIff | internal/policy/evolution/evaluator.go:10-11 | the weight leaves a score as it is exactly when the score is zero, or the weight is at least one and adds less than one to the score's size |
| EvolutionLoop.StoredEvent | internal/policy/evolution/safe_loop_v3.go:84-110 | the event of a call that is kept and stored has the raw scores and the weight of the call, the next sequence number, and the mean of the window that the call leaves |
| EvolutionLoop.SafeEvolutionLoop.StabilityScore | internal/policy/evolution/safe_loop_v3.go:122-139 | the mean of the live window |
| EvolutionLoop.LiveWindows | internal/policy/evolution/safe_loop_v3.go:71-82 | over every run the live windows hold the weighted scores of the latest calls, rolled back or not |
| EvolutionLoop.StoreIsNumbered | internal/policy/evolution/safe_loop_v3.go:84-110 | with all appends succeeding the stored events are numbered 1, 2, 3, ... without a gap |
| EvolutionLoop.KeptCallsAreStored | internal/policy/evolution/safe_loop_v3.go:80-110 | a stretch of calls that are not rolled back and whose appends succeed adds exactly its raw candidate scores to the store, whatever happened before |
| LoopGates.SharedWindows | internal/policy/evolution/safe_loop_v3.go:52-78 | over every run of the minimal loop its gate's detector is the loop's own and has taken every weighted score twice |
| LoopGates.MinimalLoopDoesNotRestore | internal/policy/evolution/safe_loop_v3.go:52-78 | after every run of the minimal loop, whatever its calls, the gate does not restore faithfully |
| LoopGates.ServerLoopDoesNotRestore | cmd/evolution-api/main.go:441-450 | nor does the default gate of the server's loop, after any run of it |
| ReplayEngines.ApplyEvent | internal/policy/evolution/replay_engine.go:34-71 | detector, gate and state move on as the fold of the log says, a gate import included |
| ReplayEngines.Rebuild | internal/policy/evolution/replay_engine.go:11-75 | the loop computes the fold of the log |
| ReplayEngines.RebuiltState | internal/policy/evolution/replay_engine.go:11-75 | of any log: the windows hold the newest raw candidates; gate threshold and gate detector are those of the last event with gate data, if there is one; stability score, mode, sequence and seed are determined |
| ReplayEngines.SequenceAgreesIff | internal/policy/evolution/replay_engine.go:33-35 | the rebuilt sequence is the live one exactly when every failed append is followed by one that succeeded; the mode agrees as soon as anything is stored |
| ReplayEngines.SequenceAgrees | internal/policy/evolution/replay_engine.go:33-35 | in particular when all appends succeed |
| ReplayEngines.ReplayHeals | internal/policy/evolution/replay_engine.go:33-72 | detector window and stability score agree with the live loop whenever the last five calls were kept and stored and left the score as it is, the long window whenever that holds of the last ten, whatever happened or failed before |
| ReplayEngines.WeightOneHeals | internal/policy/evolution/replay_engine.go:33-72 | in particular after five, or ten, calls of weight one that were neither rolled back nor lost by the store |
| ReplayEngines.AgreesThroughoutIff | internal/policy/evolution/replay_engine.go:41-61 | detector window and long window agree with the live ones at every moment of a run exactly when every call was kept and either stored with the score as it is, or not stored and without effect on either window |
| ReplayEngines.GateDetectorIsLost | internal/policy/evolution/replay_engine.go:41-61 | the gate's own detector window is never rebuilt |
| ReplayEngines.SharedDetectorDiffers | internal/policy/evolution/safe_loop_v3.go:52-78 | a loop that shares its detector with the gate counts a score twice, so one call is already rebuilt differently |
| QueueWorker.Worker.ProcessOne | internal/policy/evolution/worker.go:61-76 | the whole state after an event: skipped, failed or remembered |
| QueueWorker.SuccessIsStored | internal/policy/evolution/worker.go:61-76 | a success appends one event with the queue event's own scores and weight, a failure appends and remembers nothing, and a remembered event changes nothing at all |
| QueueWorker.Worker.CleanupProcessed | internal/policy/evolution/worker.go:110-128 | map and list lose the same oldest identifiers and keep the newest 500 |
| QueueWorker.Worker.ProcessEvents | internal/policy/evolution/worker.go:60-77 | the events of one read are handled in order |
| QueueWorker.DedupWindow | internal/policy/evolution/worker.go:25-28 | over every run: the list is duplicate-free and holds the newest successes, all of the first 999 and then 500 and those since the last multiple of a thousand, so never more than 1500, and two successes of one identifier have at least 500 other successes between them |
| PolicyEngine.Evaluate | internal/policy/engine.go:43-125 | score, status, actions and reasons of the decision |
| PolicyEngine.DecisionTells | internal/policy/engine.go:62-125 | one reason for every failed gate in order, then certification or cap and penalty; the status by the thresholds; exactly the actions of the status, a block being escalated unless it is for non-determinism |
| PolicyEngine.ScoreTells | internal/policy/engine.go:72-101 | by products: score times total weight is a hundred times the earned weight, or the score is sixty and that is less and a hard-fail gate failed; active chaos takes its penalty off, down to zero |
| PolicyEngine.ScoreMonotone | internal/policy/engine.go:49-118 | with non-negative weights and penalties the score stays in 0 to 100, and turning failed gates into passed ones lowers neither score nor status, through cap, penalty and thresholds |
| PolicyTraces.SortedByName | internal/policy/explain.go:50-54 | the trace takes the gates in order of name |
| PolicyTraces.TallyPermutes | internal/policy/explain.go:56-70 | neither weight sum depends on the order of the gates |
| PolicyTraces.TraceWeight | internal/policy/explain.go:57-60 | the trace's zero-means-ten weight is the engine's default weight |
| PolicyTraces.BuildTrace | internal/policy/explain.go:13-149 | the whole trace, from gates sorted by name |
| PolicyTraces.TraceTells | internal/policy/explain.go:13-149 | a trace names the gates that the engine's reasons name, as often, in ascending order, and has exactly the stages that apply, in the engine's order |
| PolicyTraces.StepsArrive | internal/policy/explain.go:72-148 | the steps of every trace are consistent and arrive at the default configuration's score |
| PolicyTraces.Replay | internal/policy/explain.go:184-200 | accepts exactly the traces whose steps up to a final one add up to the recorded score |
| PolicyTraces.AuditIsExact | internal/policy/explain.go:13-200 | the trace of any decision whatsoever replays exactly when its score is the default configuration's |
| PolicyTraces.DefaultDecisionsReplay | internal/policy/explain.go:184-200 | for all gates, certificates and chaos reports the trace of a default-configuration decision replays |
| PolicyAudits.AlwaysReplaysIff | internal/policy/explain.go:23-40 | all decisions of a configuration replay exactly when its weights, hard-fail gates and penalties read like the default ones on every name and mode, its thresholds being its own |
| PolicyAudits.HeavySyntaxFails | internal/policy/explain.go:23-40 | with a syntax gate of weight 40, one passed and one unlisted failed gate score 80 where the trace arrives at 75 |
| OnlineStats.ShiftFromMean | internal/policy/config_store.go:50-53 | moving the centre away from the mean costs n times the squared distance |
| OnlineStats.DeviationStep | internal/policy/config_store.go:50-53 | one more score adds the product of its distances to the old and the new mean |
| OnlineStats.OnePassIsTwoPass | internal/policy/config_store.go:50-53 | one update takes the two-pass mean and variance of the scores so far to those with the new score |
| OnlineStats.Welford | internal/policy/config_store.go:50-53 | the update as written keeps both figures exact |
| ConfigStores.ConfigStore.UpdateScore | internal/policy/config_store.go:41-60 | mean, variance and instability are those of every score ever fed |
| ConfigStores.ConfigStore.ShouldUpdate | internal/policy/config_store.go:64-73 | five scores and an instability that is a number of at most one half |
| ConfigStores.ConfigStore.AdaptiveAlpha | internal/policy/config_store.go:76-84 | the smaller factor above one half |
| ConfigStores.ConfigStore.Update | internal/policy/config_store.go:88-119 | smoothed thresholds, replaced maps, and the previous configuration on a history of at most ten |
| ConfigStores.UpdateMoves | internal/policy/config_store.go:98-135 | each threshold covers three tenths of the way to the proposed one, or nine hundredths exactly when the scores are unsteady; maps are replaced exactly when proposed |
| ConfigStores.RepeatedProposal | internal/policy/config_store.go:88-135 | repeating a proposal leaves of every threshold's way the product of 0.7 for each full and 0.91 for each slowed update |
| ConfigStores.ConfigStore.Rollback | internal/policy/config_store.go:122-131 | the newest saved configuration comes back; false and no change when there is none |
| ConfigStores.SlowdownIff | internal/policy/config_store.go:56-59 | without roots: the smoothing slows down exactly for five or more scores of positive mean whose variance exceeds a 400th of the squared mean, or of zero mean with some spread |
| ConfigStores.ShouldUpdateIff | internal/policy/config_store.go:64-73 | without roots: from the fifth score on updates are advised exactly when the scores do not slow down and the mean is not zero |
| ConfigStores.LevelRangeIff | internal/policy/config_store.go:20-58 | the instability is a number between 0 and 1 exactly before the fifth score, for a positive mean, for a zero mean with some spread, and for a negative mean without any |
| ConfigStores.FiveZeros | internal/policy/config_store.go:56-59 | five scores of zero make it no number at all |
| ConfigStores.NegativeLevel | internal/policy/config_store.go:56-59 | scores that spread around a negative mean make it negative |
| ConfigStores.EmaOrder | internal/policy/config_store.go:133-135 | a smoothed value lies between old and new, and smoothing keeps order |
| ConfigStores.RunInOrder | internal/policy/config_store.go:88-131 | no run of updates and rollbacks disorders pass, warn and fail or leaves the range of what was proposed |
| ConfigStores.UndoRefinesUnlimited | internal/policy/config_store.go:88-131 | the bounded store is a store with unlimited undo, its history the newest part, until a rollback finds nothing although something was saved |
| ConfigStores.NestedUndoRestores | internal/policy/config_store.go:88-131 | matching updates and rollbacks nested at most ten deep restore the configuration exactly |
| ConfigStores.HistoryIsNewest | internal/policy/config_store.go:92-96 | after any updates the history is the newest ten of the saved configurations |
| ConfigStores.UpdatesThenRollbacks | internal/policy/config_store.go:88-131 | k updates and then k rollbacks land on the start for k up to ten, and otherwise on the configuration before the last ten updates |
| AnomalyDetection.AnomalyDetector.UpdateEMA | internal/policy/learner/anomaly.go:58-94 | every figure is the one the whole history defines: smoothed score and rates, mean, and a deviation whose square is the variance; the first event does not count for the rates |
| AnomalyDetection.SmoothedFigures | internal/policy/learner/anomaly.go:58-87 | the smoothed score starts at the first score; every later observation moves it a fifth of the way to its score, and the rates a fifth of the way to one or zero |
| AnomalyDetection.ChaosSeenIff | internal/policy/learner/anomaly.go:35-55 | from the trace of a decision the detector learns of chaos exactly when it was active and the run was not found non-deterministic |
| AnomalyDetection.AnomalyDetector.Replay | internal/policy/learner/anomaly.go:35-55 | the state becomes that of the log, whatever it was before |
| AnomalyDetection.AnomalyDetector.IsAnomaly | internal/policy/learner/anomaly.go:97-116 | said without roots: three observations, and either a squared distance above four variances or a drop of more than 20 below the smoothed score; the reasons name which |
| AnomalyDetection.ZScoreIff | internal/policy/learner/anomaly.go:106-110 | the quotient test with the running deviation is the test on the two-pass variance |
| AnomalyDetection.HistoryDetermines | internal/policy/learner/anomaly.go:35-94 | a detector rebuilt from a log equals the one that lived through it, field by field |
| AnomalyDetection.EmaStaysWithin | internal/policy/learner/anomaly.go:67-87 | the smoothed score stays in the range of the scores, the smoothed rates stay rates |
| AnomalyDetection.OutliersAreRare | internal/policy/learner/anomaly.go:106-110 | a detector that has seen a history, live or replayed from a log, reports fewer than a quarter of that history's own scores as z-score anomalies |
| CausalTraces.InstrumentEvents | internal/ci/causal/causal_runtime.go:8-39 | position, phase, causal identifier, and as parent the event before when it belongs to the same job |
| CausalTraces.IdsAreUnique | internal/ci/causal/causal_event.go:22-24 | whatever the events, bars in their fields included, no two events of a list have the same causal identifier |
| CausalTraces.PhaseIff | internal/ci/causal/causal_runtime.go:42-55 | each phase stands for exactly its kinds of event |
| CausalTraces.LocateDivergence | internal/ci/causal/divergence_locator.go:19-116 | nothing exactly when the traces agree everywhere; otherwise the first disagreement and its kind, or the end of the shorter trace |
| CausalTraces.LocatedKindIff | internal/ci/causal/divergence_locator.go:19-116 | the kind reported: of a cache decision, of content, of a missing or an extra event, each exactly when it applies |
| CausalTraces.FindFirstDivergentNode | internal/ci/causal/causal_diff.go:29-100 | the same for the coarser agreement, which ignores identifiers and payloads other than artifacts |
| CausalTraces.CoarseKindIff | internal/ci/causal/causal_diff.go:29-100 | the same for the coarse comparator, where a cache mismatch is one of status only |
| CausalTraces.Verify | internal/ci/replay_verifier.go:69-99 | the verdict and the first differing position |
| CausalTraces.LocatorIsFiner | internal/ci/causal/divergence_locator.go:19-116 | whenever the coarse comparator reports a difference, the locator reports one there or earlier |
| CausalTraces.LocatorExact | internal/ci/causal/divergence_locator.go:19-116 | for all event lists: the locator finds nothing exactly when the lists are, position by position, the same up to where job ends and step begins, and continue the previous event's job alike |
| CausalTraces.LocatorFindsLeast | internal/ci/causal/divergence_locator.go:19-116 | with job identifiers none of which is another one followed by a bar and a rest: nothing exactly when the lists are equal, and otherwise the least position where they differ |
| CausalTraces.ComparatorsAgree | internal/ci/replay_verifier.go:78-99 | with such job identifiers and an injective payload hash, locator and verifier agree and name the same position |
| CausalTraces.AgreeOnJobsIff | internal/ci/replay_verifier.go:78-99 | for every set of job identifiers: on all lists of these jobs the two agree exactly when none is another one followed by a bar and a rest |
| CausalTraces.BarFreeIsSafe | internal/ci/causal/causal_event.go:22-24 | job identifiers without a bar are such a set |
| CausalTraces.BarHidesDifference | internal/ci/causal/causal_event.go:22-24 | a bar in a job identifier lets the locator miss a difference that the verifier finds |
| DiffStrip.Step | internal/agent/code_agent.go:245-314 | one line: whether it is kept, and the next state, which is the header or hunk-mark state for such a line from any state, and stays in a hunk only for a line of its body |
| DiffStrip.StripDiffMarkers | internal/agent/code_agent.go:240-318 | the four-state automaton keeps exactly the lines that are no marker and no deletion inside a hunk, a hunk being what follows a hunk mark without a foreign line in between |
| DiffStrip.DeletionGoesIff | internal/agent/code_agent.go:278-313 | a deletion line goes exactly when a hunk mark stands before it with only lines in between that are empty or begin with a space, a plus or a minus, and are no headers |
| DiffStrip.PatchKeepsNewSide | internal/agent/code_agent.go:230-318 | of headers, a hunk mark and a hunk exactly the hunk's lines that are no deletions are kept |
| DiffStrip.OutputIsCleanSubsequence | internal/agent/code_agent.go:204-318 | the kept lines are a subsequence of the input's, none a header, metadata or hunk line |
| DiffStrip.UnchangedIff | internal/agent/code_agent.go:240-318 | exactly the texts without a marker line come back unchanged |
| DiffStrip.StripIdempotent | internal/agent/code_agent.go:240-318 | stripping twice is stripping once, on every string |
| DiffStrip.StillDiffIff | internal/agent/code_agent.go:321-328 | a stripped patch passes the diff test again exactly when the first line of the input that survives starts with `---` or `+++` |
| DiffStrip.JoinSplit | internal/agent/code_agent.go:241-317 | joining the lines of a text gives the text back |

## Left out

- Numbers: Go's 64-bit integers are unbounded here, and rounding, infinities and not-a-number are left out, except that
  `ConfigStores.Level` keeps the not-a-number of a zero mean apart.
- DagExecutor.Executor.Run: asks that every node be stored under its own identifier (`WellKeyed`), as `BuildDAG` does. For
  a node stored under another key the code can look up a missing node and fail on it, which is not modelled.
- DagExecutor.BuildIndex: asks for the same, since the indexes are kept by identifier and looked up by key.
- DagExecutor.InitialReady: asks for the same, since the indexes are kept by identifier and looked up by key.
- DagResolver.CountIndegrees: asks for the same, since the indexes are kept by identifier and looked up by key.
- DagResolver.Rescan: asks for the same, since the indexes are kept by identifier and looked up by key.
- DagResolver.ResolveOrder: asks for the same, since the indexes are kept by identifier and looked up by key.
- The shell is a function of command and directory, so a command whose effect depends on the time or on
  other commands is not captured; the `{"output":...}` payload is a string.
- Plan.BuildDAG: cache keys and the returned snapshot are not modelled, as the graph does not depend on them. Steps of one
  identifier may be in any order, as Go's unstable sort leaves it.
- Plan.Expand: how often a combination occurs when a variable repeats a value is not stated; the graph does not depend on it.
- RateLimits.RateLimiter.Middleware: the HTTP response, its headers and the request that is passed on are left out; the clock is an argument.
- EventQueues.EventQueue.ReadFrom: the JSON encoding is a codec that writes one line, reads back what it wrote, and reads
  no event from a proper tail of an encoding of 65536 bytes or more. File errors and reopening an existing file are left out.
- QueueWorker.Worker.ProcessEvents: the polling loop, its sleeps and the running flag are left out, as are rewards to the selector. Events
  delivered together with a read error are dropped by the loop and do not reach this method.
- EvolutionLoop.SafeEvolutionLoop.Evolve: WAL contents, reason texts and the selector are left out; a loop without a WAL, which would fail on rollback, is
  not modelled.
- ReplayEngines.ReplayHeals: covers loops whose detector is not the gate's; for a shared detector see `SharedDetectorDiffers`.
- ReplayEngines.Rebuild: the bandit's arms are not modelled, only its seed.
- PolicyTraces.BuildTrace: the explanatory texts and the running trace number are left out, as are the explanation and its confidence.
- ConfigStore: the locks and the shadow evaluation against recent inputs are left out.
- AnomalyDetection.AnomalyDetector.UpdateEMA: the status is the yes-or-no of being BLOCK or FAIL.
- CausalTraces.Verify: the comparison only; running the plan again and reading both logs are not modelled.
- HTTP servers, LLM clients, sandboxing, SQLite storage, compiler ingest and semantic memory: they are I/O and calls into
  libraries whose behaviour is not part of this model.
- The reducer, the bandit selection and the shadow validator caches: the reducer is a fold without an invariant of its
  own, the selection is random, and the caches make no promise about agreeing with a fresh evaluation.
