/** The batch executor of the causal graph: index building, the scheduler loop, collection of events. */
module DagExecutor {
  import opened Wrappers
  import opened Ids
  import opened Digraph
  import opened Schedules
  import opened Indegrees
  import opened CausalGraph
  import opened Reports
  import Workers

  /** Builds both indexes; the nodes may be visited in any order, as a Go map range does. */
  method BuildIndex(g: Graph) returns (r: Result<(map<Id, seq<Id>>, map<Id, int>), GraphError>)
    requires WellKeyed(g)
    ensures r.Failure? <==> !Closed(DepsOf(g))
    ensures r.Success? ==> AdjOk(DepsOf(g), r.value.0) && IndegreeOk(DepsOf(g), {}, r.value.1)
    ensures r.Failure? ==> r.error.UnknownDependency? && r.error.id !in g.nodes
    ensures r.Failure? ==> exists x :: x in g.nodes && r.error.id in g.nodes[x].dependencies
  {
    ghost var deps := DepsOf(g);
    var indegree: map<Id, int> := map id | id in g.nodes :: 0;
    var adj: map<Id, seq<Id>> := map[];
    var todo := g.nodes.Keys;
    while todo != {}
      invariant PartlyIndexed(deps, todo, adj, indegree)
    {
      var id :| id in todo;
      var n := g.nodes[id];
      var step := AddEntries(g.nodes.Keys, n.id, n.dependencies, adj, indegree);
      if step.Failure? {
        assert step.error.id in deps[id] && step.error.id !in deps;
        return Failure(step.error);
      }
      NodeEntered(deps, todo, id, adj, indegree, step.value.0, step.value.1);
      adj, indegree := step.value.0, step.value.1;
      todo := todo - {id};
    }
    FullyIndexed(deps, adj, indegree);
    adj := SortLists(adj);
    return Success((adj, indegree));
  }

  /** Sorting the adjacency lists changes no multiplicity. */
  function SortLists(adj: map<Id, seq<Id>>): (r: map<Id, seq<Id>>)
    ensures forall d, x :: Entries(r, d, x) == Entries(adj, d, x)
  {
    var r := map d | d in adj :: Sort(adj[d]);
    assert forall d :: multiset(AdjOf(r, d)) == multiset(AdjOf(adj, d));
    r
  }

  method InitialReady(g: Graph, indegree: map<Id, int>) returns (ready: seq<Id>)
    requires WellKeyed(g) && IndegreeOk(DepsOf(g), {}, indegree)
    ensures ready == Enumerate(Available(DepsOf(g), {}))
  {
    ready := [];
    var todo := g.nodes.Keys;
    while todo != {}
      invariant todo <= g.nodes.Keys && NoDup(ready)
      invariant forall x :: x in ready <==> x in g.nodes && x !in todo && indegree[x] == 0
    {
      var id :| id in todo;
      if indegree[g.nodes[id].id] == 0 {
        ready := ready + [id];
      }
      todo := todo - {id};
    }
    SortedReadyIsAvailable(DepsOf(g), {}, indegree, ready);
    ready := Sort(ready);
  }

  /** Finishing `node` lowers its dependents' counts; those that reach zero join `ready`. */
  method ReleaseOne(ghost g: Deps, ghost done: set<Id>, ghost all: set<Id>, node: Id,
                    adj: map<Id, seq<Id>>, indegree0: map<Id, int>, ready0: seq<Id>)
    returns (indegree: map<Id, int>, ready: seq<Id>)
    requires AdjOk(g, adj) && IndegreeOk(g, done, indegree0) && ReadyOk(g, all, indegree0, ready0)
    requires node !in done && forall x :: x in all && x in g ==> node !in g[x]
    ensures IndegreeOk(g, done + {node}, indegree) && ReadyOk(g, all, indegree, ready)
  {
    indegree, ready := indegree0, ready0;
    var list := AdjOf(adj, node);
    for k := 0 to |list|
      invariant Countdown(g, indegree0, list, k, indegree) && ReadyOk(g, all, indegree, ready)
    {
      EntryPending(g, done, node, adj, list, k, indegree0, indegree);
      ghost var before := indegree;
      indegree, ready := Decrement(g, all, list[k], indegree, ready);
      CountdownStep(g, indegree0, list, k, before, indegree);
    }
    AllEntriesMet(g, done, node, adj, list, indegree0, indegree);
  }

  /** The loop body: one entry fewer, and ready when none is left. */
  method Decrement(ghost g: Deps, ghost all: set<Id>, x: Id, indegree0: map<Id, int>, ready0: seq<Id>)
    returns (indegree: map<Id, int>, ready: seq<Id>)
    requires indegree0.Keys == g.Keys && ReadyOk(g, all, indegree0, ready0)
    requires x in g && x !in all && indegree0[x] >= 1
    ensures indegree == indegree0[x := indegree0[x] - 1] && ReadyOk(g, all, indegree, ready)
  {
    indegree, ready := indegree0[x := indegree0[x] - 1], ready0;
    if indegree[x] == 0 {
      ready := ready + [x];
    }
  }

  /** After a batch: both indexes describe the larger done set again. */
  method Release(ghost g: Deps, ghost done: set<Id>, batch: seq<Id>, rest: seq<Id>,
                 adj: map<Id, seq<Id>>, indegree0: map<Id, int>)
    returns (indegree: map<Id, int>, ready: seq<Id>)
    requires AdjOk(g, adj) && IndegreeOk(g, done, indegree0) && NoDup(batch) && NoDup(rest)
    requires DownClosed(g, done)
    requires Elems(batch) <= Available(g, done) && Elems(rest) == Available(g, done) - Elems(batch)
    ensures IndegreeOk(g, done + Elems(batch), indegree)
    ensures ready == Enumerate(Available(g, done + Elems(batch)))
  {
    ghost var all := done + Elems(batch);
    indegree, ready := indegree0, rest;
    forall x | x in g
      ensures x in rest <==> x !in all && indegree[x] == 0
    {
      ZeroIsMet(g, done, x);
      assert x in rest <==> x in Elems(rest);
    }
    assert forall x :: x in rest ==> x in Elems(rest);
    assert done + Elems(batch[..0]) == done;
    for k := 0 to |batch|
      invariant IndegreeOk(g, done + Elems(batch[..k]), indegree) && ReadyOk(g, all, indegree, ready)
    {
      var node := batch[k];
      assert node in Elems(batch);
      assert batch[..k + 1] == batch[..k] + [node];
      assert Elems(batch[..k + 1]) == Elems(batch[..k]) + {node};
      assert done + Elems(batch[..k + 1]) == done + Elems(batch[..k]) + {node};
      assert forall x :: x in all ==> DepsIn(g, done, x);
      indegree, ready := ReleaseOne(g, done + Elems(batch[..k]), all, node, adj, indegree, ready);
    }
    assert batch[..|batch|] == batch;
    SortedReadyIsAvailable(g, all, indegree, ready);
    ready := Sort(ready);
  }

  /** The parallelism that a field value stands for. */
  function EffectiveParallel(m: int): (r: int)
    ensures r >= 1 && (m > 0 ==> r == m) && (m <= 0 ==> r == 4)
  {
    if m <= 0 then 4 else m
  }

  /** The event list that the graph determines: that of its schedule, batch after batch. */
  ghost function TraceOf(g: Graph, m: int, shell: Shell): seq<Event>
    requires m >= 1
  {
    EventsOf(g, Flatten(Schedule(DepsOf(g), m, {})), shell)
  }

  method CollectEvents(batch: seq<Id>, ghost g: Graph, ghost shell: Shell, results: map<Id, seq<Event>>) returns (evs: seq<Event>)
    requires forall x :: x in batch ==> x in g.nodes && x in results && results[x] == ExecuteNode(g.nodes[x], shell)
    ensures evs == EventsOf(g, batch, shell)
  {
    evs := [];
    for k := 0 to |batch|
      invariant evs == EventsOf(g, batch[..k], shell)
    {
      assert batch[..k + 1][..k] == batch[..k];
      if batch[k] in results {
        evs := evs + results[batch[k]];
      }
    }
    assert batch[..|batch|] == batch;
  }

  /** One batch: the workers run it, then its events are collected in batch order. */
  method RunAndCollect(g: Graph, batch: seq<Id>, m: int, shell: Shell) returns (evs: seq<Event>)
    requires NoDup(batch) && m >= 1 && forall x :: x in batch ==> x in g.nodes
    ensures evs == EventsOf(g, batch, shell)
  {
    var execute := (x: Id) => if x in g.nodes then ExecuteNode(g.nodes[x], shell) else [];
    var results := Workers.RunBatch(batch, m, execute);
    evs := CollectEvents(batch, g, shell, results);
  }

  lemma BatchIsKnown(g: Deps, done: set<Id>, batch: seq<Id>)
    requires Elems(batch) <= Available(g, done)
    ensures forall x :: x in batch ==> x in g
  {
    assert forall x :: x in batch ==> x in Elems(batch);
  }

  /** The single-threaded scheduler loop: batch after batch of the schedule, and the events of each. */
  method SchedulerLoop(g: Graph, m: int, adj: map<Id, seq<Id>>, indegree0: map<Id, int>, ready0: seq<Id>, shell: Shell)
    returns (allEvents: seq<Event>, ghost batches: seq<seq<Id>>)
    requires m >= 1 && AdjOk(DepsOf(g), adj) && IndegreeOk(DepsOf(g), {}, indegree0)
    requires ready0 == Enumerate(Available(DepsOf(g), {}))
    ensures batches == Schedule(DepsOf(g), m, {}) && allEvents == EventsOf(g, Flatten(batches), shell)
    ensures allEvents == TraceOf(g, m, shell)
  {
    ghost var deps := DepsOf(g);
    ghost var done: set<Id> := {};
    var indegree, ready := indegree0, ready0;
    allEvents, batches := [], [];
    NothingSoFar(g, m, shell);
    while ready != []
      invariant ready == Enumerate(Available(deps, done)) && IndegreeOk(deps, done, indegree)
      invariant SoFar(g, m, done, batches, allEvents, shell)
      decreases deps.Keys - done
    {
      var batchSize := if |ready| > m then m else |ready|;
      var batch, rest := ready[..batchSize], ready[batchSize..];
      NextRound(g, m, done, batches, allEvents, shell, batchSize);
      var evs := RunAndCollect(g, batch, m, shell);
      allEvents := allEvents + evs;
      indegree, ready := Release(deps, done, batch, rest, adj, indegree);
      batches := batches + [batch];
      done := done + Elems(batch);
    }
    NothingLeft(deps, m, done);
    assert batches + [] == batches;
  }

  lemma BatchCollected(g: Graph, batches: seq<seq<Id>>, batch: seq<Id>, shell: Shell)
    ensures EventsOf(g, Flatten(batches + [batch]), shell) == EventsOf(g, Flatten(batches), shell) + EventsOf(g, batch, shell)
  {
    FlattenSnoc(batches, batch);
    EventsOfAppend(g, Flatten(batches), batch, shell);
  }

  /** What one more batch does to the bookkeeping of the loop. */
  lemma NextRound(g: Graph, m: int, done: set<Id>, batches: seq<seq<Id>>, evs: seq<Event>, shell: Shell, size: nat)
    requires m >= 1 && SoFar(g, m, done, batches, evs, shell) && Enumerate(Available(DepsOf(g), done)) != []
    requires var n := |Enumerate(Available(DepsOf(g), done))|; size == if n > m then m else n
    ensures var deps, ready := DepsOf(g), Enumerate(Available(DepsOf(g), done));
            var batch, rest := ready[..size], ready[size..];
            && NoDup(batch) && NoDup(rest) && (forall x :: x in batch ==> x in g.nodes) && DownClosed(deps, done)
            && Elems(batch) <= Available(deps, done) && Elems(rest) == Available(deps, done) - Elems(batch)
            && (deps.Keys - done) > (deps.Keys - (done + Elems(batch)))
            && SoFar(g, m, done + Elems(batch), batches + [batch], evs + EventsOf(g, batch, shell), shell)
  {
    var deps := DepsOf(g);
    var batch := Enumerate(Available(deps, done))[..size];
    BatchFacts(deps, m, done, size);
    DownClosedGrows(deps, done, Elems(batch));
    BatchIsKnown(deps, done, batch);
    ConcatAssoc(batches, [batch], Schedule(deps, m, done + Elems(batch)));
    BatchCollected(g, batches, batch, shell);
  }

  /** The state of the loop in the middle of the schedule. */
  ghost predicate SoFar(g: Graph, m: int, done: set<Id>, batches: seq<seq<Id>>, evs: seq<Event>, shell: Shell)
    requires m >= 1
  {
    && done <= g.nodes.Keys && DownClosed(DepsOf(g), done)
    && Schedule(DepsOf(g), m, {}) == batches + Schedule(DepsOf(g), m, done)
    && evs == EventsOf(g, Flatten(batches), shell)
  }

  lemma NothingSoFar(g: Graph, m: int, shell: Shell)
    requires m >= 1
    ensures SoFar(g, m, {}, [], [], shell)
  {
    assert [] + Schedule(DepsOf(g), m, {}) == Schedule(DepsOf(g), m, {});
  }

  lemma NothingLeft(g: Deps, m: nat, done: set<Id>)
    requires m >= 1 && Enumerate(Available(g, done)) == []
    ensures Schedule(g, m, done) == []
  {
    EnumerateFacts(Available(g, done));
  }

  /** The node was run: it neither lies on a cycle nor depends on one. */
  ghost predicate Runs(g: Graph, x: Id) {
    x in g.nodes && !BehindCycle(DepsOf(g), x)
  }

  /**
   What the executor's list says of a graph: exactly the nodes that can run are reported, each
   once and by its kind and the outcome of its command, and nothing of a node comes before all
   of a dependency.
   */
  ghost predicate TellsRun(g: Graph, evs: seq<Event>, shell: Shell) {
    && (forall x :: Runs(g, x) ==> Reported(evs, g.nodes[x], shell))
    && (forall k :: 0 <= k < |evs| ==> Runs(g, evs[k].nodeID))
    && forall x, d :: x in g.nodes && d in g.nodes[x].dependencies ==> AllBefore(evs, d, x)
  }

  lemma RunNodes(g: Graph, m: int, x: Id)
    requires Closed(DepsOf(g)) && m >= 1
    ensures Runs(g, x) <==> x in Flatten(Schedule(DepsOf(g), m, {}))
  {
    ExecutedExactly(DepsOf(g), m);
    assert x in Executed(DepsOf(g), m, {}) <==> x in Flatten(Schedule(DepsOf(g), m, {}));
  }

  lemma DependencyFirst(g: Graph, m: int, shell: Shell, x: Id, d: Id)
    requires m >= 1 && InOrderOf(TraceOf(g, m, shell), Flatten(Schedule(DepsOf(g), m, {})))
    requires x in g.nodes && d in g.nodes[x].dependencies
    ensures AllBefore(TraceOf(g, m, shell), d, x)
  {
    var f := Flatten(Schedule(DepsOf(g), m, {}));
    if x in f {
      var q :| 0 <= q < |f| && f[q] == x;
      BatchesRespectDeps(DepsOf(g), m, {}, q);
      assert d in {} + Elems(f[..q]);
      var p :| 0 <= p < q && f[..q][p] == d;
      assert AllBefore(TraceOf(g, m, shell), f[p], f[q]);
    }
  }

  /** Said of the list itself, whatever the parallelism. */
  lemma TraceTellsRun(g: Graph, m: int, shell: Shell)
    requires WellKeyed(g) && Closed(DepsOf(g)) && m >= 1
    ensures TellsRun(g, TraceOf(g, m, shell), shell)
    ensures InOrderOf(TraceOf(g, m, shell), Flatten(Schedule(DepsOf(g), m, {})))
  {
    var f := Flatten(Schedule(DepsOf(g), m, {}));
    RunsOnce(DepsOf(g), m, {});
    NodesInOrder(g, f, shell);
    forall x | Runs(g, x)
      ensures Reported(TraceOf(g, m, shell), g.nodes[x], shell)
    {
      RunNodes(g, m, x);
      var p :| 0 <= p < |f| && f[p] == x;
      NodeIsReported(g, f, shell, p);
    }
    forall k | 0 <= k < |TraceOf(g, m, shell)|
      ensures Runs(g, TraceOf(g, m, shell)[k].nodeID)
    {
      RunNodes(g, m, TraceOf(g, m, shell)[k].nodeID);
    }
    forall x, d | x in g.nodes && d in g.nodes[x].dependencies
      ensures AllBefore(TraceOf(g, m, shell), d, x)
    {
      DependencyFirst(g, m, shell, x, d);
    }
  }

  class Executor {
    const graph: Graph
    var maxParallel: int

    constructor (g: Graph, m: int)
      ensures graph == g && maxParallel == m
    {
      graph := g;
      maxParallel := m;
    }

    /**
     Runs the graph. Neither the order in which maps are ranged over nor the interleaving of the
     workers shows in the result: batches and events are a function of the graph, the parallelism
     and the shell, and the events tell what was run and with which outcome.
     A cycle is never reported.
     */
    method Run(shell: Shell) returns (r: Result<seq<Event>, GraphError>, ghost batches: seq<seq<Id>>)
      requires WellKeyed(graph)
      modifies this`maxParallel
      ensures maxParallel == EffectiveParallel(old(maxParallel))
      ensures r.Failure? <==> !Closed(DepsOf(graph))
      ensures r.Failure? ==> r.error.UnknownDependency? && r.error.id !in graph.nodes
      ensures r.Success? ==> r.value == TraceOf(graph, maxParallel, shell)
      ensures r.Success? ==> batches == Schedule(DepsOf(graph), maxParallel, {}) && InOrderOf(r.value, Flatten(batches))
      ensures r.Success? ==> TellsRun(graph, r.value, shell)
    {
      if maxParallel <= 0 {
        maxParallel := 4;
      }
      var index := BuildIndex(graph);
      if index.Failure? {
        return Failure(index.error), [];
      }
      var ready := InitialReady(graph, index.value.1);
      var allEvents;
      allEvents, batches := SchedulerLoop(graph, maxParallel, index.value.0, index.value.1, ready, shell);
      TraceTellsRun(graph, maxParallel, shell);
      return Success(allEvents), batches;
    }
  }

  /** Splitting the ready list in two gives the schedule's next batch and what stays ready. */
  lemma BatchFacts(g: Deps, m: int, done: set<Id>, size: nat)
    requires m >= 1 && Enumerate(Available(g, done)) != []
    requires var n := |Enumerate(Available(g, done))|; size == if n > m then m else n
    ensures var ready := Enumerate(Available(g, done));
            var batch, rest := ready[..size], ready[size..];
            && batch == NextBatch(g, m, done) && NoDup(batch) && NoDup(rest)
            && Elems(batch) <= Available(g, done) && Elems(rest) == Available(g, done) - Elems(batch)
            && (g.Keys - done) > (g.Keys - (done + Elems(batch)))
            && Schedule(g, m, done) == [batch] + Schedule(g, m, done + Elems(batch))
  {
    var ready := Enumerate(Available(g, done));
    EnumerateFacts(Available(g, done));
    assert ready[0] in Elems(ready);
    assert ready[..size] == NextBatch(g, m, done);
    AscendingNoDup(ready);
    SplitNoDup(ready, size);
    assert Elems(ready[..size]) <= Elems(ready);
    ScheduleStep(g, m, done);
  }

  lemma SplitNoDup(s: seq<Id>, k: nat)
    requires NoDup(s) && k <= |s|
    ensures NoDup(s[..k]) && NoDup(s[k..]) && Elems(s[k..]) == Elems(s) - Elems(s[..k])
  {
    assert s == s[..k] + s[k..];
    forall x | x in s[k..]
      ensures x !in s[..k]
    {
      var j :| 0 <= j < |s[k..]| && s[k..][j] == x;
      assert s[k + j] == x;
    }
  }
}
