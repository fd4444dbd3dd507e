/** `ResolveJobOrder`: queue-driven topological order of jobs over their `Needs`. */
module JobOrder {
  import opened Wrappers
  import opened Ids
  import opened Digraph
  import opened Indegrees
  import opened Waves

  datatype Step = Step(id: string, run: string, workingDir: string)

  datatype Job = Job(id: string, steps: seq<Step>, matrixVars: map<string, seq<string>>, needs: seq<Id>)

  function NeedsOf(jobs: map<Id, Job>): Deps {
    map id | id in jobs :: jobs[id].needs
  }

  /** All job keys, collected in map order and then sorted. */
  method SortedKeys(jobs: map<Id, Job>) returns (ids: seq<Id>)
    ensures Ascending(ids) && NoDup(ids) && forall x :: x in ids <==> x in jobs
  {
    ids := [];
    var todo := jobs.Keys;
    while todo != {}
      invariant todo <= jobs.Keys && NoDup(ids) && forall x :: x in ids <==> x in jobs && x !in todo
    {
      var id :| id in todo;
      ids := ids + [id];
      todo := todo - {id};
    }
    SortNoDup(ids);
    assert Elems(ids) == jobs.Keys;
    ids := Sort(ids);
    AscendingNoDup(ids);
    assert forall x :: x in ids <==> x in Elems(ids);
  }

  ghost predicate UnknownNeed(g: Deps, id: Id, d: Id) {
    id in g && d in g[id] && d !in g
  }

  ghost predicate LeastUnknownOf(g: Deps, id: Id, d: Id) {
    UnknownNeed(g, id, d) && forall e :: UnknownNeed(g, id, e) ==> Leq(d, e)
  }

  /** `d` is the least unknown need of the least job that has one. */
  ghost predicate FirstUnknownNeed(g: Deps, d: Id) {
    exists id :: LeastUnknownOf(g, id, d) && forall j, e :: UnknownNeed(g, j, e) ==> Leq(id, j)
  }

  /** One job's needs, entered in sorted order: the least unknown one is reported. */
  method AddJob(jobs: map<Id, Job>, id: Id, graph0: map<Id, seq<Id>>, indegree0: map<Id, int>)
    returns (r: Result<(map<Id, seq<Id>>, map<Id, int>), GraphError>)
    requires id in jobs && id in indegree0
    ensures r.Failure? ==> r.error.UnknownDependency? && LeastUnknownOf(NeedsOf(jobs), id, r.error.id)
    ensures r.Success? ==>
              && (forall d :: d in jobs[id].needs ==> d in jobs)
              && r.value.1 == indegree0[id := indegree0[id] + |jobs[id].needs|]
              && (forall d, x :: Entries(r.value.0, d, x)
                                 == Entries(graph0, d, x) + (if x == id then multiset(jobs[id].needs)[d] else 0))
  {
    var deps := Sort(jobs[id].needs);
    SameEntries(deps, jobs[id].needs);
    r := AddEntries(jobs.Keys, id, deps, graph0, indegree0);
    if r.Failure? {
      FirstIsLeastUnknown(jobs.Keys, deps, r.error.id);
    }
  }

  lemma FirstIsLeastUnknown(known: set<Id>, deps: seq<Id>, d: Id)
    requires Sorted(deps) && FirstUnknownEntry(known, deps, d)
    ensures d in deps && d !in known && forall e :: e in deps && e !in known ==> Leq(d, e)
  {
    var k: nat :| k < |deps| && deps[k] == d && d !in known && forall j :: 0 <= j < k ==> deps[j] in known;
    forall e | e in deps && e !in known
      ensures Leq(d, e)
    {
      var j :| 0 <= j < |deps| && deps[j] == e;
      assert j >= k;
    }
  }

  method BuildJobIndex(jobs: map<Id, Job>, ids: seq<Id>) returns (r: Result<(map<Id, seq<Id>>, map<Id, int>), GraphError>)
    requires Ascending(ids) && NoDup(ids) && forall x :: x in ids <==> x in jobs
    ensures r.Failure? <==> !Closed(NeedsOf(jobs))
    ensures r.Failure? ==> r.error.UnknownDependency? && FirstUnknownNeed(NeedsOf(jobs), r.error.id)
    ensures r.Success? ==> AdjOk(NeedsOf(jobs), r.value.0) && IndegreeOk(NeedsOf(jobs), {}, r.value.1)
  {
    ghost var g := NeedsOf(jobs);
    var indegree: map<Id, int> := map id | id in jobs :: 0;
    var graph: map<Id, seq<Id>> := map[];
    ghost var todo := jobs.Keys;
    for k := 0 to |ids|
      invariant PartlyIndexed(g, todo, graph, indegree) && IsRest(ids, k, todo)
    {
      var id := ids[k];
      RestNext(ids, k, todo);
      var step := AddJob(jobs, id, graph, indegree);
      if step.Failure? {
        FailsFirst(g, todo, ids, k, graph, indegree, step.error.id);
        return Failure(step.error);
      }
      NodeEntered(g, todo, id, graph, indegree, step.value.0, step.value.1);
      graph, indegree := step.value.0, step.value.1;
      todo := todo - {id};
    }
    assert todo == {};
    FullyIndexed(g, graph, indegree);
    return Success((graph, indegree));
  }

  /** `todo` are the identifiers from position `k` on. */
  ghost predicate IsRest(ids: seq<Id>, k: nat, todo: set<Id>) {
    k <= |ids| && forall x :: x in todo <==> exists j :: k <= j < |ids| && ids[j] == x
  }

  lemma RestNext(ids: seq<Id>, k: nat, todo: set<Id>)
    requires IsRest(ids, k, todo) && k < |ids| && NoDup(ids)
    ensures ids[k] in todo && IsRest(ids, k + 1, todo - {ids[k]})
  {
  }

  /** All jobs before the one that fails have known needs only, so no lesser job offends. */
  lemma FailsFirst(g: Deps, todo: set<Id>, ids: seq<Id>, k: nat, graph: map<Id, seq<Id>>, indegree: map<Id, int>, d: Id)
    requires PartlyIndexed(g, todo, graph, indegree) && IsRest(ids, k, todo) && k < |ids| && Ascending(ids)
    requires LeastUnknownOf(g, ids[k], d)
    ensures FirstUnknownNeed(g, d) && !Closed(g)
  {
    forall j, e | UnknownNeed(g, j, e)
      ensures Leq(ids[k], j)
    {
      assert j in todo;
      var p :| k <= p < |ids| && ids[p] == j;
    }
  }

  lemma SameEntries(a: seq<Id>, b: seq<Id>)
    requires multiset(a) == multiset(b)
    ensures |a| == |b| && forall d :: d in a <==> d in b
  {
    MultisetElems(a, b);
    assert forall d :: d in a <==> d in Elems(a);
    assert forall d :: d in b <==> d in Elems(b);
  }

  method InitialQueue(ghost g: Deps, ids: seq<Id>, indegree: map<Id, int>) returns (queue: seq<Id>)
    requires IndegreeOk(g, {}, indegree) && Ascending(ids) && forall x :: x in ids <==> x in g
    ensures queue == Enumerate(Available(g, {}))
  {
    queue := [];
    for k := 0 to |ids|
      invariant Ascending(queue) && forall x :: x in queue <==> x in ids[..k] && indegree[x] == 0
    {
      var id := ids[k];
      assert id in ids && ids[..k + 1] == ids[..k] + [id];
      if indegree[id] == 0 {
        assert forall y :: y in ids[..k] ==> Less(y, id);
        queue := queue + [id];
      }
    }
    assert ids[..|ids|] == ids;
    AscendingNoDup(queue);
    SortedReadyIsAvailable(g, {}, indegree, queue);
    SortNoDup(queue);
    AscendingUnique(queue, Sort(queue));
  }

  /** The neighbours of the job just taken: those whose count reaches zero join, in order. */
  method WakeNeighbors(ghost g: Deps, ghost done: set<Id>, current: Id, graph: map<Id, seq<Id>>,
                       indegree0: map<Id, int>, ghost tail: seq<Id>)
    returns (indegree: map<Id, int>, woken: seq<Id>)
    requires AdjOk(g, graph) && IndegreeOk(g, done, indegree0) && DownClosed(g, done)
    requires current in Available(g, done)
    requires NoDup(tail) && Elems(tail) == Available(g, done) - {current}
    ensures IndegreeOk(g, done + {current}, indegree)
    ensures woken == Enumerate(Fresh(g, done, current))
  {
    var neighbors := Sort(AdjOf(graph, current));
    TailIsReady(g, done, current, indegree0, tail);
    indegree, woken := StrikeOff(g, done, done + {current}, current, graph, neighbors, indegree0, tail);
    AllEntriesMet(g, done, current, graph, neighbors, indegree0, indegree);
    WokenIsFresh(g, done, current, indegree, tail, woken);
  }

  method StrikeOff(ghost g: Deps, ghost done: set<Id>, ghost all: set<Id>, ghost current: Id, ghost graph: map<Id, seq<Id>>,
                   neighbors: seq<Id>, indegree0: map<Id, int>, ghost tail: seq<Id>)
    returns (indegree: map<Id, int>, woken: seq<Id>)
    requires AdjOk(g, graph) && IndegreeOk(g, done, indegree0)
    requires current !in done && forall x :: x in all && x in g ==> current !in g[x]
    requires multiset(neighbors) == multiset(AdjOf(graph, current)) && Sorted(neighbors)
    requires ReadyOk(g, all, indegree0, tail)
    ensures Countdown(g, indegree0, neighbors, |neighbors|, indegree)
    ensures ReadyOk(g, all, indegree, tail + woken) && Ascending(woken)
  {
    indegree, woken := indegree0, [];
    assert tail + [] == tail;
    for k := 0 to |neighbors|
      invariant Countdown(g, indegree0, neighbors, k, indegree)
      invariant ReadyOk(g, all, indegree, tail + woken)
      invariant Ascending(woken) && forall y :: y in woken ==> y in neighbors[..k]
    {
      EntryPending(g, done, current, graph, neighbors, k, indegree0, indegree);
      ghost var before := indegree;
      indegree, woken := WakeOne(g, all, neighbors, k, indegree, tail, woken);
      CountdownStep(g, indegree0, neighbors, k, before, indegree);
    }
  }

  /** The loop body: one entry fewer, and to the back of the queue when none is left. */
  method WakeOne(ghost g: Deps, ghost all: set<Id>, neighbors: seq<Id>, k: nat, indegree0: map<Id, int>, ghost tail: seq<Id>, woken0: seq<Id>)
    returns (indegree: map<Id, int>, woken: seq<Id>)
    requires indegree0.Keys == g.Keys && ReadyOk(g, all, indegree0, tail + woken0)
    requires k < |neighbors| && Sorted(neighbors) && neighbors[k] in g && neighbors[k] !in all && indegree0[neighbors[k]] >= 1
    requires Ascending(woken0) && forall y :: y in woken0 ==> y in neighbors[..k]
    ensures indegree == indegree0[neighbors[k] := indegree0[neighbors[k]] - 1]
    ensures ReadyOk(g, all, indegree, tail + woken)
    ensures Ascending(woken) && forall y :: y in woken ==> y in neighbors[..k + 1]
  {
    var n := neighbors[k];
    indegree, woken := indegree0[n := indegree0[n] - 1], woken0;
    DecrementReady(g, all, indegree0, tail + woken0, n);
    assert neighbors[..k + 1] == neighbors[..k] + [n];
    if indegree[n] == 0 {
      WokenLast(g, all, indegree0, tail, woken0, neighbors, k);
      assert (tail + woken0) + [n] == tail + (woken0 + [n]);
      woken := woken + [n];
    }
  }

  lemma DecrementReady(g: Deps, all: set<Id>, indegree: map<Id, int>, ready: seq<Id>, x: Id)
    requires indegree.Keys == g.Keys && ReadyOk(g, all, indegree, ready)
    requires x in g && x !in all && indegree[x] >= 1
    ensures ReadyOk(g, all, indegree[x := indegree[x] - 1], if indegree[x] == 1 then ready + [x] else ready)
  {
  }

  lemma TailIsReady(g: Deps, done: set<Id>, current: Id, indegree: map<Id, int>, tail: seq<Id>)
    requires IndegreeOk(g, done, indegree) && NoDup(tail) && Elems(tail) == Available(g, done) - {current}
    ensures ReadyOk(g, done + {current}, indegree, tail)
  {
    forall x
      ensures x in tail <==> x in g && x !in done + {current} && indegree[x] == 0
    {
      assert x in tail <==> x in Elems(tail);
      if x in g {
        ZeroIsMet(g, done, x);
      }
    }
  }

  lemma WokenLast(g: Deps, all: set<Id>, indegree: map<Id, int>, tail: seq<Id>, woken: seq<Id>, neighbors: seq<Id>, k: nat)
    requires indegree.Keys == g.Keys && ReadyOk(g, all, indegree, tail + woken)
    requires k < |neighbors| && Sorted(neighbors) && neighbors[k] in g && indegree[neighbors[k]] != 0
    requires Ascending(woken) && forall y :: y in woken ==> y in neighbors[..k]
    ensures Ascending(woken + [neighbors[k]])
  {
    var n := neighbors[k];
    forall i | 0 <= i < |woken|
      ensures Less(woken[i], n)
    {
      var y := woken[i];
      assert y in woken && y in tail + woken;
      var j :| 0 <= j < k && neighbors[j] == y;
      assert Leq(neighbors[j], neighbors[k]);
    }
  }

  lemma WokenIsFresh(g: Deps, done: set<Id>, current: Id, indegree: map<Id, int>, tail: seq<Id>, woken: seq<Id>)
    requires IndegreeOk(g, done + {current}, indegree) && ReadyOk(g, done + {current}, indegree, tail + woken)
    requires current in Available(g, done) && Elems(tail) == Available(g, done) - {current} && Ascending(woken)
    ensures woken == Enumerate(Fresh(g, done, current))
  {
    var all := done + {current};
    assert NoDup(tail + woken);
    DisjointParts(tail, woken);
    forall x
      ensures x in woken <==> x in Fresh(g, done, current)
    {
      assert x in tail <==> x in Elems(tail);
      if x in g {
        ZeroIsMet(g, all, x);
      }
      assert x in tail + woken <==> x in Available(g, all);
    }
    EnumerateFacts(Fresh(g, done, current));
    AscendingUnique(woken, Enumerate(Fresh(g, done, current)));
  }

  /** `list` holds the jobs stored under the keys `ids`. */
  ghost predicate JobsAt(jobs: map<Id, Job>, ids: seq<Id>, list: seq<Job>) {
    |list| == |ids| && forall i :: 0 <= i < |ids| ==> ids[i] in jobs && list[i] == jobs[ids[i]]
  }

  lemma JobsAtSnoc(jobs: map<Id, Job>, ids: seq<Id>, list: seq<Job>, id: Id)
    requires JobsAt(jobs, ids, list) && id in jobs
    ensures JobsAt(jobs, ids + [id], list + [jobs[id]])
  {
  }

  method DrainQueue(jobs: map<Id, Job>, graph: map<Id, seq<Id>>, indegree0: map<Id, int>, queue0: seq<Id>) returns (result: seq<Job>)
    requires AdjOk(NeedsOf(jobs), graph) && IndegreeOk(NeedsOf(jobs), {}, indegree0)
    requires queue0 == Enumerate(Available(NeedsOf(jobs), {}))
    ensures JobsAt(jobs, FifoOrder(NeedsOf(jobs)), result)
  {
    ghost var g := NeedsOf(jobs);
    ghost var done: set<Id> := {};
    ghost var taken: seq<Id> := [];
    var indegree, queue := indegree0, queue0;
    result := [];
    StartQueue(g);
    while queue != []
      invariant QueueOk(g, done, queue) && IndegreeOk(g, done, indegree) && DownClosed(g, done)
      invariant FifoOrder(g) == taken + Fifo(g, done, queue)
      invariant JobsAt(jobs, taken, result)
      decreases g.Keys - done
    {
      var current := queue[0];
      ghost var tail := queue[1..];
      TakeHead(g, done, queue, taken);
      JobsAtSnoc(jobs, taken, result, current);
      result := result + [jobs[current]];
      var woken;
      indegree, woken := WakeNeighbors(g, done, current, graph, indegree, tail);
      queue := queue[1..] + woken;
      taken := taken + [current];
      done := done + {current};
    }
    assert taken + [] == taken;
  }

  lemma TakeHead(g: Deps, done: set<Id>, queue: seq<Id>, taken: seq<Id>)
    requires QueueOk(g, done, queue) && queue != [] && DownClosed(g, done)
    ensures var x := queue[0]; var rest := queue[1..] + Enumerate(Fresh(g, done, x));
            && x in Available(g, done) && DownClosed(g, done + {x}) && (g.Keys - done) > (g.Keys - (done + {x}))
            && QueueOk(g, done + {x}, rest)
            && NoDup(queue[1..]) && Elems(queue[1..]) == Available(g, done) - {x}
            && taken + Fifo(g, done, queue) == (taken + [x]) + Fifo(g, done + {x}, rest)
  {
    var x := queue[0];
    QueueStep(g, done, queue);
    DownClosedGrows(g, done, {x});
    ConcatAssoc(taken, [x], Fifo(g, done + {x}, queue[1..] + Enumerate(Fresh(g, done, x))));
  }

  lemma OrderedAll(jobs: map<Id, Job>, result: seq<Job>)
    requires Closed(NeedsOf(jobs)) && JobsAt(jobs, FifoOrder(NeedsOf(jobs)), result)
    ensures |result| == |jobs| <==> Acyclic(NeedsOf(jobs))
    ensures |result| == |jobs| <==> IsTopo(NeedsOf(jobs), FifoOrder(NeedsOf(jobs)))
  {
    var g := NeedsOf(jobs);
    FifoIsTopo(g);
    assert g.Keys == jobs.Keys;
    assert |g.Keys| == |g| && |jobs.Keys| == |jobs|;
  }

  /**
   The jobs in the one order in which they get ready, or an error: exactly when some need is unknown, naming the first
   one, and exactly when the needs, all being known, have a cycle. The order is breadth first by WaveByWave.
   */
  method ResolveJobOrder(jobs: map<Id, Job>) returns (r: Result<seq<Job>, GraphError>, ghost order: seq<Id>)
    ensures r.Failure? && r.error.UnknownDependency? <==> !Closed(NeedsOf(jobs))
    ensures r.Failure? && r.error.UnknownDependency? ==> FirstUnknownNeed(NeedsOf(jobs), r.error.id)
    ensures r == Failure(CycleDetected) <==> Closed(NeedsOf(jobs)) && !Acyclic(NeedsOf(jobs))
    ensures r.Success? ==> IsQueueOrder(NeedsOf(jobs), order) && JobsAt(jobs, order, r.value)
  {
    var ids := SortedKeys(jobs);
    var index := BuildJobIndex(jobs, ids);
    order := FifoOrder(NeedsOf(jobs));
    if index.Failure? {
      return Failure(index.error), order;
    }
    var queue := InitialQueue(NeedsOf(jobs), ids, index.value.1);
    var result := DrainQueue(jobs, index.value.0, index.value.1, queue);
    OrderedAll(jobs, result);
    if |result| != |jobs| {
      return Failure(CycleDetected), order;
    }
    QueueOrderIff(NeedsOf(jobs), order);
    return Success(result), order;
  }
}
