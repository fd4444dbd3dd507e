/** The two indexes of Kahn's algorithm, dependents and indegrees, and what they say about readiness. */
module Indegrees {
  import opened Wrappers
  import opened Ids
  import opened Digraph

  /** The errors of the two resolvers and of the executor. */
  datatype GraphError = UnknownDependency(id: Id) | CycleDetected

  function AdjOf(adj: map<Id, seq<Id>>, d: Id): seq<Id> {
    if d in adj then adj[d] else []
  }

  ghost function Entries(adj: map<Id, seq<Id>>, d: Id, x: Id): nat {
    multiset(AdjOf(adj, d))[x]
  }

  /** `adj` lists, for every dependency, its dependents as often as they name it. */
  ghost predicate AdjOk(g: Deps, adj: map<Id, seq<Id>>) {
    && (forall d, x :: x in g ==> Entries(adj, d, x) == multiset(g[x])[d])
    && (forall d, x :: Entries(adj, d, x) > 0 ==> x in g)
  }

  /** `indegree` counts the unmet dependency entries of every node. */
  ghost predicate IndegreeOk(g: Deps, done: set<Id>, indegree: map<Id, int>) {
    indegree.Keys == g.Keys && forall x :: x in g ==> indegree[x] == Missing(g[x], done)
  }

  /** Before anything is done, every entry is unmet. */
  lemma AllUnmet(g: Deps, indegree: map<Id, int>)
    requires indegree.Keys == g.Keys && forall x :: x in g ==> indegree[x] == |g[x]|
    ensures IndegreeOk(g, {}, indegree)
  {
    forall x | x in g
      ensures indegree[x] == Missing(g[x], {})
    {
      MissingNone(g[x], {});
    }
  }

  lemma ZeroIsMet(g: Deps, done: set<Id>, x: Id)
    requires x in g
    ensures Missing(g[x], done) == 0 <==> DepsIn(g, done, x)
  {
    MissingNone(g[x], done);
  }

  lemma AppendEntry(adj: map<Id, seq<Id>>, dep: Id, id: Id)
    ensures forall d, x :: Entries(adj[dep := AdjOf(adj, dep) + [id]], d, x)
                           == Entries(adj, d, x) + (if d == dep && x == id then 1 else 0)
  {
  }

  /** `d` is the first of the entries that names nothing known. */
  predicate FirstUnknownEntry(known: set<Id>, deps: seq<Id>, d: Id) {
    exists k: nat :: k < |deps| && deps[k] == d && d !in known && forall j :: 0 <= j < k ==> deps[j] in known
  }

  /** `adj` is `adj0` with `id` entered once for each of these dependencies. */
  ghost predicate Entered(adj0: map<Id, seq<Id>>, adj: map<Id, seq<Id>>, id: Id, deps: seq<Id>) {
    forall d, x :: Entries(adj, d, x) == Entries(adj0, d, x) + (if x == id then multiset(deps)[d] else 0)
  }

  /** The dependents after these dependency entries of `id`. */
  function EnterAll(adj: map<Id, seq<Id>>, id: Id, deps: seq<Id>): map<Id, seq<Id>> {
    if deps == [] then adj
    else
      var before, dep := EnterAll(adj, id, deps[..|deps| - 1]), deps[|deps| - 1];
      before[dep := AdjOf(before, dep) + [id]]
  }

  lemma {:induction false} EntriesEntered(adj0: map<Id, seq<Id>>, id: Id, deps: seq<Id>)
    ensures Entered(adj0, EnterAll(adj0, id, deps), id, deps)
  {
    if deps != [] {
      var n := |deps| - 1;
      EntriesEntered(adj0, id, deps[..n]);
      AppendEntry(EnterAll(adj0, id, deps[..n]), deps[n], id);
      assert deps == deps[..n] + [deps[n]];
    }
  }

  lemma FirstUnknownHere(known: set<Id>, deps: seq<Id>, k: nat)
    requires k < |deps| && deps[k] !in known && forall j :: 0 <= j < k ==> deps[j] in known
    ensures FirstUnknownEntry(known, deps, deps[k])
  {
  }

  /** The inner loop of index building: one node's dependency entries. */
  method AddEntries(known: set<Id>, id: Id, deps: seq<Id>, adj0: map<Id, seq<Id>>, indegree0: map<Id, int>)
    returns (r: Result<(map<Id, seq<Id>>, map<Id, int>), GraphError>)
    requires id in indegree0
    ensures r.Failure? ==> r.error.UnknownDependency? && FirstUnknownEntry(known, deps, r.error.id)
    ensures r.Success? ==>
              && (forall d :: d in deps ==> d in known)
              && r.value.1 == indegree0[id := indegree0[id] + |deps|]
              && Entered(adj0, r.value.0, id, deps)
  {
    var adj, indegree := adj0, indegree0;
    for k := 0 to |deps|
      invariant indegree == indegree0[id := indegree0[id] + k]
      invariant adj == EnterAll(adj0, id, deps[..k])
      invariant forall j :: 0 <= j < k ==> deps[j] in known
    {
      var dep := deps[k];
      if dep !in known {
        FirstUnknownHere(known, deps, k);
        return Failure(UnknownDependency(dep));
      }
      assert deps[..k + 1][..k] == deps[..k];
      adj := adj[dep := AdjOf(adj, dep) + [id]];
      indegree := indegree[id := indegree[id] + 1];
    }
    assert deps[..|deps|] == deps;
    EntriesEntered(adj0, id, deps);
    return Success((adj, indegree));
  }

  /** Both indexes with the nodes in `todo` not entered yet. */
  ghost predicate PartlyIndexed(g: Deps, todo: set<Id>, adj: map<Id, seq<Id>>, indegree: map<Id, int>) {
    && todo <= g.Keys && indegree.Keys == g.Keys
    && (forall x :: x in g ==> indegree[x] == if x in todo then 0 else |g[x]|)
    && (forall d, x :: x in g ==> Entries(adj, d, x) == if x in todo then 0 else multiset(g[x])[d])
    && (forall d, x :: Entries(adj, d, x) > 0 ==> x in g)
    && (forall x, d :: x in g && x !in todo && d in g[x] ==> d in g)
  }

  lemma NodeEntered(g: Deps, todo: set<Id>, id: Id, adj0: map<Id, seq<Id>>, indegree0: map<Id, int>,
                    adj: map<Id, seq<Id>>, indegree: map<Id, int>)
    requires PartlyIndexed(g, todo, adj0, indegree0) && id in todo
    requires forall d :: d in g[id] ==> d in g
    requires indegree == indegree0[id := indegree0[id] + |g[id]|]
    requires forall d, x :: Entries(adj, d, x) == Entries(adj0, d, x) + (if x == id then multiset(g[id])[d] else 0)
    ensures PartlyIndexed(g, todo - {id}, adj, indegree)
  {
  }

  lemma FullyIndexed(g: Deps, adj: map<Id, seq<Id>>, indegree: map<Id, int>)
    requires PartlyIndexed(g, {}, adj, indegree)
    ensures Closed(g) && AdjOk(g, adj) && IndegreeOk(g, {}, indegree)
  {
    AllUnmet(g, indegree);
  }

  /** `ready` holds, once each, the unfinished nodes whose indegree is zero. */
  ghost predicate ReadyOk(g: Deps, all: set<Id>, indegree: map<Id, int>, ready: seq<Id>)
    requires indegree.Keys == g.Keys
  {
    NoDup(ready) && forall x :: x in ready <==> x in g && x !in all && indegree[x] == 0
  }

  lemma SortedReadyIsAvailable(g: Deps, all: set<Id>, indegree: map<Id, int>, ready: seq<Id>)
    requires IndegreeOk(g, all, indegree) && ReadyOk(g, all, indegree, ready)
    ensures Sort(ready) == Enumerate(Available(g, all))
  {
    SortNoDup(ready);
    forall x | x in g
      ensures x in ready <==> x in Available(g, all)
    {
      ZeroIsMet(g, all, x);
    }
    assert Elems(ready) == Available(g, all);
    EnumerateFacts(Available(g, all));
    AscendingUnique(Sort(ready), Enumerate(Available(g, all)));
  }

  /** `cur` is `start` lowered by the first `k` entries of `list`. */
  ghost predicate Countdown(g: Deps, start: map<Id, int>, list: seq<Id>, k: nat, cur: map<Id, int>)
    requires k <= |list|
  {
    start.Keys == cur.Keys == g.Keys && forall x :: x in g ==> cur[x] == start[x] - multiset(list[..k])[x]
  }

  /** The next entry belongs to a node that still waits for this one. */
  lemma EntryPending(g: Deps, done: set<Id>, node: Id, adj: map<Id, seq<Id>>, list: seq<Id>, k: nat,
                     start: map<Id, int>, cur: map<Id, int>)
    requires AdjOk(g, adj) && IndegreeOk(g, done, start) && node !in done
    requires k < |list| && multiset(list) == multiset(AdjOf(adj, node)) && Countdown(g, start, list, k, cur)
    ensures var x := list[k]; x in g && node in g[x] && cur[x] >= 1
  {
    var x := list[k];
    PrefixCount(list, k);
    EntryIsUnmet(g, done, node, adj, x);
  }

  lemma PrefixCount(list: seq<Id>, k: nat)
    requires k < |list|
    ensures multiset(list[..k])[list[k]] < multiset(list)[list[k]]
  {
    assert list == list[..k] + [list[k]] + list[k + 1..];
  }

  lemma EntryIsUnmet(g: Deps, done: set<Id>, node: Id, adj: map<Id, seq<Id>>, x: Id)
    requires AdjOk(g, adj) && node !in done && Entries(adj, node, x) > 0
    ensures x in g && node in g[x] && Missing(g[x], done) >= Entries(adj, node, x)
  {
    assert Entries(adj, node, x) == multiset(g[x])[node];
    MissingStep(g[x], done, node);
  }

  lemma CountdownStep(g: Deps, start: map<Id, int>, list: seq<Id>, k: nat, before: map<Id, int>, after: map<Id, int>)
    requires k < |list| && list[k] in g && Countdown(g, start, list, k, before)
    requires after == before[list[k] := before[list[k]] - 1]
    ensures Countdown(g, start, list, k + 1, after)
  {
    assert list[..k + 1] == list[..k] + [list[k]];
  }

  lemma AllEntriesMet(g: Deps, done: set<Id>, node: Id, adj: map<Id, seq<Id>>, list: seq<Id>,
                      start: map<Id, int>, cur: map<Id, int>)
    requires AdjOk(g, adj) && IndegreeOk(g, done, start) && node !in done
    requires multiset(list) == multiset(AdjOf(adj, node)) && Countdown(g, start, list, |list|, cur)
    ensures IndegreeOk(g, done + {node}, cur)
  {
    assert list[..|list|] == list;
    forall x | x in g
      ensures cur[x] == Missing(g[x], done + {node})
    {
      assert Entries(adj, node, x) == multiset(g[x])[node];
      MissingStep(g[x], done, node);
    }
  }
}
