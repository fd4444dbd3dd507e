/** `Graph.ResolveOrder`: smallest identifier first, rescanning all nodes after every step. */
module DagResolver {
  import opened Wrappers
  import opened Ids
  import opened Digraph
  import opened Schedules
  import opened Indegrees
  import opened CausalGraph

  method CountIndegrees(g: Graph) returns (r: Result<map<Id, int>, GraphError>)
    requires WellKeyed(g)
    ensures r.Failure? <==> !Closed(DepsOf(g))
    ensures r.Failure? ==> r.error.UnknownDependency? && r.error.id !in g.nodes
    ensures r.Success? ==> IndegreeOk(DepsOf(g), {}, r.value)
  {
    ghost var deps := DepsOf(g);
    var indegree: map<Id, int> := map id | id in g.nodes :: 0;
    var todo := g.nodes.Keys;
    while todo != {}
      invariant todo <= g.nodes.Keys && indegree.Keys == g.nodes.Keys
      invariant forall x :: x in deps ==> indegree[x] == if x in todo then 0 else |deps[x]|
      invariant forall x, d :: x in deps && x !in todo && d in deps[x] ==> d in deps
    {
      var id :| id in todo;
      var n := g.nodes[id];
      for k := 0 to |n.dependencies|
        invariant indegree.Keys == g.nodes.Keys && indegree[id] == k
        invariant forall x :: x in deps && x != id ==> indegree[x] == if x in todo then 0 else |deps[x]|
        invariant forall d :: d in n.dependencies[..k] ==> d in deps
      {
        var dep := n.dependencies[k];
        if dep !in g.nodes {
          assert dep in deps[id];
          return Failure(UnknownDependency(dep));
        }
        indegree := indegree[n.id := indegree[n.id] + 1];
        assert n.dependencies[..k + 1] == n.dependencies[..k] + [dep];
      }
      assert n.dependencies[..|n.dependencies|] == deps[id];
      todo := todo - {id};
    }
    AllUnmet(deps, indegree);
    return Success(indegree);
  }

  /** All identifiers, collected in map order and then sorted. */
  method SortedIds(g: Graph) returns (ids: seq<Id>)
    ensures Ascending(ids) && NoDup(ids) && forall x :: x in ids <==> x in g.nodes
  {
    ids := [];
    var todo := g.nodes.Keys;
    while todo != {}
      invariant todo <= g.nodes.Keys && NoDup(ids) && forall x :: x in ids <==> x in g.nodes && x !in todo
    {
      var id :| id in todo;
      ids := ids + [id];
      todo := todo - {id};
    }
    SortNoDup(ids);
    assert Elems(ids) == g.nodes.Keys;
    ids := Sort(ids);
    AscendingNoDup(ids);
    assert forall x :: x in ids <==> x in Elems(ids);
  }

  /** Scanning the sorted identifiers in order keeps the ready list sorted. */
  method InitialReady(g: Graph, indegree: map<Id, int>) returns (ready: seq<Id>)
    requires IndegreeOk(DepsOf(g), {}, indegree)
    ensures ready == Enumerate(Available(DepsOf(g), {}))
  {
    var ids := SortedIds(g);
    ready := [];
    for k := 0 to |ids|
      invariant Ascending(ready) && forall x :: x in ready <==> x in ids[..k] && indegree[x] == 0
    {
      var id := ids[k];
      assert ids[..k + 1] == ids[..k] + [id];
      assert id in ids;
      if indegree[id] == 0 {
        assert forall y :: y in ids[..k] ==> Less(y, id);
        ready := ready + [id];
      }
    }
    assert ids[..|ids|] == ids;
    AscendingNoDup(ready);
    SortedReady(DepsOf(g), {}, indegree, ready);
  }

  lemma SortedReady(g: Deps, all: set<Id>, indegree: map<Id, int>, ready: seq<Id>)
    requires IndegreeOk(g, all, indegree) && ReadyOk(g, all, indegree, ready) && Ascending(ready)
    ensures ready == Enumerate(Available(g, all))
  {
    SortedReadyIsAvailable(g, all, indegree, ready);
    SortNoDup(ready);
    AscendingUnique(ready, Sort(ready));
  }

  /** One node of the rescan: each entry naming `current` is struck off. */
  method VisitNode(ghost g: Deps, ghost done: set<Id>, current: Id, x: Id, deps: seq<Id>,
                   indegree0: map<Id, int>, ready0: seq<Id>)
    returns (indegree: map<Id, int>, ready: seq<Id>)
    requires x in g && deps == g[x] && current in Available(g, done) && DownClosed(g, done)
    requires indegree0.Keys == g.Keys && indegree0[x] == Missing(g[x], done)
    requires Ascending(ready0) && ReadyOk(g, done + {current}, indegree0, ready0)
    ensures indegree == indegree0[x := Missing(g[x], done + {current})]
    ensures Ascending(ready) && ReadyOk(g, done + {current}, indegree, ready)
  {
    ghost var all := done + {current};
    indegree, ready := indegree0, ready0;
    MissingStep(g[x], done, current);
    for k := 0 to |deps|
      invariant indegree == indegree0[x := indegree0[x] - multiset(deps[..k])[current]]
      invariant Ascending(ready) && ReadyOk(g, all, indegree, ready)
    {
      assert deps[..k + 1] == deps[..k] + [deps[k]];
      if deps[k] == current {
        PrefixCount(deps, k);
        assert x !in all;
        indegree := indegree[x := indegree[x] - 1];
        if indegree[x] == 0 {
          ready := AddSorted(ready, x);
        }
      }
    }
    assert deps[..|deps|] == deps;
  }

  method AddSorted(s: seq<Id>, x: Id) returns (r: seq<Id>)
    requires NoDup(s) && x !in s
    ensures Ascending(r) && NoDup(r) && forall y :: y in r <==> y in s || y == x
  {
    var t := s + [x];
    SortNoDup(t);
    r := Sort(t);
    AscendingNoDup(r);
    forall y
      ensures y in r <==> y in s || y == x
    {
      assert y in r <==> y in Elems(r);
      assert y in t <==> y in Elems(t);
    }
  }

  /** The rescan of all nodes, in any order, after `current` was taken. */
  method Rescan(g: Graph, ghost done: set<Id>, current: Id, indegree0: map<Id, int>, ready0: seq<Id>)
    returns (indegree: map<Id, int>, ready: seq<Id>)
    requires WellKeyed(g) && DownClosed(DepsOf(g), done) && current in Available(DepsOf(g), done)
    requires IndegreeOk(DepsOf(g), done, indegree0)
    requires [current] + ready0 == Enumerate(Available(DepsOf(g), done))
    ensures IndegreeOk(DepsOf(g), done + {current}, indegree)
    ensures ready == Enumerate(Available(DepsOf(g), done + {current}))
  {
    ghost var deps := DepsOf(g);
    ghost var all := done + {current};
    indegree, ready := indegree0, ready0;
    TailReady(deps, done, current, indegree0, ready0);
    var todo := g.nodes.Keys;
    while todo != {}
      invariant todo <= g.nodes.Keys && indegree.Keys == deps.Keys
      invariant forall x :: x in deps ==> indegree[x] == Missing(deps[x], if x in todo then done else all)
      invariant Ascending(ready) && ReadyOk(deps, all, indegree, ready)
    {
      var id :| id in todo;
      var n := g.nodes[id];
      indegree, ready := VisitNode(deps, done, current, n.id, n.dependencies, indegree, ready);
      todo := todo - {id};
    }
    SortedReady(deps, all, indegree, ready);
  }

  lemma TailReady(g: Deps, done: set<Id>, current: Id, indegree: map<Id, int>, tail: seq<Id>)
    requires IndegreeOk(g, done, indegree) && [current] + tail == Enumerate(Available(g, done))
    ensures Ascending(tail) && ReadyOk(g, done + {current}, indegree, tail)
  {
    var s := Enumerate(Available(g, done));
    EnumerateFacts(Available(g, done));
    assert tail == s[1..];
    AscendingNoDup(s);
    forall x
      ensures x in tail <==> x in g && x !in done + {current} && indegree[x] == 0
    {
      assert x in s <==> x in Elems(s);
      assert x in s <==> x == current || x in tail;
      if x in tail {
        var i :| 0 <= i < |tail| && tail[i] == x;
        assert s[0] == current && s[i + 1] == x;
      }
      if x in g {
        ZeroIsMet(g, done, x);
      }
    }
  }

  /** `nodes` are the graph's nodes at the identifiers `ids`. */
  ghost predicate Listed(g: Graph, ids: seq<Id>, nodes: seq<Node>) {
    |nodes| == |ids| && forall i :: 0 <= i < |ids| ==> ids[i] in g.nodes && nodes[i] == g.nodes[ids[i]]
  }

  lemma ListedSnoc(g: Graph, ids: seq<Id>, nodes: seq<Node>, id: Id)
    requires Listed(g, ids, nodes) && id in g.nodes
    ensures Listed(g, ids + [id], nodes + [g.nodes[id]])
  {
  }

  /** The worklist loop. */
  method Drain(g: Graph, indegree0: map<Id, int>, ready0: seq<Id>) returns (order: seq<Node>)
    requires WellKeyed(g) && IndegreeOk(DepsOf(g), {}, indegree0)
    requires ready0 == Enumerate(Available(DepsOf(g), {}))
    ensures var k := KahnOrder(DepsOf(g), {});
            Listed(g, k, order)
  {
    ghost var deps := DepsOf(g);
    var indegree, ready := indegree0, ready0;
    order := [];
    ghost var done: set<Id> := {};
    ghost var taken: seq<Id> := [];
    while ready != []
      invariant ready == Enumerate(Available(deps, done)) && IndegreeOk(deps, done, indegree)
      invariant DownClosed(deps, done)
      invariant KahnOrder(deps, {}) == taken + KahnOrder(deps, done)
      invariant Listed(g, taken, order)
      decreases deps.Keys - done
    {
      TakeFirst(deps, done, taken);
      var current := ready[0];
      ListedSnoc(g, taken, order, current);
      order := order + [g.nodes[current]];
      assert [current] + ready[1..] == ready;
      indegree, ready := Rescan(g, done, current, indegree, ready[1..]);
      taken := taken + [current];
      done := done + {current};
    }
    EnumerateFacts(Available(deps, done));
    assert taken + [] == taken;
  }

  lemma TakeFirst(g: Deps, done: set<Id>, taken: seq<Id>)
    requires Enumerate(Available(g, done)) != [] && DownClosed(g, done)
    ensures var x := Enumerate(Available(g, done))[0];
            && DownClosed(g, done + {x})
            && x in Available(g, done) && (g.Keys - done) > (g.Keys - (done + {x}))
            && taken + KahnOrder(g, done) == (taken + [x]) + KahnOrder(g, done + {x})
  {
    var x := KahnStep(g, done);
    DownClosedGrows(g, done, {x});
    assert taken + ([x] + KahnOrder(g, done + {x})) == (taken + [x]) + KahnOrder(g, done + {x});
  }

  /**
   The least topological order, or an error: exactly when a dependency is unknown, and exactly
   when the graph, all dependencies being known, has a cycle.
   */
  method ResolveOrder(g: Graph) returns (r: Result<seq<Node>, GraphError>)
    requires WellKeyed(g)
    ensures r.Failure? && r.error.UnknownDependency? <==> !Closed(DepsOf(g))
    ensures r == Failure(CycleDetected) <==> Closed(DepsOf(g)) && !Acyclic(DepsOf(g))
    ensures r.Success? ==>
              var k := KahnOrder(DepsOf(g), {});
              IsTopo(DepsOf(g), k) && Listed(g, k, r.value)
  {
    var counted := CountIndegrees(g);
    if counted.Failure? {
      return Failure(counted.error);
    }
    var ready := InitialReady(g, counted.value);
    var order := Drain(g, counted.value, ready);
    LeastTopologicalOrder(DepsOf(g));
    assert DepsOf(g).Keys == g.nodes.Keys;
    assert |DepsOf(g).Keys| == |DepsOf(g)| && |g.nodes.Keys| == |g.nodes|;
    if |order| != |g.nodes| {
      return Failure(CycleDetected);
    }
    return Success(order);
  }
}
