/**
 Dependency graphs, their cycles, and the sets of nodes that Kahn-style loops reach.
 A graph maps every node to the list of its dependencies; repeated entries are kept,
 because the schedulers count them.
 */
module Digraph {
  import opened Ids

  type Deps = map<Id, seq<Id>>

  /** Every dependency is itself a node. */
  ghost predicate Closed(g: Deps) {
    forall x, d :: x in g && d in g[x] ==> d in g
  }

  // ----- Paths and cycles

  /** A walk from a node to one of its dependencies, to one of that node's dependencies, ... */
  ghost predicate IsPath(g: Deps, p: seq<Id>) {
    && p != []
    && (forall i :: 0 <= i < |p| ==> p[i] in g)
    && (forall i :: 0 <= i < |p| - 1 ==> p[i + 1] in g[p[i]])
  }

  ghost predicate IsLoop(g: Deps, p: seq<Id>, x: Id) {
    IsPath(g, p) && |p| >= 2 && p[0] == x && p[|p| - 1] == x
  }

  ghost predicate OnCycle(g: Deps, x: Id) {
    exists p :: IsLoop(g, p, x)
  }

  ghost predicate LeadsToCycle(g: Deps, p: seq<Id>, x: Id) {
    IsPath(g, p) && p[0] == x && OnCycle(g, p[|p| - 1])
  }

  /** The node, or one of its transitive dependencies, lies on a cycle. */
  ghost predicate BehindCycle(g: Deps, x: Id) {
    exists p :: LeadsToCycle(g, p, x)
  }

  ghost predicate Acyclic(g: Deps) {
    forall x :: x in g ==> !OnCycle(g, x)
  }

  lemma OnCycleIsBehind(g: Deps, x: Id)
    requires OnCycle(g, x)
    ensures x in g && BehindCycle(g, x)
  {
    var p :| IsLoop(g, p, x);
    assert LeadsToCycle(g, [x], x);
  }

  lemma BehindMeansCycle(g: Deps, x: Id)
    requires BehindCycle(g, x)
    ensures x in g && !Acyclic(g)
  {
    var p :| LeadsToCycle(g, p, x);
    assert p[|p| - 1] in g;
  }

  /** What is behind a cycle has a dependency that is behind a cycle. */
  lemma BehindStep(g: Deps, x: Id) returns (d: Id)
    requires BehindCycle(g, x)
    ensures x in g && d in g[x] && BehindCycle(g, d)
  {
    var p :| LeadsToCycle(g, p, x);
    if |p| == 1 {
      var q :| IsLoop(g, q, x);
      d := q[1];
      assert IsPath(g, q[1..]);
      assert LeadsToCycle(g, q[1..], d);
    } else {
      d := p[1];
      assert IsPath(g, p[1..]);
      assert LeadsToCycle(g, p[1..], d);
    }
  }

  ghost predicate KeepsDep(g: Deps, u: set<Id>, y: Id)
    requires y in g
  {
    exists d :: d in g[y] && d in u
  }

  /** Every node of the set keeps a dependency inside the set. */
  ghost predicate Stuck(g: Deps, u: set<Id>) {
    u <= g.Keys && forall y {:trigger KeepsDep(g, u, y)} :: y in u ==> KeepsDep(g, u, y)
  }

  /** Such a set contains walks of any length. */
  lemma {:induction false} WalkInside(g: Deps, u: set<Id>, x: Id, k: nat) returns (p: seq<Id>)
    requires Stuck(g, u) && x in u
    ensures IsPath(g, p) && |p| == k + 1 && p[0] == x && Elems(p) <= u
    decreases k
  {
    if k == 0 {
      p := [x];
    } else {
      assert KeepsDep(g, u, x);
      var d :| d in g[x] && d in u;
      var q := WalkInside(g, u, d, k - 1);
      p := [x] + q;
    }
  }

  lemma StuckIsBehindCycle(g: Deps, u: set<Id>, x: Id)
    requires Stuck(g, u) && x in u
    ensures BehindCycle(g, x)
  {
    var p := WalkInside(g, u, x, |u|);
    var i, j := Pigeonhole(p, u);
    PathSlice(g, p, i, j + 1);
    PathSlice(g, p, 0, i + 1);
    assert IsLoop(g, p[i..j + 1], p[i]);
    assert LeadsToCycle(g, p[0..i + 1], x);
  }

  lemma PathSlice(g: Deps, p: seq<Id>, i: nat, j: nat)
    requires IsPath(g, p) && i < j <= |p|
    ensures IsPath(g, p[i..j]) && p[i..j][0] == p[i] && p[i..j][j - i - 1] == p[j - 1]
  {
    var q := p[i..j];
    forall k | 0 <= k < |q| - 1
      ensures q[k + 1] in g[q[k]]
    {
      assert q[k] == p[i + k] && q[k + 1] == p[i + k + 1];
      assert p[(i + k) + 1] in g[p[i + k]];
    }
  }

  lemma PathSnoc(g: Deps, p: seq<Id>, d: Id)
    requires IsPath(g, p) && d in g && d in g[p[|p| - 1]]
    ensures IsPath(g, p + [d]) && Elems(p + [d]) == Elems(p) + {d}
  {
    var q := p + [d];
    forall k | 0 <= k < |q| - 1
      ensures q[k + 1] in g[q[k]]
    {
      if k < |p| - 1 {
        assert p[k + 1] in g[p[k]];
      }
    }
  }

  /** A rank that strictly drops along every dependency rules out cycles. */
  lemma RankedIsAcyclic(g: Deps, rank: map<Id, int>)
    requires Closed(g) && g.Keys <= rank.Keys
    requires forall x, d :: x in g && d in g[x] ==> rank[d] < rank[x]
    ensures Acyclic(g)
  {
    forall x | x in g
      ensures !OnCycle(g, x)
    {
      if OnCycle(g, x) {
        var p :| IsLoop(g, p, x);
        RankDrops(g, rank, p, |p| - 1);
        assert false;
      }
    }
  }

  lemma {:induction false} RankDrops(g: Deps, rank: map<Id, int>, p: seq<Id>, k: nat)
    requires Closed(g) && g.Keys <= rank.Keys && IsPath(g, p) && 1 <= k < |p|
    requires forall x, d :: x in g && d in g[x] ==> rank[d] < rank[x]
    ensures rank[p[k]] < rank[p[0]]
  {
    if k > 1 {
      RankDrops(g, rank, p, k - 1);
    }
    assert p[k] in g[p[k - 1]];
  }

  // ----- What is ready once a set of nodes is done

  /** All dependencies of node `x` are in `done`. */
  ghost predicate DepsIn(g: Deps, done: set<Id>, x: Id) {
    x in g && forall d :: d in g[x] ==> d in done
  }

  ghost function Available(g: Deps, done: set<Id>): set<Id> {
    set x | x in g.Keys && x !in done && DepsIn(g, done, x)
  }

  /** Done sets that a scheduler can reach: nothing in them is behind a cycle. */
  ghost predicate Sound(g: Deps, done: set<Id>) {
    done <= g.Keys && forall x :: x in done ==> !BehindCycle(g, x)
  }

  lemma SoundGrows(g: Deps, done: set<Id>, more: set<Id>)
    requires Sound(g, done) && more <= Available(g, done)
    ensures Sound(g, done + more)
  {
    forall x | x in more
      ensures !BehindCycle(g, x)
    {
      if BehindCycle(g, x) {
        var d := BehindStep(g, x);
      }
    }
  }

  /** What is done has all its dependencies done. */
  ghost predicate DownClosed(g: Deps, done: set<Id>) {
    forall x :: x in done ==> DepsIn(g, done, x)
  }

  lemma DownClosedGrows(g: Deps, done: set<Id>, more: set<Id>)
    requires DownClosed(g, done) && more <= Available(g, done)
    ensures DownClosed(g, done + more)
  {
    assert forall x :: x in more ==> DepsIn(g, done, x);
  }

  /** When nothing is ready any more, exactly the nodes that are not behind a cycle are done. */
  lemma ExhaustedIsExact(g: Deps, done: set<Id>)
    requires Closed(g) && Sound(g, done) && Available(g, done) == {}
    ensures forall x :: x in done <==> x in g && !BehindCycle(g, x)
    ensures done == g.Keys <==> Acyclic(g)
  {
    var u := g.Keys - done;
    forall y | y in u
      ensures KeepsDep(g, u, y)
    {
      assert y !in Available(g, done);
      var d :| d in g[y] && d !in done;
      assert d in u;
    }
    forall x | x in u
      ensures BehindCycle(g, x)
    {
      StuckIsBehindCycle(g, u, x);
    }
    if done == g.Keys {
      forall x | x in g
        ensures !OnCycle(g, x)
      {
        if OnCycle(g, x) {
          OnCycleIsBehind(g, x);
        }
      }
    } else {
      SubsetCard(done, g.Keys);
      var x :| x in u;
      BehindMeansCycle(g, x);
    }
  }

  // ----- Counting unmet dependencies, the way the indegree maps do

  function Missing(deps: seq<Id>, done: set<Id>): nat {
    if deps == [] then 0
    else Missing(deps[..|deps| - 1], done) + (if deps[|deps| - 1] in done then 0 else 1)
  }

  lemma {:induction false} MissingNone(deps: seq<Id>, done: set<Id>)
    ensures Missing(deps, done) == 0 <==> forall d :: d in deps ==> d in done
    ensures done == {} ==> Missing(deps, done) == |deps|
  {
    if deps != [] {
      var n := |deps| - 1;
      MissingNone(deps[..n], done);
      assert deps == deps[..n] + [deps[n]];
    }
  }

  /** Finishing one more node lowers the count by that node's number of entries. */
  lemma {:induction false} MissingStep(deps: seq<Id>, done: set<Id>, c: Id)
    requires c !in done
    ensures Missing(deps, done) == Missing(deps, done + {c}) + multiset(deps)[c]
  {
    if deps != [] {
      var n := |deps| - 1;
      MissingStep(deps[..n], done, c);
      assert deps == deps[..n] + [deps[n]];
    }
  }

  // ----- Topological orders

  /** `t` lists exactly the nodes outside `done`, each after all its dependencies. */
  ghost predicate IsTopoFrom(g: Deps, done: set<Id>, t: seq<Id>) {
    && NoDup(t)
    && Elems(t) == g.Keys - done
    && forall i :: 0 <= i < |t| ==> DepsIn(g, done + Elems(t[..i]), t[i])
  }

  ghost predicate IsTopo(g: Deps, t: seq<Id>) {
    IsTopoFrom(g, {}, t)
  }

  lemma TopoTail(g: Deps, done: set<Id>, t: seq<Id>)
    requires done <= g.Keys && IsTopoFrom(g, done, t) && t != []
    ensures t[0] in Available(g, done)
    ensures IsTopoFrom(g, done + {t[0]}, t[1..])
  {
    assert t[..0] == [];
    assert DepsIn(g, done + Elems(t[..0]), t[0]);
    assert t[0] in Elems(t);
    var r := t[1..];
    assert Elems(r) == Elems(t) - {t[0]};
    forall i | 0 <= i < |r|
      ensures DepsIn(g, done + {t[0]} + Elems(r[..i]), r[i])
    {
      assert t[..i + 1] == [t[0]] + r[..i];
      assert DepsIn(g, done + Elems(t[..i + 1]), t[i + 1]);
    }
  }

  lemma TopoCons(g: Deps, done: set<Id>, x: Id, t: seq<Id>)
    requires x in Available(g, done) && IsTopoFrom(g, done + {x}, t)
    ensures IsTopoFrom(g, done, [x] + t)
  {
    var r := [x] + t;
    assert x !in Elems(t);
    assert Elems(r) == {x} + Elems(t);
    forall i | 0 <= i < |r|
      ensures DepsIn(g, done + Elems(r[..i]), r[i])
    {
      if i > 0 {
        assert r[..i] == [x] + t[..i - 1];
        assert DepsIn(g, done + {x} + Elems(t[..i - 1]), t[i - 1]);
      }
    }
  }

  /** An acyclic graph is what a topological order exists for. */
  lemma TopoMeansAcyclic(g: Deps, t: seq<Id>)
    requires Closed(g) && IsTopo(g, t)
    ensures Acyclic(g)
  {
    TopoIsSound(g, {}, t);
    forall x | x in g
      ensures !OnCycle(g, x)
    {
      if OnCycle(g, x) {
        OnCycleIsBehind(g, x);
      }
    }
  }

  lemma {:induction false} TopoIsSound(g: Deps, done: set<Id>, t: seq<Id>)
    requires Sound(g, done) && IsTopoFrom(g, done, t)
    ensures Sound(g, g.Keys)
    decreases t
  {
    if t == [] {
      assert Elems(t) == {};
      SubsetCard(done, g.Keys);
    } else {
      TopoTail(g, done, t);
      SoundGrows(g, done, {t[0]});
      TopoIsSound(g, done + {t[0]}, t[1..]);
    }
  }
}
