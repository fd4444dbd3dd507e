/**
 The batch schedule that the executor's loop follows, as a function of the graph and of the
 number of workers, and what it guarantees for every graph.
 */
module Schedules {
  import opened Ids
  import opened Digraph

  ghost function Take<T>(s: seq<T>, m: nat): seq<T> {
    if |s| <= m then s else s[..m]
  }

  /** The first `m` ready nodes by identifier. */
  ghost function NextBatch(g: Deps, m: nat, done: set<Id>): seq<Id> {
    Take(Enumerate(Available(g, done)), m)
  }

  lemma NextBatchFacts(g: Deps, m: nat, done: set<Id>)
    requires m >= 1
    ensures var b := NextBatch(g, m, done);
            && Ascending(b) && NoDup(b) && |b| <= m && |Elems(b)| == |b|
            && Elems(b) <= Available(g, done)
            && (|b| < m ==> Elems(b) == Available(g, done))
            && (Available(g, done) != {} ==> b != [])
  {
    var all := Enumerate(Available(g, done));
    EnumerateFacts(Available(g, done));
    var b := NextBatch(g, m, done);
    AscendingNoDup(all);
    NoDupCard(b);
    forall x | x in b
      ensures x in Available(g, done)
    {
      assert x in Elems(all);
    }
  }

  ghost function Flatten<T>(ss: seq<seq<T>>): seq<T> {
    if ss == [] then [] else ss[0] + Flatten(ss[1..])
  }

  lemma {:induction false} FlattenSnoc<T>(ss: seq<seq<T>>, b: seq<T>)
    ensures Flatten(ss + [b]) == Flatten(ss) + b
  {
    if ss == [] {
      assert (ss + [b])[1..] == [];
    } else {
      FlattenSnoc(ss[1..], b);
      assert (ss + [b])[1..] == ss[1..] + [b];
    }
  }

  /** The batches that run once `done` has run. */
  ghost function Schedule(g: Deps, m: nat, done: set<Id>): (s: seq<seq<Id>>)
    requires m >= 1
    decreases g.Keys - done
  {
    if Available(g, done) == {} then []
    else
      NextBatchFacts(g, m, done);
      var b := NextBatch(g, m, done);
      assert b[0] in Elems(b);
      [b] + Schedule(g, m, done + Elems(b))
  }

  ghost function Executed(g: Deps, m: nat, done: set<Id>): set<Id>
    requires m >= 1
  {
    Elems(Flatten(Schedule(g, m, done)))
  }

  lemma ScheduleStep(g: Deps, m: nat, done: set<Id>)
    requires m >= 1 && Available(g, done) != {}
    ensures var b, s := NextBatch(g, m, done), Schedule(g, m, done);
            && b != [] && (g.Keys - done) > (g.Keys - (done + Elems(b)))
            && s == [b] + Schedule(g, m, done + Elems(b))
            && Flatten(s) == b + Flatten(Schedule(g, m, done + Elems(b)))
            && Executed(g, m, done) == Elems(b) + Executed(g, m, done + Elems(b))
  {
    NextBatchFacts(g, m, done);
    var b := NextBatch(g, m, done);
    assert b[0] in Elems(b);
    var s := Schedule(g, m, done);
    assert s[1..] == Schedule(g, m, done + Elems(b));
    assert Flatten(s) == b + Flatten(s[1..]);
  }

  /** Every node runs at most once, and only nodes outside `done` run. */
  lemma {:induction false} RunsOnce(g: Deps, m: nat, done: set<Id>)
    requires m >= 1
    ensures NoDup(Flatten(Schedule(g, m, done)))
    ensures Executed(g, m, done) <= g.Keys - done
    decreases g.Keys - done
  {
    if Available(g, done) != {} {
      var b := NextBatch(g, m, done);
      NextBatchFacts(g, m, done);
      ScheduleStep(g, m, done);
      RunsOnce(g, m, done + Elems(b));
      var rest := Flatten(Schedule(g, m, done + Elems(b)));
      assert forall x :: x in b ==> x in Elems(b);
      assert forall x :: x in rest ==> x in Elems(rest);
      NoDupAppend(b, rest);
    } else {
      assert Flatten(Schedule(g, m, done)) == [];
    }
  }

  lemma NoDupAppend<T>(a: seq<T>, b: seq<T>)
    requires NoDup(a) && NoDup(b) && Elems(a) !! Elems(b)
    ensures NoDup(a + b)
  {
    var s := a + b;
    forall i, j | 0 <= i < j < |s|
      ensures s[i] != s[j]
    {
      if i < |a| <= j {
        assert s[i] in Elems(a) && s[j] in Elems(b);
      }
    }
  }

  lemma FlattenPrefix<T>(b: seq<T>, rest: seq<seq<T>>, k: nat)
    requires 1 <= k <= |rest| + 1
    ensures Flatten(([b] + rest)[..k]) == b + Flatten(rest[..k - 1])
    ensures Elems(Flatten(([b] + rest)[..k])) == Elems(b) + Elems(Flatten(rest[..k - 1]))
  {
    assert ([b] + rest)[..k] == [b] + rest[..k - 1];
    assert ([b] + rest[..k - 1])[1..] == rest[..k - 1];
  }

  /** The k-th batch starts only when all dependencies of its nodes ran in earlier batches. */
  lemma {:induction false} DepsRunEarlier(g: Deps, m: nat, done: set<Id>, k: nat, x: Id)
    requires m >= 1 && k < |Schedule(g, m, done)| && x in Schedule(g, m, done)[k]
    ensures DepsIn(g, done + Elems(Flatten(Schedule(g, m, done)[..k])), x)
    decreases k
  {
    var b := NextBatch(g, m, done);
    var rest := Schedule(g, m, done + Elems(b));
    assert Schedule(g, m, done) == [b] + rest by {
      ScheduleStep(g, m, done);
    }
    if k == 0 {
      assert x in Available(g, done) by {
        NextBatchFacts(g, m, done);
        assert x in Elems(b);
      }
    } else {
      DepsRunEarlier(g, m, done + Elems(b), k - 1, x);
      FlattenPrefix(b, rest, k);
      assert done + Elems(b) + Elems(Flatten(rest[..k - 1])) == done + (Elems(b) + Elems(Flatten(rest[..k - 1])));
    }
  }

  lemma {:induction false} InFlatten<T>(ss: seq<seq<T>>, x: T)
    ensures x in Flatten(ss) <==> exists k :: 0 <= k < |ss| && x in ss[k]
  {
    if ss != [] {
      InFlatten(ss[1..], x);
      if x in Flatten(ss) {
        if x in ss[0] {
        } else {
          var k :| 0 <= k < |ss[1..]| && x in ss[1..][k];
          assert x in ss[k + 1];
        }
      }
      if k :| 0 <= k < |ss| && x in ss[k] && k > 0 {
        assert x in ss[1..][k - 1];
      }
    }
  }

  /** A dependency always runs in a strictly earlier batch than the node that needs it. */
  lemma StrictlyLater(g: Deps, m: nat, k: nat, x: Id, d: Id) returns (j: nat)
    requires m >= 1 && k < |Schedule(g, m, {})| && x in Schedule(g, m, {})[k]
    requires x in g && d in g[x]
    ensures j < k && d in Schedule(g, m, {})[j]
  {
    var s := Schedule(g, m, {});
    DepsRunEarlier(g, m, {}, k, x);
    assert d in Elems(Flatten(s[..k]));
    InFlatten(s[..k], d);
    j :| 0 <= j < |s[..k]| && d in s[..k][j];
  }

  /** No node of a batch needs another node of the same batch. */
  lemma BatchIsIndependent(g: Deps, m: nat, k: nat, x: Id, y: Id)
    requires m >= 1 && k < |Schedule(g, m, {})|
    requires x in Schedule(g, m, {})[k] && y in Schedule(g, m, {})[k]
    ensures x in g && y !in g[x]
  {
    var s := Schedule(g, m, {});
    DepsRunEarlier(g, m, {}, k, x);
    if y in g[x] {
      var j := StrictlyLater(g, m, k, x, y);
      RunsOnce(g, m, {});
      OneBatchOnly(s, j, k, y);
    }
  }

  lemma {:induction false} OneBatchOnly<T>(ss: seq<seq<T>>, j: nat, k: nat, x: T)
    requires NoDup(Flatten(ss)) && j < |ss| && k < |ss| && x in ss[j] && x in ss[k]
    ensures j == k
    decreases ss
  {
    HeadApart(ss);
    if j > 0 && k > 0 {
      OneBatchOnly(ss[1..], j - 1, k - 1, x);
    } else if j > 0 {
      LaterInRest(ss, j, x);
    } else if k > 0 {
      LaterInRest(ss, k, x);
    }
  }

  lemma HeadApart<T>(ss: seq<seq<T>>)
    requires ss != [] && NoDup(Flatten(ss))
    ensures NoDup(Flatten(ss[1..])) && forall x :: x in ss[0] ==> x !in Flatten(ss[1..])
  {
    var rest := Flatten(ss[1..]);
    assert Flatten(ss) == ss[0] + rest;
    assert rest == Flatten(ss)[|ss[0]|..];
    DisjointParts(ss[0], rest);
  }

  lemma LaterInRest<T>(ss: seq<seq<T>>, k: nat, x: T)
    requires 0 < k < |ss| && x in ss[k]
    ensures x in Flatten(ss[1..])
  {
    assert x in ss[1..][k - 1];
    InFlatten(ss[1..], x);
  }

  /** When the loop ends nothing is ready, and the done set is sound. */
  lemma {:induction false} EndsExhausted(g: Deps, m: nat, done: set<Id>)
    requires m >= 1 && Sound(g, done)
    ensures Sound(g, done + Executed(g, m, done))
    ensures Available(g, done + Executed(g, m, done)) == {}
    decreases g.Keys - done
  {
    if Available(g, done) == {} {
      assert Executed(g, m, done) == {};
      assert done + {} == done;
    } else {
      var b := NextBatch(g, m, done);
      NextBatchFacts(g, m, done);
      ScheduleStep(g, m, done);
      SoundGrows(g, done, Elems(b));
      EndsExhausted(g, m, done + Elems(b));
      assert done + Executed(g, m, done) == done + Elems(b) + Executed(g, m, done + Elems(b));
    }
  }

  /**
   At every parallelism, exactly the nodes that are not behind a cycle run, and the whole
   graph runs if and only if it has no cycle.
   */
  lemma ExecutedExactly(g: Deps, m: nat)
    requires Closed(g) && m >= 1
    ensures forall x :: x in Executed(g, m, {}) <==> x in g && !BehindCycle(g, x)
    ensures Executed(g, m, {}) == g.Keys <==> Acyclic(g)
  {
    EndsExhausted(g, m, {});
    assert {} + Executed(g, m, {}) == Executed(g, m, {});
    ExhaustedIsExact(g, Executed(g, m, {}));
  }

  /** In the order of the batches, every node comes after all its dependencies. */
  lemma {:induction false} BatchesRespectDeps(g: Deps, m: nat, done: set<Id>, i: nat)
    requires m >= 1 && i < |Flatten(Schedule(g, m, done))|
    ensures var f := Flatten(Schedule(g, m, done));
            DepsIn(g, done + Elems(f[..i]), f[i])
    decreases g.Keys - done
  {
    var b := NextBatch(g, m, done);
    var rest := Flatten(Schedule(g, m, done + Elems(b)));
    assert Flatten(Schedule(g, m, done)) == b + rest && (g.Keys - done) > (g.Keys - (done + Elems(b))) by {
      ScheduleStep(g, m, done);
    }
    if i < |b| {
      assert Elems(b) <= Available(g, done) by {
        NextBatchFacts(g, m, done);
      }
      FirstBatchRespects(g, done, b, rest, i);
    } else {
      BatchesRespectDeps(g, m, done + Elems(b), i - |b|);
      LaterBatchesRespect(g, done, b, rest, i);
    }
  }

  lemma FirstBatchRespects(g: Deps, done: set<Id>, b: seq<Id>, rest: seq<Id>, i: nat)
    requires i < |b| && Elems(b) <= Available(g, done)
    ensures DepsIn(g, done + Elems((b + rest)[..i]), (b + rest)[i])
  {
    assert b[i] in Elems(b);
  }

  lemma LaterBatchesRespect(g: Deps, done: set<Id>, b: seq<Id>, rest: seq<Id>, i: nat)
    requires |b| <= i < |b + rest|
    requires DepsIn(g, done + Elems(b) + Elems(rest[..i - |b|]), rest[i - |b|])
    ensures DepsIn(g, done + Elems((b + rest)[..i]), (b + rest)[i])
  {
    assert (b + rest)[..i] == b + rest[..i - |b|];
    assert done + Elems(b) + Elems(rest[..i - |b|]) == done + Elems((b + rest)[..i]);
  }

  /** At every parallelism the batches make a topological order of the graph exactly when it is acyclic. */
  lemma BatchesAreTopological(g: Deps, m: nat)
    requires Closed(g) && m >= 1
    ensures IsTopo(g, Flatten(Schedule(g, m, {}))) <==> Acyclic(g)
  {
    var f := Flatten(Schedule(g, m, {}));
    ExecutedExactly(g, m);
    RunsOnce(g, m, {});
    forall i | 0 <= i < |f|
      ensures DepsIn(g, {} + Elems(f[..i]), f[i])
    {
      BatchesRespectDeps(g, m, {}, i);
    }
    assert g.Keys - {} == g.Keys;
  }

  // ----- Schedule length

  ghost function FullBatches(s: seq<seq<Id>>, m: nat): nat {
    if s == [] then 0 else FullBatches(s[1..], m) + (if |s[0]| == m then 1 else 0)
  }

  lemma {:induction false} FullBatchesBound(s: seq<seq<Id>>, m: nat)
    ensures FullBatches(s, m) * m <= |Flatten(s)|
  {
    if s != [] {
      FullBatchesBound(s[1..], m);
      var f := FullBatches(s[1..], m);
      assert (f + 1) * m == f * m + m;
    }
  }

  /** For every batch that is not full, some dependency chain of executed nodes has one more node. */
  lemma {:induction false} NonFullOrChain(g: Deps, m: nat, done: set<Id>) returns (p: seq<Id>)
    requires m >= 1
    ensures |Schedule(g, m, done)| <= FullBatches(Schedule(g, m, done), m) + |p|
    ensures Elems(p) <= Executed(g, m, done) && (p != [] ==> IsPath(g, p))
    decreases g.Keys - done
  {
    if Available(g, done) == {} {
      p := [];
    } else {
      var b := NextBatch(g, m, done);
      ScheduleLengths(g, m, done);
      p := NonFullOrChain(g, m, done + Elems(b));
      if |b| != m {
        p := ExtendChain(g, m, done, p);
      }
    }
  }

  lemma ScheduleLengths(g: Deps, m: nat, done: set<Id>)
    requires m >= 1 && Available(g, done) != {}
    ensures var b := NextBatch(g, m, done);
            && (g.Keys - done) > (g.Keys - (done + Elems(b)))
            && |Schedule(g, m, done)| == 1 + |Schedule(g, m, done + Elems(b))|
            && FullBatches(Schedule(g, m, done), m)
               == FullBatches(Schedule(g, m, done + Elems(b)), m) + (if |b| == m then 1 else 0)
            && Executed(g, m, done + Elems(b)) <= Executed(g, m, done)
  {
    ScheduleStep(g, m, done);
  }

  /** After a non-full batch, a chain of later nodes has a node of this batch or a later one below it. */
  lemma ExtendChain(g: Deps, m: nat, done: set<Id>, p: seq<Id>) returns (q: seq<Id>)
    requires m >= 1 && Available(g, done) != {} && |NextBatch(g, m, done)| != m
    requires Elems(p) <= Executed(g, m, done + Elems(NextBatch(g, m, done))) && (p != [] ==> IsPath(g, p))
    ensures Elems(q) <= Executed(g, m, done) && IsPath(g, q) && |q| == |p| + 1
  {
    var b := NextBatch(g, m, done);
    NextBatchFacts(g, m, done);
    if p == [] {
      q := [b[0]];
      assert b[0] in Elems(b) && b[0] in g;
      ScheduleStep(g, m, done);
    } else {
      var c := p[|p| - 1];
      assert c in Elems(p);
      var d := UnmetDep(g, m, done, c);
      q := p + [d];
      PathSnoc(g, p, d);
      ScheduleLengths(g, m, done);
    }
  }

  /** A node that runs later, though a non-full batch took all that was ready, had an unmet dependency. */
  lemma UnmetDep(g: Deps, m: nat, done: set<Id>, c: Id) returns (d: Id)
    requires m >= 1 && Available(g, done) != {} && |NextBatch(g, m, done)| < m
    requires c in Executed(g, m, done + Elems(NextBatch(g, m, done)))
    ensures c in g && d in g && d in g[c] && d in Executed(g, m, done)
  {
    var b := NextBatch(g, m, done);
    assert Elems(b) == Available(g, done) by {
      NextBatchFacts(g, m, done);
    }
    RunsOnce(g, m, done + Elems(b));
    assert c in g && c !in Available(g, done) && c !in done;
    d :| d in g[c] && d !in done;
    assert c in Executed(g, m, done) by {
      ScheduleStep(g, m, done);
    }
    DepsAreRun(g, m, done, c, d);
    RunsOnce(g, m, done);
  }

  /** The executed set is closed under dependencies. */
  lemma DepsAreRun(g: Deps, m: nat, done: set<Id>, c: Id, d: Id)
    requires m >= 1 && c in Executed(g, m, done) && c in g && d in g[c] && d !in done
    ensures d in Executed(g, m, done)
  {
    var s := Schedule(g, m, done);
    InFlatten(s, c);
    var k :| 0 <= k < |s| && c in s[k];
    DepsRunEarlier(g, m, done, k, c);
    assert d in Flatten(s[..k]);
    InFlatten(s[..k], d);
    var j :| 0 <= j < |s[..k]| && d in s[..k][j];
    assert d in s[j];
    InFlatten(s, d);
  }

  /**
   Schedule-length bound: with n nodes executed, the loop runs at most n/m + L batches, where L
   is the number of nodes on some dependency chain among them.
   */
  lemma LengthBound(g: Deps, m: nat) returns (p: seq<Id>)
    requires m >= 1
    ensures |Schedule(g, m, {})| <= |Executed(g, m, {})| / m + |p|
    ensures Elems(p) <= Executed(g, m, {}) && (p != [] ==> IsPath(g, p))
  {
    p := NonFullOrChain(g, m, {});
    var s := Schedule(g, m, {});
    RunsOnce(g, m, {});
    NoDupCard(Flatten(s));
    FullBatchesBound(s, m);
    DivideBound(FullBatches(s, m), m, |Executed(g, m, {})|);
  }

  lemma DivideBound(k: nat, m: nat, n: nat)
    requires m >= 1 && k * m <= n
    ensures k <= n / m
  {
    if k > n / m {
      Scale(n / m + 1, k, m);
    }
  }

  lemma Scale(a: nat, b: nat, m: nat)
    requires a <= b
    ensures a * m <= b * m
  {
  }

  // ----- One worker: the least topological order

  ghost function EnumerateHead(u: set<Id>): (m: Id)
    requires u != {}
    ensures IsLeast(m, u)
  {
    Enumerate(u)[0]
  }

  /** Smallest ready identifier first. */
  ghost function KahnOrder(g: Deps, done: set<Id>): seq<Id>
    decreases g.Keys - done
  {
    if Available(g, done) == {} then []
    else
      var x := EnumerateHead(Available(g, done));
      [x] + KahnOrder(g, done + {x})
  }

  /** Lexicographic order on node lists. */
  predicate LexLeq(a: seq<Id>, b: seq<Id>) {
    a == [] || (b != [] && (Less(a[0], b[0]) || (a[0] == b[0] && LexLeq(a[1..], b[1..]))))
  }

  lemma KahnStep(g: Deps, done: set<Id>) returns (x: Id)
    requires Available(g, done) != {}
    ensures x in Available(g, done) && KahnOrder(g, done) == [x] + KahnOrder(g, done + {x})
    ensures forall y :: y in Available(g, done) ==> Leq(x, y)
    ensures x == Enumerate(Available(g, done))[0]
    ensures (g.Keys - done) > (g.Keys - (done + {x}))
  {
    x := EnumerateStep(Available(g, done));
  }

  lemma {:induction false} KahnIsLeast(g: Deps, done: set<Id>, t: seq<Id>)
    requires done <= g.Keys && IsTopoFrom(g, done, t)
    ensures IsTopoFrom(g, done, KahnOrder(g, done))
    ensures LexLeq(KahnOrder(g, done), t)
    decreases |t|
  {
    if t == [] {
      assert Elems(t) == {};
      SubsetCard(done, g.Keys);
    } else {
      TopoTail(g, done, t);
      var x := KahnStep(g, done);
      if x == t[0] {
        KahnIsLeast(g, done + {x}, t[1..]);
        TopoCons(g, done, x, KahnOrder(g, done + {x}));
      } else {
        KahnIsTopo(g, done, t);
      }
    }
  }

  /** If some topological order of the rest exists, the greedy order is one too. */
  lemma KahnIsTopo(g: Deps, done: set<Id>, t: seq<Id>)
    requires done <= g.Keys && IsTopoFrom(g, done, t)
    ensures IsTopoFrom(g, done, KahnOrder(g, done))
    decreases |t|
  {
    if t == [] {
      assert Elems(t) == {};
      SubsetCard(done, g.Keys);
    } else {
      TopoTail(g, done, t);
      var x := KahnStep(g, done);
      var r := PullFront(g, done, t, x);
      KahnIsTopo(g, done + {x}, r);
      TopoCons(g, done, x, KahnOrder(g, done + {x}));
    }
  }

  /** A ready node can be moved to the front of a topological order. */
  lemma PullFront(g: Deps, done: set<Id>, t: seq<Id>, x: Id) returns (r: seq<Id>)
    requires IsTopoFrom(g, done, t) && x in Available(g, done)
    ensures IsTopoFrom(g, done + {x}, r) && |r| == |t| - 1
  {
    assert x in Elems(t);
    var k :| 0 <= k < |t| && t[k] == x;
    r := t[..k] + t[k + 1..];
    assert Elems(r) == Elems(t) - {x};
    forall i | 0 <= i < |r|
      ensures DepsIn(g, done + {x} + Elems(r[..i]), r[i])
    {
      PulledPrefix(t, k, i);
      var j := if i < k then i else i + 1;
      assert r[i] == t[j] && DepsIn(g, done + Elems(t[..j]), t[j]);
    }
  }

  lemma PulledPrefix(t: seq<Id>, k: nat, i: nat)
    requires k < |t| && i < |t| - 1
    ensures var r := t[..k] + t[k + 1..];
            Elems(t[..if i < k then i else i + 1]) <= Elems(r[..i]) + {t[k]}
  {
    var r := t[..k] + t[k + 1..];
    var j := if i < k then i else i + 1;
    forall y | y in t[..j]
      ensures y in r[..i] || y == t[k]
    {
      var a :| 0 <= a < j && t[a] == y;
      if a < k {
        assert r[..i][a] == y;
      } else if a > k {
        assert r[..i][a - 1] == y;
      }
    }
  }

  /** The greedy order and the one-worker schedule run the same nodes in the same order. */
  lemma {:induction false} OneWorkerIsKahn(g: Deps, done: set<Id>)
    ensures Flatten(Schedule(g, 1, done)) == KahnOrder(g, done)
    ensures forall k :: 0 <= k < |Schedule(g, 1, done)| ==> |Schedule(g, 1, done)[k]| == 1
    decreases g.Keys - done
  {
    if Available(g, done) != {} {
      var x := KahnStep(g, done);
      var b := NextBatch(g, 1, done);
      NextBatchFacts(g, 1, done);
      ScheduleStep(g, 1, done);
      assert b == [x];
      assert Elems(b) == {x};
      OneWorkerIsKahn(g, done + {x});
    }
  }

  /**
   The greedy order is a topological order exactly on acyclic graphs, and then it is the
   lexicographically least of all of them.
   */
  lemma LeastTopologicalOrder(g: Deps)
    requires Closed(g)
    ensures IsTopo(g, KahnOrder(g, {})) <==> Acyclic(g)
    ensures |KahnOrder(g, {})| == |g| <==> Acyclic(g)
    ensures forall t :: IsTopo(g, t) ==> LexLeq(KahnOrder(g, {}), t)
  {
    var k := KahnOrder(g, {});
    KahnCovers(g);
    if Acyclic(g) {
      KahnRespectsDeps(g, {});
      assert g.Keys - {} == g.Keys;
      assert IsTopo(g, k);
    }
    if IsTopo(g, k) {
      TopoMeansAcyclic(g, k);
    }
    forall t | IsTopo(g, t)
      ensures LexLeq(k, t)
    {
      KahnIsLeast(g, {}, t);
    }
  }

  /** The greedy order lists nodes once each, and all of them exactly when there is no cycle. */
  lemma KahnCovers(g: Deps)
    requires Closed(g)
    ensures var k := KahnOrder(g, {});
            && NoDup(k) && Elems(k) <= g.Keys
            && (Elems(k) == g.Keys <==> Acyclic(g))
            && (|k| == |g| <==> Acyclic(g))
  {
    var k := KahnOrder(g, {});
    OneWorkerIsKahn(g, {});
    ExecutedExactly(g, 1);
    RunsOnce(g, 1, {});
    NoDupCard(k);
    SubsetCard(Elems(k), g.Keys);
    assert |g| == |g.Keys|;
  }

  lemma {:induction false} KahnRespectsDeps(g: Deps, done: set<Id>)
    ensures forall i :: 0 <= i < |KahnOrder(g, done)| ==>
              DepsIn(g, done + Elems(KahnOrder(g, done)[..i]), KahnOrder(g, done)[i])
    decreases g.Keys - done
  {
    if Available(g, done) != {} {
      var x := KahnStep(g, done);
      var r := KahnOrder(g, done + {x});
      KahnRespectsDeps(g, done + {x});
      var k := KahnOrder(g, done);
      forall i | 0 <= i < |k|
        ensures DepsIn(g, done + Elems(k[..i]), k[i])
      {
        if i > 0 {
          assert k[..i] == [x] + r[..i - 1];
          assert Elems(k[..i]) == {x} + Elems(r[..i - 1]);
          assert DepsIn(g, done + {x} + Elems(r[..i - 1]), r[i - 1]);
          assert done + {x} + Elems(r[..i - 1]) == done + Elems(k[..i]);
        }
      }
    }
  }
}
