/**
 Kahn's algorithm with a plain queue: what comes out, and that it comes out wave by wave,
 a wave being everything that the earlier waves make ready.
 */
module Waves {
  import opened Ids
  import opened Digraph
  import opened Schedules

  lemma AvailableGrows(g: Deps, done: set<Id>, x: Id)
    requires x in Available(g, done)
    ensures Available(g, done) - {x} <= Available(g, done + {x})
  {
  }

  /** The nodes that finishing `x` makes ready. */
  ghost function Fresh(g: Deps, done: set<Id>, x: Id): set<Id> {
    Available(g, done + {x}) - Available(g, done)
  }

  ghost predicate QueueOk(g: Deps, done: set<Id>, queue: seq<Id>) {
    NoDup(queue) && Elems(queue) == Available(g, done)
  }

  /** Taking the head and appending what became ready keeps the queue exact. */
  lemma QueueStep(g: Deps, done: set<Id>, queue: seq<Id>)
    requires QueueOk(g, done, queue) && queue != []
    ensures queue[0] in Available(g, done)
    ensures QueueOk(g, done + {queue[0]}, queue[1..] + Enumerate(Fresh(g, done, queue[0])))
    ensures (g.Keys - done) > (g.Keys - (done + {queue[0]}))
  {
    var x := queue[0];
    assert x in Elems(queue);
    AvailableGrows(g, done, x);
    var woken := Enumerate(Fresh(g, done, x));
    EnumerateFacts(Fresh(g, done, x));
    AscendingNoDup(woken);
    assert Elems(queue[1..]) == Available(g, done) - {x};
    NoDupAppend(queue[1..], woken);
    assert Elems(queue[1..] + woken) == Elems(queue[1..]) + Elems(woken);
    assert x !in Available(g, done + {x});
  }

  /** First in, first out; the newly ready nodes join in identifier order. */
  ghost function Fifo(g: Deps, done: set<Id>, queue: seq<Id>): seq<Id>
    decreases g.Keys - done
  {
    if queue == [] || queue[0] !in Available(g, done) then []
    else
      assert queue[0] in g.Keys - done;
      [queue[0]] + Fifo(g, done + {queue[0]}, queue[1..] + Enumerate(Fresh(g, done, queue[0])))
  }

  lemma StartQueue(g: Deps)
    ensures QueueOk(g, {}, Enumerate(Available(g, {})))
  {
    EnumerateFacts(Available(g, {}));
    AscendingNoDup(Enumerate(Available(g, {})));
  }

  /** The order in which a queue-driven Kahn loop takes the nodes of `g`. */
  ghost function FifoOrder(g: Deps): seq<Id> {
    Fifo(g, {}, Enumerate(Available(g, {})))
  }

  lemma FifoStep(g: Deps, done: set<Id>, queue: seq<Id>) returns (x: Id, woken: seq<Id>, rest: seq<Id>)
    requires QueueOk(g, done, queue) && queue != []
    ensures x == queue[0] && x in Available(g, done) && rest == queue[1..] + woken
    ensures QueueOk(g, done + {x}, rest) && (g.Keys - done) > (g.Keys - (done + {x}))
    ensures Fifo(g, done, queue) == [x] + Fifo(g, done + {x}, rest)
  {
    QueueStep(g, done, queue);
    x, woken := queue[0], Enumerate(Fresh(g, done, queue[0]));
    rest := queue[1..] + woken;
  }

  lemma {:induction false} FifoReaches(g: Deps, done: set<Id>, queue: seq<Id>)
    requires QueueOk(g, done, queue) && Sound(g, done)
    ensures var e := Elems(Fifo(g, done, queue));
            NoDup(Fifo(g, done, queue)) && e <= g.Keys - done && Sound(g, done + e) && Available(g, done + e) == {}
    decreases g.Keys - done
  {
    if queue == [] {
      assert done + Elems(Fifo(g, done, queue)) == done;
      assert Elems(queue) == {};
    } else {
      var x, _, rest := FifoStep(g, done, queue);
      SoundGrows(g, done, {x});
      FifoReaches(g, done + {x}, rest);
      ConsFacts(x, Fifo(g, done + {x}, rest), g.Keys - (done + {x}));
      assert done + Elems(Fifo(g, done, queue)) == done + {x} + Elems(Fifo(g, done + {x}, rest));
    }
  }

  lemma ConsFacts(x: Id, s: seq<Id>, u: set<Id>)
    requires NoDup(s) && Elems(s) <= u && x !in u
    ensures NoDup([x] + s) && Elems([x] + s) == {x} + Elems(s)
  {
    forall i | 0 <= i < |s|
      ensures s[i] != x
    {
      assert s[i] in Elems(s);
    }
  }

  lemma {:induction false} FifoRespects(g: Deps, done: set<Id>, queue: seq<Id>, i: nat)
    requires QueueOk(g, done, queue) && i < |Fifo(g, done, queue)|
    ensures DepsIn(g, done + Elems(Fifo(g, done, queue)[..i]), Fifo(g, done, queue)[i])
    decreases i
  {
    var f := Fifo(g, done, queue);
    var x, _, rest := FifoStep(g, done, queue);
    if i > 0 {
      var t := Fifo(g, done + {x}, rest);
      FifoRespects(g, done + {x}, rest, i - 1);
      assert f[..i] == [x] + t[..i - 1];
      assert done + {x} + Elems(t[..i - 1]) == done + Elems(f[..i]);
    }
  }

  /** The queue order is topological exactly on acyclic graphs, and complete exactly then. */
  lemma FifoIsTopo(g: Deps)
    requires Closed(g)
    ensures IsTopo(g, FifoOrder(g)) <==> Acyclic(g)
    ensures |FifoOrder(g)| == |g| <==> Acyclic(g)
    ensures forall x :: x in FifoOrder(g) <==> x in g && !BehindCycle(g, x)
  {
    var f := FifoOrder(g);
    FifoIsExact(g);
    if IsTopo(g, f) {
      TopoMeansAcyclic(g, f);
    }
    if Acyclic(g) {
      assert g.Keys - {} == g.Keys;
      StartQueue(g);
      forall i | 0 <= i < |f|
        ensures DepsIn(g, {} + Elems(f[..i]), f[i])
      {
        FifoRespects(g, {}, Enumerate(Available(g, {})), i);
      }
    }
  }

  lemma FifoIsExact(g: Deps)
    requires Closed(g)
    ensures NoDup(FifoOrder(g)) && Elems(FifoOrder(g)) <= g.Keys
    ensures Elems(FifoOrder(g)) == g.Keys <==> Acyclic(g)
    ensures |FifoOrder(g)| == |g| <==> Acyclic(g)
    ensures forall x :: x in FifoOrder(g) <==> x in g && !BehindCycle(g, x)
  {
    StartQueue(g);
    var f := FifoOrder(g);
    FifoReaches(g, {}, Enumerate(Available(g, {})));
    assert {} + Elems(f) == Elems(f);
    ExhaustedIsExact(g, Elems(f));
    assert forall x :: x in f <==> x in Elems(f);
    NoDupCard(f);
    SubsetCard(Elems(f), g.Keys);
    assert |g| == |g.Keys|;
  }

  // ----- Waves

  /** What the first `k` waves have finished. */
  ghost function Wave(g: Deps, k: nat): set<Id> {
    if k == 0 then {} else Wave(g, k - 1) + Available(g, Wave(g, k - 1))
  }

  /**
   With `ahead` at the front of the queue being the rest of the current wave, the next |ahead|
   nodes taken are those, and `q` is then the queue.
   */
  lemma {:induction false} FinishWave(g: Deps, done: set<Id>, ahead: seq<Id>, behind: seq<Id>) returns (q: seq<Id>)
    requires QueueOk(g, done, ahead + behind)
    ensures QueueOk(g, done + Elems(ahead), q)
    ensures Fifo(g, done, ahead + behind) == ahead + Fifo(g, done + Elems(ahead), q)
    decreases |ahead|
  {
    if ahead == [] {
      q := behind;
      assert ahead + behind == behind && done + Elems(ahead) == done;
    } else {
      var x, woken, rest := FifoStep(g, done, ahead + behind);
      MoveHead(ahead, behind, woken);
      HeadDone(ahead, done);
      q := FinishWave(g, done + {x}, ahead[1..], behind + woken);
      HeadBack(ahead, Fifo(g, done + Elems(ahead), q));
    }
  }

  lemma MoveHead(ahead: seq<Id>, behind: seq<Id>, woken: seq<Id>)
    requires ahead != []
    ensures (ahead + behind)[0] == ahead[0]
    ensures (ahead + behind)[1..] + woken == ahead[1..] + (behind + woken)
  {
  }

  lemma HeadDone(ahead: seq<Id>, done: set<Id>)
    requires ahead != []
    ensures done + {ahead[0]} + Elems(ahead[1..]) == done + Elems(ahead)
  {
    assert ahead == [ahead[0]] + ahead[1..];
  }

  lemma HeadBack(ahead: seq<Id>, rest: seq<Id>)
    requires ahead != []
    ensures [ahead[0]] + (ahead[1..] + rest) == ahead + rest
  {
  }

  /** After the k-th wave the loop is in the state of a woken start with that wave done. */
  lemma {:induction false} WaveBoundary(g: Deps, k: nat) returns (w: seq<Id>, q: seq<Id>)
    ensures Elems(w) == Wave(g, k) && |w| == |Wave(g, k)| && QueueOk(g, Wave(g, k), q)
    ensures FifoOrder(g) == w + Fifo(g, Wave(g, k), q)
  {
    if k == 0 {
      StartQueue(g);
      w, q := [], Enumerate(Available(g, {}));
      assert Elems(w) == {};
    } else {
      var w0, q0 := WaveBoundary(g, k - 1);
      w, q := NextWave(g, Wave(g, k - 1), w0, q0);
    }
  }

  lemma NextWave(g: Deps, u: set<Id>, w0: seq<Id>, q0: seq<Id>) returns (w: seq<Id>, q: seq<Id>)
    requires Elems(w0) == u && |w0| == |u| && QueueOk(g, u, q0)
    ensures var v := u + Available(g, u);
            && Elems(w) == v && |w| == |v| && QueueOk(g, v, q)
            && w0 + Fifo(g, u, q0) == w + Fifo(g, v, q)
  {
    assert q0 + [] == q0;
    q := FinishWave(g, u, q0, []);
    w := w0 + q0;
    JoinWaves(w0, q0, u, Available(g, u));
    ConcatAssoc(w0, q0, Fifo(g, u + Available(g, u), q));
  }

  lemma JoinWaves(a: seq<Id>, b: seq<Id>, u: set<Id>, v: set<Id>)
    requires Elems(a) == u && |a| == |u| && NoDup(b) && Elems(b) == v && u !! v
    ensures Elems(a + b) == u + v && |a + b| == |u + v|
  {
    NoDupCard(b);
    assert |u + v| == |u| + |v|;
  }

  /**
   Queue order is breadth first: for every k, the nodes of the first k waves come first.
   Hence no node is taken before one whose dependencies are shallower.
   */
  lemma WaveByWave(g: Deps, k: nat)
    ensures |Wave(g, k)| <= |FifoOrder(g)|
    ensures Elems(FifoOrder(g)[..|Wave(g, k)|]) == Wave(g, k)
  {
    var w, q := WaveBoundary(g, k);
    assert FifoOrder(g)[..|w|] == w;
  }

  /** No dependency chain that starts at `x` has more than `k` nodes. */
  ghost predicate DepthAtMost(g: Deps, x: Id, k: nat) {
    forall p :: IsPath(g, p) && p[0] == x ==> |p| <= k
  }

  lemma {:induction false} WaveMembers(g: Deps, k: nat, x: Id)
    ensures x in Wave(g, k + 1) <==> DepsIn(g, Wave(g, k), x)
    ensures Wave(g, k) <= Wave(g, k + 1)
  {
    if k > 0 {
      forall y
        ensures y in Wave(g, k) <==> DepsIn(g, Wave(g, k - 1), y)
      {
        WaveMembers(g, k - 1, y);
      }
      WaveMembers(g, k - 1, x);
    }
  }

  lemma {:induction false} ShallowChains(g: Deps, k: nat, p: seq<Id>)
    requires IsPath(g, p) && p[0] in Wave(g, k)
    ensures |p| <= k
    decreases k
  {
    if k > 0 && |p| > 1 {
      WaveMembers(g, k - 1, p[0]);
      assert p[0 + 1] in g[p[0]];
      PathSlice(g, p, 1, |p|);
      ShallowChains(g, k - 1, p[1..|p|]);
    }
  }

  lemma PathCons(g: Deps, x: Id, q: seq<Id>)
    requires x in g && IsPath(g, q) && q[0] in g[x]
    ensures IsPath(g, [x] + q)
  {
    var p := [x] + q;
    forall i | 0 <= i < |p| - 1
      ensures p[i + 1] in g[p[i]]
    {
      if i > 0 {
        assert q[(i - 1) + 1] in g[q[i - 1]];
      }
    }
  }

  lemma TrivialPath(g: Deps, x: Id)
    requires x in g
    ensures exists p :: IsPath(g, p) && p[0] == x && |p| == 1
  {
    assert IsPath(g, [x]);
  }

  lemma ShallowerDep(g: Deps, k: nat, x: Id, d: Id)
    requires x in g && d in g[x] && DepthAtMost(g, x, k + 1)
    ensures DepthAtMost(g, d, k)
  {
    forall q | IsPath(g, q) && q[0] == d
      ensures |q| <= k
    {
      PathCons(g, x, q);
      assert |[x] + q| <= k + 1;
    }
  }

  lemma {:induction false} ShallowIsInWave(g: Deps, k: nat, x: Id)
    requires Closed(g) && x in g && DepthAtMost(g, x, k)
    ensures x in Wave(g, k)
    decreases k
  {
    if k == 0 {
      TrivialPath(g, x);
    } else {
      forall d | d in g[x]
        ensures d in Wave(g, k - 1)
      {
        ShallowerDep(g, k - 1, x, d);
        ShallowIsInWave(g, k - 1, d);
      }
      WaveMembers(g, k - 1, x);
    }
  }

  /** The waves are the levels of the graph: the first k hold the nodes of depth at most k. */
  lemma WaveIsDepth(g: Deps, k: nat, x: Id)
    requires Closed(g) && x in g
    ensures x in Wave(g, k) <==> DepthAtMost(g, x, k)
  {
    if DepthAtMost(g, x, k) {
      ShallowIsInWave(g, k, x);
    }
    if x in Wave(g, k) {
      forall p | IsPath(g, p) && p[0] == x
        ensures |p| <= k
      {
        ShallowChains(g, k, p);
      }
    }
  }

  // ----- The order inside a wave

  /** The last position of `t` that holds a dependency of `x`, or -1. */
  ghost function LastNeed(g: Deps, t: seq<Id>, x: Id): (p: int)
    requires x in g
    ensures -1 <= p < |t| && (p >= 0 ==> t[p] in g[x])
    ensures forall k :: p < k < |t| ==> t[k] !in g[x]
  {
    if t == [] then -1
    else if t[|t| - 1] in g[x] then |t| - 1
    else LastNeed(g, t[..|t| - 1], x)
  }

  /** `x` was ready before `y`: its last dependency was taken earlier, or they wait for the same one and `x` is smaller. */
  ghost predicate ReadyBefore(g: Deps, t: seq<Id>, x: Id, y: Id)
    requires x in g && y in g
  {
    LastNeed(g, t, x) < LastNeed(g, t, y) || (LastNeed(g, t, x) == LastNeed(g, t, y) && Less(x, y))
  }

  ghost predicate ByReadiness(g: Deps, t: seq<Id>) {
    Elems(t) <= g.Keys && forall i, j :: 0 <= i < j < |t| && t[i] in g && t[j] in g ==> ReadyBefore(g, t, t[i], t[j])
  }

  /**
   A topological order in which nodes come as they get ready: first, ascending, those without
   dependencies; of any two others the one whose last dependency is taken earlier, and of two
   with the same last dependency the smaller one.
   */
  ghost predicate IsQueueOrder(g: Deps, t: seq<Id>) {
    IsTopo(g, t) && ByReadiness(g, t)
  }

  /** What is taken after all dependencies of `x` leaves the last one where it is. */
  lemma {:induction false} LastNeedStays(g: Deps, a: seq<Id>, b: seq<Id>, x: Id)
    requires x in g && forall k :: 0 <= k < |b| ==> b[k] !in g[x]
    ensures LastNeed(g, a + b, x) == LastNeed(g, a, x)
    decreases |b|
  {
    if b == [] {
      assert a + b == a;
    } else {
      assert (a + b)[..|a + b| - 1] == a + b[..|b| - 1];
      LastNeedStays(g, a, b[..|b| - 1], x);
    }
  }

  /** Every pair of the queue is in order of readiness, and none of it needs what is not yet taken. */
  ghost predicate QueueByReadiness(g: Deps, t: seq<Id>, queue: seq<Id>) {
    && (forall i :: 0 <= i < |queue| ==> queue[i] in g && DepsIn(g, Elems(t), queue[i]))
    && (forall i, j :: 0 <= i < j < |queue| ==> ReadyBefore(g, t, queue[i], queue[j]))
  }

  lemma ReadyBeforeStays(g: Deps, a: seq<Id>, b: seq<Id>, x: Id, y: Id)
    requires x in g && y in g && DepsIn(g, Elems(a), x) && DepsIn(g, Elems(a), y) && Elems(a) !! Elems(b)
    ensures ReadyBefore(g, a + b, x, y) == ReadyBefore(g, a, x, y)
  {
    forall k | 0 <= k < |b|
      ensures b[k] !in g[x] && b[k] !in g[y]
    {
      assert b[k] in Elems(b);
    }
    LastNeedStays(g, a, b, x);
    LastNeedStays(g, a, b, y);
  }

  /** What taking `x` makes ready has `x` for its last dependency. */
  lemma WokenNeedsHead(g: Deps, t: seq<Id>, x: Id, y: Id)
    requires y in Fresh(g, Elems(t), x)
    ensures y in g && DepsIn(g, Elems(t + [x]), y) && LastNeed(g, t + [x], y) == |t|
  {
    assert Elems(t + [x]) == Elems(t) + {x};
    assert x in g[y];
  }

  /** What was ready before is ready before what is made ready now. */
  lemma OldBeforeWoken(g: Deps, t: seq<Id>, x: Id, old_: Id, y: Id)
    requires old_ in g && DepsIn(g, Elems(t), old_) && x !in Elems(t) && y in Fresh(g, Elems(t), x)
    ensures y in g && ReadyBefore(g, t + [x], old_, y)
  {
    WokenNeedsHead(g, t, x, y);
    assert x !in g[old_];
    LastNeedStays(g, t, [x], old_);
  }

  lemma EnumerateMembers(u: set<Id>)
    ensures forall k :: 0 <= k < |Enumerate(u)| ==> Enumerate(u)[k] in u
    ensures Ascending(Enumerate(u))
  {
    EnumerateFacts(u);
    forall k | 0 <= k < |Enumerate(u)|
      ensures Enumerate(u)[k] in u
    {
      assert Enumerate(u)[k] in Elems(Enumerate(u));
    }
  }

  /** Taking the head keeps the queue in order of readiness. */
  lemma QueueStaysByReadiness(g: Deps, t: seq<Id>, queue: seq<Id>)
    requires QueueOk(g, Elems(t), queue) && queue != [] && QueueByReadiness(g, t, queue)
    ensures QueueByReadiness(g, t + [queue[0]], queue[1..] + Enumerate(Fresh(g, Elems(t), queue[0])))
  {
    var x, tail, woken := queue[0], queue[1..], Enumerate(Fresh(g, Elems(t), queue[0]));
    var rest, t' := tail + woken, t + [x];
    assert x in Elems(queue);
    assert Elems(t') == Elems(t) + {x};
    EnumerateMembers(Fresh(g, Elems(t), x));
    forall i | 0 <= i < |rest|
      ensures rest[i] in g && DepsIn(g, Elems(t'), rest[i])
    {
      if i >= |tail| {
        WokenNeedsHead(g, t, x, woken[i - |tail|]);
      }
    }
    forall i, j | 0 <= i < j < |rest|
      ensures ReadyBefore(g, t', rest[i], rest[j])
    {
      PairStaysInOrder(g, t, queue, i, j);
    }
  }

  lemma PairStaysInOrder(g: Deps, t: seq<Id>, queue: seq<Id>, i: nat, j: nat)
    requires QueueOk(g, Elems(t), queue) && queue != [] && QueueByReadiness(g, t, queue)
    requires i < j < |queue[1..] + Enumerate(Fresh(g, Elems(t), queue[0]))|
    ensures var rest := queue[1..] + Enumerate(Fresh(g, Elems(t), queue[0]));
            rest[i] in g && rest[j] in g && ReadyBefore(g, t + [queue[0]], rest[i], rest[j])
  {
    var x, n, woken := queue[0], |queue| - 1, Enumerate(Fresh(g, Elems(t), queue[0]));
    assert x in Elems(queue);
    EnumerateMembers(Fresh(g, Elems(t), x));
    if j < n {
      ReadyBeforeStays(g, t, [x], queue[i + 1], queue[j + 1]);
    } else if i < n {
      OldBeforeWoken(g, t, x, queue[i + 1], woken[j - n]);
    } else {
      WokenNeedsHead(g, t, x, woken[i - n]);
      WokenNeedsHead(g, t, x, woken[j - n]);
    }
  }

  ghost predicate NextInOrder(g: Deps, t: seq<Id>, k: nat)
    requires k + 1 < |t|
  {
    t[k] in g && t[k + 1] in g && ReadyBefore(g, t, t[k], t[k + 1])
  }

  lemma {:induction false} FifoIsOutside(g: Deps, done: set<Id>, queue: seq<Id>)
    requires QueueOk(g, done, queue)
    ensures Elems(Fifo(g, done, queue)) <= g.Keys - done
    decreases g.Keys - done
  {
    if queue != [] {
      var x, _, rest := FifoStep(g, done, queue);
      FifoIsOutside(g, done + {x}, rest);
      assert Elems(Fifo(g, done, queue)) == {x} + Elems(Fifo(g, done + {x}, rest));
    }
  }

  /** Neighbours in the order that goes on from `t` are in order of readiness. */
  lemma {:induction false} FifoNeighbours(g: Deps, t: seq<Id>, queue: seq<Id>, i: nat)
    requires QueueOk(g, Elems(t), queue) && QueueByReadiness(g, t, queue)
    requires var f := t + Fifo(g, Elems(t), queue); |t| <= i < |f| - 1
    ensures NextInOrder(g, t + Fifo(g, Elems(t), queue), i)
    decreases i - |t|
  {
    var f := t + Fifo(g, Elems(t), queue);
    var x := queue[0];
    var rest := queue[1..] + Enumerate(Fresh(g, Elems(t), x));
    QueueStep(g, Elems(t), queue);
    QueueStaysByReadiness(g, t, queue);
    var after := Fifo(g, Elems(t) + {x}, rest);
    assert Elems(t + [x]) == Elems(t) + {x};
    assert f == (t + [x]) + after;
    if i > |t| {
      FifoNeighbours(g, t + [x], rest, i);
    } else {
      FifoIsOutside(g, Elems(t) + {x}, rest);
      HeadBeforeNext(g, t, queue, after);
    }
  }

  lemma HeadBeforeNext(g: Deps, t: seq<Id>, queue: seq<Id>, after: seq<Id>)
    requires QueueOk(g, Elems(t), queue) && queue != [] && QueueByReadiness(g, t, queue) && after != []
    requires var x := queue[0];
             after == Fifo(g, Elems(t) + {x}, queue[1..] + Enumerate(Fresh(g, Elems(t), x)))
             && Elems(after) <= g.Keys - (Elems(t) + {x})
    ensures after[0] in g && ReadyBefore(g, (t + [queue[0]]) + after, queue[0], after[0])
  {
    var x := queue[0];
    var rest := queue[1..] + Enumerate(Fresh(g, Elems(t), x));
    assert x in Elems(queue) && x !in Elems(t);
    assert after[0] == rest[0];
    EnumerateMembers(Fresh(g, Elems(t), x));
    QueueStaysByReadiness(g, t, queue);
    assert Elems(t + [x]) == Elems(t) + {x};
    if |queue| > 1 {
      ReadyBeforeStays(g, t, [x], x, queue[1]);
    } else {
      OldBeforeWoken(g, t, x, x, rest[0]);
    }
    ReadyBeforeStays(g, t + [x], after, x, after[0]);
  }

  lemma ReadyBeforeTrans(g: Deps, t: seq<Id>, x: Id, y: Id, z: Id)
    requires x in g && y in g && z in g && ReadyBefore(g, t, x, y) && ReadyBefore(g, t, y, z)
    ensures ReadyBefore(g, t, x, z)
  {
    if Less(x, y) && Less(y, z) {
      LessTrans(x, y, z);
    }
  }

  lemma {:induction false} NeighboursSuffice(g: Deps, t: seq<Id>, i: nat, j: nat)
    requires i < j < |t| && Elems(t) <= g.Keys
    requires forall k :: 0 <= k < |t| - 1 ==> NextInOrder(g, t, k)
    ensures t[i] in g && t[j] in g && ReadyBefore(g, t, t[i], t[j])
    decreases j - i
  {
    assert NextInOrder(g, t, j - 1);
    if i < j - 1 {
      NeighboursSuffice(g, t, i, j - 1);
      ReadyBeforeTrans(g, t, t[i], t[j - 1], t[j]);
    }
  }

  lemma StartsByReadiness(g: Deps)
    ensures QueueByReadiness(g, [], Enumerate(Available(g, {})))
  {
    EnumerateMembers(Available(g, {}));
    assert Elems<Id>([]) == {};
  }

  /** The queue takes the nodes of every graph in order of readiness. */
  lemma FifoByReadiness(g: Deps)
    ensures ByReadiness(g, FifoOrder(g))
  {
    var queue := Enumerate(Available(g, {}));
    StartQueue(g);
    StartsByReadiness(g);
    FifoIsOutside(g, {}, queue);
    var f := FifoOrder(g);
    assert Elems<Id>([]) == {} && [] + f == f;
    forall k | 0 <= k < |f| - 1
      ensures NextInOrder(g, f, k)
    {
      FifoNeighbours(g, [], queue, k);
    }
    forall i, j | 0 <= i < j < |f|
      ensures f[i] in g && f[j] in g && ReadyBefore(g, f, f[i], f[j])
    {
      NeighboursSuffice(g, f, i, j);
    }
  }

  // ----- There is only one such order

  lemma PrefixAvoids(g: Deps, a: seq<Id>, t: seq<Id>)
    requires IsTopo(g, t) && |a| < |t| && t[..|a|] == a
    ensures t[|a|] in g && t[|a|] !in a && DepsIn(g, Elems(a), t[|a|])
  {
    assert {} + Elems(t[..|a|]) == Elems(a);
    assert DepsIn(g, {} + Elems(t[..|a|]), t[|a|]);
    forall k | 0 <= k < |a|
      ensures a[k] != t[|a|]
    {
      assert t[k] != t[|a|];
    }
  }

  /** What is not in a prefix stands behind it. */
  lemma PositionAfter(t: seq<Id>, n: nat, y: Id) returns (j: nat)
    requires n <= |t| && y in t && y !in t[..n]
    ensures n <= j < |t| && t[j] == y
  {
    assert t == t[..n] + t[n..];
    var k :| 0 <= k < |t[n..]| && t[n..][k] == y;
    j := n + k;
  }

  /** In an order that goes on from `a` with `x`, nothing later has become ready before `x`. */
  lemma NextIsFirstReady(g: Deps, a: seq<Id>, t: seq<Id>, y: Id)
    requires IsQueueOrder(g, t) && |a| < |t| && t[..|a|] == a
    requires y in g && y !in a && y != t[|a|] && DepsIn(g, Elems(a), y)
    ensures t[|a|] in g && DepsIn(g, Elems(a), t[|a|]) && ReadyBefore(g, a, t[|a|], y)
  {
    var x, b := t[|a|], t[|a|..];
    PrefixAvoids(g, a, t);
    assert y in Elems(t);
    var j := PositionAfter(t, |a|, y);
    assert ReadyBefore(g, t, t[|a|], t[j]);
    assert t == a + b;
    DisjointParts(a, b);
    ReadyBeforeStays(g, a, b, x, y);
  }

  lemma NotBothBefore(g: Deps, t: seq<Id>, x: Id, y: Id)
    requires x in g && y in g && ReadyBefore(g, t, x, y)
    ensures !ReadyBefore(g, t, y, x)
  {
    LessAsymmetric(x, y);
  }

  lemma {:induction false} SamePrefixes(g: Deps, s: seq<Id>, t: seq<Id>, n: nat)
    requires IsQueueOrder(g, s) && IsQueueOrder(g, t) && n <= |s| && n <= |t|
    ensures s[..n] == t[..n]
  {
    if n > 0 {
      SamePrefixes(g, s, t, n - 1);
      SameNext(g, s[..n - 1], s, t);
      SnocPrefix(s, n - 1);
      SnocPrefix(t, n - 1);
    }
  }

  lemma SnocPrefix(s: seq<Id>, n: nat)
    requires n < |s|
    ensures s[..n + 1] == s[..n] + [s[n]]
  {
  }

  lemma SameNext(g: Deps, a: seq<Id>, s: seq<Id>, t: seq<Id>)
    requires IsQueueOrder(g, s) && IsQueueOrder(g, t)
    requires |a| < |s| && |a| < |t| && s[..|a|] == a && t[..|a|] == a
    ensures s[|a|] == t[|a|]
  {
    PrefixAvoids(g, a, s);
    PrefixAvoids(g, a, t);
    if s[|a|] != t[|a|] {
      NextIsFirstReady(g, a, s, t[|a|]);
      NextIsFirstReady(g, a, t, s[|a|]);
      NotBothBefore(g, a, s[|a|], t[|a|]);
    }
  }

  lemma OnlyQueueOrder(g: Deps, s: seq<Id>, t: seq<Id>)
    requires IsQueueOrder(g, s) && IsQueueOrder(g, t)
    ensures s == t
  {
    NoDupCard(s);
    NoDupCard(t);
    assert |s| == |t|;
    SamePrefixes(g, s, t, |s|);
    assert s[..|s|] == s && t[..|t|] == t;
  }

  /** Exactly the acyclic graphs have an order by readiness, only one, and it is the one the queue takes. */
  lemma QueueOrderIff(g: Deps, t: seq<Id>)
    requires Closed(g)
    ensures IsQueueOrder(g, t) <==> Acyclic(g) && t == FifoOrder(g)
  {
    FifoIsTopo(g);
    FifoByReadiness(g);
    if IsQueueOrder(g, t) {
      TopoMeansAcyclic(g, t);
      OnlyQueueOrder(g, t, FifoOrder(g));
    }
  }
}
