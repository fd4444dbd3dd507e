/**
 The goroutines that run one batch, as a state machine. Any enabled step may be taken next;
 what is proved holds for every interleaving.
 */
module Workers {
  import opened Ids
  import opened Wrappers

  /** Program points of one worker, named after the action just performed. */
  datatype Pc =
    | Unspawned   // main has not reached this node's `go` statement
    | Spawned     // wg.Add(1), go
    | Acquired    // sem <- struct{}{}
    | Computed    // events := executeNode(n)
    | Locked      // resMu.Lock()
    | Stored      // results[n.ID] = events
    | Unlocked    // resMu.Unlock()
    | Released    // deferred <-sem
    | Finished    // deferred wg.Done()

  datatype State<E> = State(pcs: seq<Pc>, sem: int, owner: Option<nat>, wg: int, results: map<Id, E>)

  ghost function Start<E>(n: nat): State<E> {
    State(seq(n, _ => Unspawned), 0, None, 0, map[])
  }

  predicate Enabled<E>(s: State<E>, m: int, i: nat)
    requires i < |s.pcs|
  {
    match s.pcs[i]
    case Unspawned => i == 0 || s.pcs[i - 1] != Unspawned
    case Spawned => s.sem < m
    case Computed => s.owner == None
    case Finished => false
    case _ => true
  }

  function Next<E>(s: State<E>, batch: seq<Id>, f: Id -> E, i: nat): State<E>
    requires i < |s.pcs| == |batch|
  {
    match s.pcs[i]
    case Unspawned => s.(pcs := s.pcs[i := Spawned], wg := s.wg + 1)
    case Spawned => s.(pcs := s.pcs[i := Acquired], sem := s.sem + 1)
    case Acquired => s.(pcs := s.pcs[i := Computed])
    case Computed => s.(pcs := s.pcs[i := Locked], owner := Some(i))
    case Locked => s.(pcs := s.pcs[i := Stored], results := s.results[batch[i] := f(batch[i])])
    case Stored => s.(pcs := s.pcs[i := Unlocked], owner := None)
    case Unlocked => s.(pcs := s.pcs[i := Released], sem := s.sem - 1)
    case Released => s.(pcs := s.pcs[i := Finished], wg := s.wg - 1)
    case Finished => s
  }

  // ----- Sums over the workers

  function HoldsSlot(p: Pc): nat {
    match p
    case Unspawned | Spawned | Released | Finished => 0
    case _ => 1
  }

  function Waited(p: Pc): nat {
    if p == Unspawned || p == Finished then 0 else 1
  }

  function StepsLeft(p: Pc): nat {
    match p
    case Unspawned => 8 case Spawned => 7 case Acquired => 6 case Computed => 5 case Locked => 4
    case Stored => 3 case Unlocked => 2 case Released => 1 case Finished => 0
  }

  function Sum(pcs: seq<Pc>, w: Pc -> nat): nat {
    if pcs == [] then 0 else Sum(pcs[1..], w) + w(pcs[0])
  }

  lemma {:induction false} SumUpdate(pcs: seq<Pc>, w: Pc -> nat, i: nat, p: Pc)
    requires i < |pcs|
    ensures Sum(pcs[i := p], w) == Sum(pcs, w) - w(pcs[i]) + w(p)
  {
    if i == 0 {
      assert pcs[0 := p][1..] == pcs[1..];
    } else {
      assert pcs[i := p][1..] == pcs[1..][i - 1 := p];
      SumUpdate(pcs[1..], w, i - 1, p);
    }
  }

  lemma {:induction false} SumZero(pcs: seq<Pc>, w: Pc -> nat)
    ensures Sum(pcs, w) == 0 <==> forall i :: 0 <= i < |pcs| ==> w(pcs[i]) == 0
  {
    if pcs != [] {
      SumZero(pcs[1..], w);
      if forall i :: 0 <= i < |pcs[1..]| ==> w(pcs[1..][i]) == 0 {
        assert forall i :: 1 <= i < |pcs| ==> pcs[i] == pcs[1..][i - 1];
      } else {
        var i :| 0 <= i < |pcs[1..]| && w(pcs[1..][i]) != 0;
        assert pcs[i + 1] == pcs[1..][i];
      }
    }
  }

  lemma {:induction false} SumConstant(pcs: seq<Pc>, w: Pc -> nat, p: Pc)
    requires forall i :: 0 <= i < |pcs| ==> pcs[i] == p
    ensures Sum(pcs, w) == |pcs| * w(p)
  {
    if pcs != [] {
      SumConstant(pcs[1..], w, p);
      assert (|pcs[1..]| + 1) * w(p) == |pcs[1..]| * w(p) + w(p);
    }
  }

  // ----- What every step keeps

  predicate HasStored(p: Pc) {
    p == Stored || p == Unlocked || p == Released || p == Finished
  }

  ghost predicate CountsOk<E>(s: State<E>, m: int) {
    s.sem == Sum(s.pcs, HoldsSlot) <= m && s.wg == Sum(s.pcs, Waited)
  }

  ghost predicate LockOk<E>(s: State<E>) {
    && (forall i :: 0 <= i < |s.pcs| ==> (s.pcs[i] == Locked || s.pcs[i] == Stored <==> s.owner == Some(i)))
    && (s.owner.Some? ==> s.owner.value < |s.pcs|)
  }

  ghost predicate ResultsOk<E(!new)>(s: State<E>, batch: seq<Id>, f: Id -> E)
    requires |s.pcs| == |batch|
  {
    && (forall i :: 0 <= i < |batch| ==> (HasStored(s.pcs[i]) <==> batch[i] in s.results))
    && (forall x :: x in s.results ==> x in batch && s.results[x] == f(x))
  }

  ghost predicate Inv<E(!new)>(s: State<E>, m: int, batch: seq<Id>, f: Id -> E) {
    |s.pcs| == |batch| && CountsOk(s, m) && LockOk(s) && ResultsOk(s, batch, f)
  }

  lemma StartInv<E(!new)>(m: int, batch: seq<Id>, f: Id -> E)
    requires m >= 0
    ensures Inv(Start<E>(|batch|), m, batch, f)
    ensures Sum(Start<E>(|batch|).pcs, StepsLeft) == 8 * |batch|
  {
    var pcs := Start<E>(|batch|).pcs;
    SumConstant(pcs, HoldsSlot, Unspawned);
    SumConstant(pcs, Waited, Unspawned);
    SumConstant(pcs, StepsLeft, Unspawned);
  }

  lemma StepInv<E(!new)>(s: State<E>, m: int, batch: seq<Id>, f: Id -> E, i: nat)
    requires Inv(s, m, batch, f) && NoDup(batch) && i < |batch| && Enabled(s, m, i)
    ensures Inv(Next(s, batch, f, i), m, batch, f)
    ensures Sum(Next(s, batch, f, i).pcs, StepsLeft) == Sum(s.pcs, StepsLeft) - 1
  {
    StepCounts(s, m, batch, f, i);
    StepLock(s, m, batch, f, i);
    StepResults(s, m, batch, f, i);
  }

  lemma StepCounts<E>(s: State<E>, m: int, batch: seq<Id>, f: Id -> E, i: nat)
    requires i < |batch| == |s.pcs| && CountsOk(s, m) && Enabled(s, m, i)
    ensures CountsOk(Next(s, batch, f, i), m)
    ensures Sum(Next(s, batch, f, i).pcs, StepsLeft) == Sum(s.pcs, StepsLeft) - 1
  {
    var p := Next(s, batch, f, i).pcs[i];
    SumUpdate(s.pcs, HoldsSlot, i, p);
    SumUpdate(s.pcs, Waited, i, p);
    SumUpdate(s.pcs, StepsLeft, i, p);
  }

  lemma StepLock<E>(s: State<E>, m: int, batch: seq<Id>, f: Id -> E, i: nat)
    requires i < |batch| == |s.pcs| && LockOk(s) && Enabled(s, m, i)
    ensures LockOk(Next(s, batch, f, i))
  {
  }

  lemma StepResults<E(!new)>(s: State<E>, m: int, batch: seq<Id>, f: Id -> E, i: nat)
    requires i < |batch| == |s.pcs| && NoDup(batch) && ResultsOk(s, batch, f) && Enabled(s, m, i)
    ensures ResultsOk(Next(s, batch, f, i), batch, f)
  {
    var t := Next(s, batch, f, i);
    forall j | 0 <= j < |batch|
      ensures HasStored(t.pcs[j]) <==> batch[j] in t.results
    {
      assert j != i ==> t.pcs[j] == s.pcs[j] && batch[j] != batch[i];
    }
  }

  /** No deadlock: until every worker has finished, some step is enabled. */
  lemma Progress<E(!new)>(s: State<E>, m: int, batch: seq<Id>, f: Id -> E)
    requires Inv(s, m, batch, f) && m >= 1
    ensures (exists i :: 0 <= i < |batch| && Enabled(s, m, i)) <==> s.pcs != seq(|batch|, _ => Finished)
  {
    if s.pcs != seq(|batch|, _ => Finished) {
      var k :| 0 <= k < |batch| && s.pcs[k] != Finished;
      if s.owner.Some? {
        assert Enabled(s, m, s.owner.value);
      } else if s.pcs[k] == Unspawned {
        var j := FirstUnspawned(s.pcs, k);
        assert Enabled(s, m, j);
      } else if s.pcs[k] == Spawned && s.sem == m {
        SumZero(s.pcs, HoldsSlot);
        var j :| 0 <= j < |s.pcs| && HoldsSlot(s.pcs[j]) != 0;
        assert Enabled(s, m, j);
      } else {
        assert Enabled(s, m, k);
      }
    }
  }

  lemma {:induction false} FirstUnspawned(pcs: seq<Pc>, k: nat) returns (j: nat)
    requires k < |pcs| && pcs[k] == Unspawned
    ensures j <= k && pcs[j] == Unspawned && (j == 0 || pcs[j - 1] != Unspawned)
  {
    if k == 0 || pcs[k - 1] != Unspawned {
      j := k;
    } else {
      j := FirstUnspawned(pcs, k - 1);
    }
  }

  /** wg.Wait() returns, with every worker spawned, exactly when all are finished; then all results are there. */
  lemma WaitReturns<E(!new)>(s: State<E>, m: int, batch: seq<Id>, f: Id -> E)
    requires Inv(s, m, batch, f) && forall i :: 0 <= i < |batch| ==> s.pcs[i] != Unspawned
    ensures s.wg == 0 <==> s.pcs == seq(|batch|, _ => Finished)
    ensures s.wg == 0 ==> s.results == map x | x in batch :: f(x)
  {
    SumZero(s.pcs, Waited);
    if s.wg == 0 {
      assert forall i :: 0 <= i < |batch| ==> Waited(s.pcs[i]) == 0;
      assert forall i :: 0 <= i < |batch| ==> batch[i] in s.results;
    }
  }

  // ----- Whole runs

  /** `picks[k]` is the worker that moves from `run[k]` to `run[k + 1]`. */
  ghost predicate IsRun<E(!new)>(run: seq<State<E>>, picks: seq<nat>, m: int, batch: seq<Id>, f: Id -> E) {
    && |run| == |picks| + 1
    && run[0] == Start(|batch|)
    && (forall k :: 0 <= k < |run| ==> |run[k].pcs| == |batch|)
    && (forall k :: 0 <= k < |picks| ==>
          picks[k] < |batch| && Enabled(run[k], m, picks[k]) && run[k + 1] == Next(run[k], batch, f, picks[k]))
  }

  lemma {:induction false} RunKeeps<E(!new)>(run: seq<State<E>>, picks: seq<nat>, m: int, batch: seq<Id>, f: Id -> E, k: nat)
    requires IsRun(run, picks, m, batch, f) && NoDup(batch) && m >= 0 && k <= |picks|
    ensures Inv(run[k], m, batch, f)
    ensures Sum(run[k].pcs, StepsLeft) == 8 * |batch| - k
  {
    if k == 0 {
      StartInv(m, batch, f);
    } else {
      RunKeeps(run, picks, m, batch, f, k - 1);
      StepInv(run[k - 1], m, batch, f, picks[k - 1]);
    }
  }

  ghost predicate AtMostOneInLock(pcs: seq<Pc>) {
    forall i, j :: 0 <= i < |pcs| && 0 <= j < |pcs| && InLock(pcs[i]) && InLock(pcs[j]) ==> i == j
  }

  predicate InLock(p: Pc) {
    p == Locked || p == Stored
  }

  /**
   Confluence of one batch. In every interleaving at most `m` workers hold a semaphore slot and
   at most one holds the lock; a run that cannot continue has taken exactly eight steps per
   worker, has passed wg.Wait, and has stored for every node what its execution produced.
   */
  lemma EveryInterleaving<E(!new)>(run: seq<State<E>>, picks: seq<nat>, m: int, batch: seq<Id>, f: Id -> E)
    requires IsRun(run, picks, m, batch, f) && NoDup(batch) && m >= 1
    ensures forall k :: 0 <= k < |run| ==> Sum(run[k].pcs, HoldsSlot) <= m && AtMostOneInLock(run[k].pcs)
    ensures |picks| <= 8 * |batch|
    ensures var last := run[|picks|];
            (forall i :: 0 <= i < |batch| ==> !Enabled(last, m, i)) ==>
              && |picks| == 8 * |batch| && last.wg == 0 && last.sem == 0 && last.owner == None
              && last.results == map x | x in batch :: f(x)
  {
    forall k | 0 <= k < |run|
      ensures Sum(run[k].pcs, HoldsSlot) <= m && AtMostOneInLock(run[k].pcs)
    {
      RunKeeps(run, picks, m, batch, f, k);
    }
    var last := run[|picks|];
    RunKeeps(run, picks, m, batch, f, |picks|);
    if forall i :: 0 <= i < |batch| ==> !Enabled(last, m, i) {
      Progress(last, m, batch, f);
      WaitReturns(last, m, batch, f);
      SumConstant(last.pcs, StepsLeft, Finished);
      SumConstant(last.pcs, HoldsSlot, Finished);
    }
  }

  /** Runs a batch under an arbitrary scheduler: whichever enabled worker it picks, the result is the same. */
  method RunBatch<E(!new)>(batch: seq<Id>, m: int, f: Id -> E) returns (results: map<Id, E>)
    requires NoDup(batch) && m >= 1
    ensures results == map x | x in batch :: f(x)
  {
    var s: State<E> := State(seq(|batch|, _ => Unspawned), 0, None, 0, map[]);
    StartInv(m, batch, f);
    while exists i :: 0 <= i < |batch| && Enabled(s, m, i)
      invariant Inv(s, m, batch, f)
      decreases Sum(s.pcs, StepsLeft)
    {
      var i :| 0 <= i < |batch| && Enabled(s, m, i);
      StepInv(s, m, batch, f, i);
      s := Next(s, batch, f, i);
    }
    Progress(s, m, batch, f);
    SumConstant(s.pcs, Waited, Finished);
    WaitReturns(s, m, batch, f);
    results := s.results;
  }
}
