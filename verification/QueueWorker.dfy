/** The queue worker: an event goes through the evolution loop unless it was processed recently. */
module QueueWorker {
  import opened Ids
  import opened StabilityGates
  import opened EvolutionLoop
  import AntiCollapse

  const CLEANUP_THRESHOLD: nat := 1000
  const MAX_RETENTION: nat := 500

  datatype QueueEvent = QueueEvent(id: string, candidate: int, current: int, weight: real)

  /** An event together with the success of the store's write, should it come to that. */
  datatype Input = Input(e: QueueEvent, storeOk: bool)

  /** The worker as a value: the loop, the remembered identifiers in order, the count since the last cleanup. */
  datatype State = State(loop: Loop, ord: seq<string>, cnt: nat)

  function CallOf(i: Input): Call {
    Call(i.e.candidate, i.e.current, i.e.weight, i.storeOk)
  }

  /** Processing succeeds when the loop neither rolls back nor fails to store. */
  predicate Succeeds(s: State, i: Input) {
    i.e.id !in s.ord && !RollsBack(s.loop, CallOf(i)) && i.storeOk
  }

  function KeepNewest(ord: seq<string>): seq<string> {
    if |ord| <= MAX_RETENTION then ord else ord[|ord| - MAX_RETENTION..]
  }

  function Remember(s: State, id: string): State {
    var ord, cnt := s.ord + [id], s.cnt + 1;
    if cnt >= CLEANUP_THRESHOLD then s.(ord := KeepNewest(ord), cnt := 0) else s.(ord := ord, cnt := cnt)
  }

  function Handle(s: State, i: Input): State {
    if i.e.id in s.ord then s
    else
      var moved := s.(loop := Evolved(s.loop, CallOf(i)));
      if Succeeds(s, i) then Remember(moved, i.e.id) else moved
  }

  function HandleAll(s: State, inputs: seq<Input>): State {
    if inputs == [] then s else Handle(HandleAll(s, inputs[..|inputs| - 1]), inputs[|inputs| - 1])
  }

  class Worker {
    const loop: SafeEvolutionLoop
    var processed: map<string, bool>
    var processedOrd: seq<string>
    var processedCnt: nat

    /** The list is free of repetition and lists exactly the keys of the map, all of them set. */
    ghost predicate Valid()
      reads this
    {
      NoDup(processedOrd) && processed.Keys == Elems(processedOrd) && forall id :: id in processed ==> processed[id]
    }

    ghost function Value(): State
      reads this, loop, loop.gate, loop.gate.detector, loop.detector
    {
      State(loop.Value(), processedOrd, processedCnt)
    }

    constructor (loop: SafeEvolutionLoop)
      ensures Valid() && this.loop == loop && processedOrd == [] && processedCnt == 0
    {
      this.loop := loop;
      processed, processedOrd, processedCnt := map[], [], 0;
    }

    /** The events of one read of the queue, in order. */
    method ProcessEvents(inputs: seq<Input>, sqrt: Root)
      requires Valid()
      modifies this`processed, this`processedOrd, this`processedCnt
      modifies loop`sequence, loop`store, loop.gate`longWindow, loop.gate.detector`window, loop.detector`window
      ensures Valid() && loop.gate.detector == old(loop.gate.detector)
      ensures Value() == HandleAll(old(Value()), inputs)
    {
      for k := 0 to |inputs|
        invariant Valid() && loop.gate.detector == old(loop.gate.detector)
        invariant Value() == HandleAll(old(Value()), inputs[..k])
      {
        assert inputs[..k + 1][..k] == inputs[..k];
        ProcessOne(inputs[k], sqrt);
      }
      assert inputs[..|inputs|] == inputs;
    }

    method ProcessOne(i: Input, sqrt: Root)
      requires Valid()
      modifies this`processed, this`processedOrd, this`processedCnt
      modifies loop`sequence, loop`store, loop.gate`longWindow, loop.gate.detector`window, loop.detector`window
      ensures Valid() && loop.gate.detector == old(loop.gate.detector)
      ensures Value() == Handle(old(Value()), i)
    {
      assert i.e.id in processed <==> i.e.id in processedOrd;
      if i.e.id in processed && processed[i.e.id] {
        return;
      }
      var outcome := loop.Evolve(CallOf(i), sqrt);
      if outcome.RolledBack? || outcome.StoreFailed? {
        return;
      }
      Record(i.e.id);
    }

    method Record(id: string)
      requires Valid() && id !in processedOrd
      modifies this`processed, this`processedOrd, this`processedCnt
      ensures Valid()
      ensures var s := Remember(State(loop.Value(), old(processedOrd), old(processedCnt)), id);
              processedOrd == s.ord && processedCnt == s.cnt
    {
      processed := processed[id := true];
      processedOrd := processedOrd + [id];
      processedCnt := processedCnt + 1;
      if processedCnt >= CLEANUP_THRESHOLD {
        CleanupProcessed();
        processedCnt := 0;
      }
    }

    method CleanupProcessed()
      requires Valid()
      modifies this`processed, this`processedOrd
      ensures Valid() && processedOrd == KeepNewest(old(processedOrd))
    {
      if |processedOrd| <= MAX_RETENTION {
        return;
      }
      var toRemove := processedOrd[..|processedOrd| - MAX_RETENTION];
      ghost var before := processed;
      for k := 0 to |toRemove|
        invariant processed == before - Elems(toRemove[..k]) && processedOrd == old(processedOrd)
      {
        assert toRemove[..k + 1] == toRemove[..k] + [toRemove[k]];
        assert Elems(toRemove[..k + 1]) == Elems(toRemove[..k]) + {toRemove[k]};
        processed := processed - {toRemove[k]};
      }
      assert toRemove[..|toRemove|] == toRemove;
      DropPrefix(processedOrd, |toRemove|);
      processedOrd := processedOrd[|toRemove|..];
    }
  }

  lemma DropPrefix(s: seq<string>, k: nat)
    requires NoDup(s) && k <= |s|
    ensures NoDup(s[k..]) && Elems(s[k..]) == Elems(s) - Elems(s[..k])
  {
    assert s == s[..k] + s[k..];
    forall x | x in s[k..]
      ensures x !in s[..k]
    {
      var j :| 0 <= j < |s[k..]| && s[k..][j] == x;
      assert s[k + j] == x;
    }
  }

  /** A success stores the event's own scores and weight; whatever the outcome, a known event moves nothing. */
  lemma SuccessIsStored(s: State, i: Input)
    ensures Succeeds(s, i) ==>
              && |Handle(s, i).loop.store| == |s.loop.store| + 1 && Handle(s, i).loop.store[..|s.loop.store|] == s.loop.store
              && var e := Handle(s, i).loop.store[|s.loop.store|];
                 e.candidateScore == i.e.candidate && e.currentScore == i.e.current && e.weight == i.e.weight
    ensures !Succeeds(s, i) ==> Handle(s, i).loop.store == s.loop.store && Handle(s, i).ord == s.ord
    ensures i.e.id in s.ord ==> Handle(s, i) == s
  {
    if Succeeds(s, i) {
      var e := StoredEvent(s.loop, CallOf(i));
    }
  }

  // ----- Whole runs

  /** The identifiers of the successful processings of a run, in order. */
  function Successes(s: State, inputs: seq<Input>): seq<string> {
    if inputs == [] then []
    else
      var front, i := inputs[..|inputs| - 1], inputs[|inputs| - 1];
      Successes(s, front) + (if Succeeds(HandleAll(s, front), i) then [i.e.id] else [])
  }

  /** `ord` is the newest part of the successes, at least 500 of them once there are that many. */
  ghost predicate RemembersNewest(ord: seq<string>, done: seq<string>) {
    && |ord| <= |done| && ord == done[|done| - |ord|..]
    && (|ord| >= 500 || |ord| == |done|)
  }

  /** Equal identifiers have at least 500 other successes between them. */
  ghost predicate FarApart(done: seq<string>) {
    forall i, j :: 0 <= i < j < |done| && done[i] == done[j] ==> j - i - 1 >= 500
  }

  lemma OutsideIsOld(ord: seq<string>, done: seq<string>, id: string, i: nat)
    requires RemembersNewest(ord, done) && id !in ord && i < |done| && done[i] == id
    ensures i < |done| - |ord|
  {
    var start := |done| - |ord|;
    assert forall j :: start <= j < |done| ==> done[j] == ord[j - start];
  }

  lemma FarApartAppend(ord: seq<string>, done: seq<string>, id: string)
    requires RemembersNewest(ord, done) && FarApart(done) && id !in ord
    ensures FarApart(done + [id])
  {
    forall i | 0 <= i < |done| && done[i] == id
      ensures |done| - i - 1 >= 500
    {
      OutsideIsOld(ord, done, id, i);
    }
  }

  lemma RemembersAppend(ord: seq<string>, done: seq<string>, id: string)
    requires RemembersNewest(ord, done)
    ensures RemembersNewest(ord + [id], done + [id]) && RemembersNewest(KeepNewest(ord + [id]), done + [id])
  {
  }

  ghost predicate WindowInv(s: State, done: seq<string>) {
    && RemembersNewest(s.ord, done) && FarApart(done) && NoDup(s.ord)
    && HasSize(|s.ord|, s.cnt, |done|)
  }

  /** The list's length and the count after `n` successes. */
  predicate HasSize(len: nat, cnt: nat, n: nat) {
    cnt == n % 1000 && len == if n < 1000 then n else 500 + n % 1000
  }

  lemma SizeNext(len: nat, cnt: nat, n: nat)
    requires HasSize(len, cnt, n)
    ensures cnt + 1 < 1000 ==> HasSize(len + 1, cnt + 1, n + 1)
    ensures cnt + 1 >= 1000 ==> HasSize(500, 0, n + 1) && len >= 500
  {
  }

  lemma KeptSize(ord: seq<string>)
    ensures |ord| >= MAX_RETENTION ==> |KeepNewest(ord)| == 500
    ensures NoDup(ord) ==> NoDup(KeepNewest(ord))
  {
  }

  lemma SnocNoDup(ord: seq<string>, id: string)
    requires NoDup(ord) && id !in ord
    ensures NoDup(ord + [id])
  {
  }

  lemma RememberKeeps(s: State, done: seq<string>, id: string)
    requires WindowInv(s, done) && id !in s.ord
    ensures WindowInv(Remember(s, id), done + [id])
  {
    FarApartAppend(s.ord, done, id);
    RemembersAppend(s.ord, done, id);
    SnocNoDup(s.ord, id);
    KeptSize(s.ord + [id]);
    SizeNext(|s.ord|, s.cnt, |done|);
  }

  /**
   The dedup window of every run from an empty worker: the list has no repetition and holds the
   newest successes, all of the first 999 and from then on 500 and those since the last multiple
   of a thousand; so it never exceeds 1500 entries, not even before a cleanup, and two successful
   processings of one identifier have at least 500 other successes between them.
   */
  lemma {:induction false} DedupWindow(loop: Loop, inputs: seq<Input>)
    ensures var s := HandleAll(State(loop, [], 0), inputs);
            var done := Successes(State(loop, [], 0), inputs);
            WindowInv(s, done) && |s.ord| + 1 <= 1500
  {
    if inputs != [] {
      var front, i := inputs[..|inputs| - 1], inputs[|inputs| - 1];
      DedupWindow(loop, front);
      var s, done := HandleAll(State(loop, [], 0), front), Successes(State(loop, [], 0), front);
      if Succeeds(s, i) {
        RememberKeeps(s.(loop := Evolved(s.loop, CallOf(i))), done, i.e.id);
      } else {
        assert done + [] == done;
      }
    }
  }
}
