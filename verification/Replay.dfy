/** Rebuilding the system state from the event store, and when it agrees with the live loop. */
module ReplayEngines {
  import opened AntiCollapse
  import opened StabilityGates
  import opened EvolutionLoop

  datatype SystemState = SystemState(banditSeed: int, gate: GateState, detectorWindow: seq<real>, mode: Mode,
                                     sequence: int, stabilityScore: real)

  /** The rebuilt state with the replay's own detector window and gate. */
  datatype Replayed = Replayed(state: SystemState, window: seq<real>, gate: Gate)

  const DEFAULT_GATE := Gate(0.5, 10.0, 2.0, 10, [], [], 5, 10.0)

  const START_REPLAY := Replayed(SystemState(0, GateState([], [], 0.5, 10.0, 2.0, 10), [], StableMode, 0, 0.0), [], DEFAULT_GATE)

  /** The gate after an event; an event that carries gate data replaces the gate's whole state. */
  function ReplayGate(r: Replayed, ev: Event): Gate {
    var window := Push(r.window, 5, ev.candidateScore as real);
    var g := r.gate.(longWindow := Push(r.gate.longWindow, r.gate.maxWindow, ev.candidateScore as real));
    if ev.gateVariance > 0.0 || ev.gateThreshold > 0.0 then Imported(GateState(g.longWindow, window, ev.gateThreshold, 10.0, 2.0, 10))
    else g
  }

  function ReplayEvent(r: Replayed, ev: Event): Replayed {
    var window := Push(r.window, 5, ev.candidateScore as real);
    var g := ReplayGate(r, ev);
    Replayed(SystemState(ev.banditSeed, Exported(g), window, ev.mode, ev.sequence,
                         if window == [] then r.state.stabilityScore else Mean(window)), window, g)
  }

  function Replay(events: seq<Event>): Replayed {
    if events == [] then START_REPLAY else ReplayEvent(Replay(events[..|events| - 1]), events[|events| - 1])
  }

  /** One event of the log: the detector, the gate and the state move on. */
  method ApplyEvent(state: SystemState, detector: AntiCollapseDetector, gate: StabilityGate, ev: Event) returns (next: SystemState)
    requires detector != gate.detector && detector.size == 5
    modifies detector`window, gate
    ensures Replayed(next, detector.window, gate.Value()) == ReplayEvent(Replayed(state, old(detector.window), old(gate.Value())), ev)
    ensures gate.detector == old(gate.detector) || fresh(gate.detector)
  {
    detector.Add(ev.candidateScore as real);
    gate.longWindow := gate.longWindow + [ev.candidateScore as real];
    if |gate.longWindow| > gate.maxWindow {
      gate.longWindow := gate.longWindow[1..];
    }
    if ev.gateVariance > 0.0 || ev.gateThreshold > 0.0 {
      gate.ImportState(GateState(gate.longWindow, detector.window, ev.gateThreshold, 10.0, 2.0, 10));
    }
    var exported := gate.ExportState();
    var stability := state.stabilityScore;
    if |detector.window| > 0 {
      stability := detector.ComputeMean();
    }
    next := SystemState(ev.banditSeed, exported, detector.window, ev.mode, ev.sequence, stability);
  }

  method Rebuild(events: seq<Event>) returns (state: SystemState)
    ensures state == Replay(events).state
  {
    state := START_REPLAY.state;
    var detector := new AntiCollapseDetector(5, 10.0);
    var gate := new StabilityGate.Default();
    for i := 0 to |events|
      invariant fresh(detector) && fresh(gate) && fresh(gate.detector) && detector != gate.detector
      invariant detector.size == 5
      invariant Replayed(state, detector.window, gate.Value()) == Replay(events[..i])
    {
      assert events[..i + 1][..i] == events[..i];
      state := ApplyEvent(state, detector, gate, events[i]);
    }
    assert events[..|events|] == events;
  }

  // ----- What is rebuilt from any log

  predicate CarriesGate(ev: Event) {
    ev.gateVariance > 0.0 || ev.gateThreshold > 0.0
  }

  /** The position of the last event that carries gate data, or -1. */
  function LastGateEvent(events: seq<Event>): (k: int)
    ensures -1 <= k < |events| && (k >= 0 ==> CarriesGate(events[k]))
    ensures forall i :: k < i < |events| ==> !CarriesGate(events[i])
  {
    if events == [] then -1
    else if CarriesGate(events[|events| - 1]) then |events| - 1
    else LastGateEvent(events[..|events| - 1])
  }

  /** The gate's threshold is that of the last event with gate data, its detector window the one of that moment. */
  ghost predicate GateRebuilt(g: Gate, events: seq<Event>) {
    var k := LastGateEvent(events);
    && g.varianceThreshold == g.detectorThreshold == 10.0 && g.adaptiveFactor == 2.0 && g.maxWindow == 10
    && g.longWindow == PushAll([], 10, Candidates(events))
    && g.threshold == (if k < 0 then 0.5 else events[k].gateThreshold)
    && g.window == (if k < 0 then [] else PushAll([], 5, Candidates(events[..k + 1])))
    && g.size == if k < 0 then 5 else 10
  }

  lemma CandidatesNext(events: seq<Event>)
    requires events != []
    ensures var n := |events| - 1;
            Candidates(events)[..n] == Candidates(events[..n]) && Candidates(events)[n] == events[n].candidateScore as real
  {
  }

  lemma GateNext(r: Replayed, events: seq<Event>)
    requires events != []
    requires GateRebuilt(r.gate, events[..|events| - 1]) && r.window == PushAll([], 5, Candidates(events[..|events| - 1]))
    ensures GateRebuilt(ReplayGate(r, events[|events| - 1]), events)
  {
    var n := |events| - 1;
    CandidatesNext(events);
    assert events[..n + 1] == events;
    assert LastGateEvent(events) < n ==> events[..n][..LastGateEvent(events) + 1] == events[..LastGateEvent(events) + 1];
  }

  /**
   The state rebuilt from any log, gate data or not: windows of the raw candidates, the gate as
   the last event with gate data left it, the stability score of the window, and mode, sequence
   and seed of the last event.
   */
  lemma {:induction false} RebuiltState(events: seq<Event>)
    ensures var r := Replay(events);
            && r.window == r.state.detectorWindow == PushAll([], 5, Candidates(events))
            && GateRebuilt(r.gate, events) && r.state.gate == Exported(r.gate)
            && r.state.stabilityScore == Mean(r.window)
            && (events != [] ==> var last := events[|events| - 1];
                  r.state.sequence == last.sequence && r.state.mode == last.mode && r.state.banditSeed == last.banditSeed)
  {
    if events != [] {
      var n := |events| - 1;
      RebuiltState(events[..n]);
      CandidatesNext(events);
      GateNext(Replay(events[..n]), events);
    }
  }

  /** Events as the loop stores them carry no gate data: the replayed windows hold raw candidates. */
  lemma ReplayWindows(events: seq<Event>)
    requires forall i :: 0 <= i < |events| ==> events[i].gateVariance == 0.0 && events[i].gateThreshold == 0.0
    ensures var r := Replay(events);
            && r.window == PushAll([], 5, Candidates(events)) && r.state.detectorWindow == r.window
            && r.gate == DEFAULT_GATE.(longWindow := PushAll([], 10, Candidates(events)))
            && r.state.stabilityScore == Mean(r.window) && r.state.gate == Exported(r.gate)
            && (events != [] ==> r.state.sequence == events[|events| - 1].sequence && r.state.mode == events[|events| - 1].mode)
  {
    RebuiltState(events);
  }

  // ----- Sequence and mode

  function LastSequence(events: seq<Event>): int {
    if events == [] then 0 else events[|events| - 1].sequence
  }

  datatype Write = NoWrite | WriteOk | WriteFailed

  /** What each call of the run did to the store: a rolled-back call does not get that far. */
  ghost function Writes(l: Loop, calls: seq<Call>): seq<Write> {
    if calls == [] then []
    else
      var n := |calls| - 1;
      Writes(l, calls[..n]) + [if RollsBack(RunLoop(l, calls[..n]), calls[n]) then NoWrite
                               else if calls[n].storeOk then WriteOk else WriteFailed]
  }

  /** Every failed write has been overtaken by a later one that succeeded. */
  predicate FailuresOvertaken(ws: seq<Write>) {
    forall k :: 0 <= k < |ws| && ws[k] == WriteFailed ==> WriteOk in ws[k..]
  }

  predicate LastWriteOk(ws: seq<Write>) {
    ws == [] || (if ws[|ws| - 1] == NoWrite then LastWriteOk(ws[..|ws| - 1]) else ws[|ws| - 1] == WriteOk)
  }

  lemma {:induction false} OvertakenIff(ws: seq<Write>)
    ensures LastWriteOk(ws) <==> FailuresOvertaken(ws)
  {
    if ws != [] {
      var n := |ws| - 1;
      var front, w := ws[..n], ws[n];
      OvertakenIff(front);
      forall k | 0 <= k < n
        ensures WriteOk in ws[k..] <==> WriteOk in front[k..] || w == WriteOk
      {
        assert ws[k..] == front[k..] + [w];
      }
      assert ws[n..] == [w];
      assert forall k :: 0 <= k < n ==> ws[k] == front[k];
    }
  }

  lemma {:induction false} SequenceIsLast(l: Loop, calls: seq<Call>)
    requires Initial(l)
    ensures var r := RunLoop(l, calls);
            LastSequence(r.store) <= r.sequence && (LastSequence(r.store) == r.sequence <==> LastWriteOk(Writes(l, calls)))
  {
    if calls != [] {
      var n := |calls| - 1;
      SequenceIsLast(l, calls[..n]);
      var ws := Writes(l, calls);
      assert ws[..|ws| - 1] == Writes(l, calls[..n]);
    }
  }

  /** The rebuilt sequence is the live one exactly when no failed write is the last word; the mode always agrees. */
  lemma SequenceAgreesIff(l: Loop, calls: seq<Call>)
    requires Initial(l)
    ensures var live, state := RunLoop(l, calls), Replay(RunLoop(l, calls).store).state;
            && (state.sequence == live.sequence <==> FailuresOvertaken(Writes(l, calls)))
            && (live.store != [] ==> state.mode == live.mode)
  {
    SequenceIsLast(l, calls);
    OvertakenIff(Writes(l, calls));
    StoredEvents(l, calls);
    ReplayWindows(RunLoop(l, calls).store);
  }

  /** In particular when all writes succeed. */
  lemma SequenceAgrees(l: Loop, calls: seq<Call>)
    requires Initial(l) && AllStored(calls)
    ensures Replay(RunLoop(l, calls).store).state.sequence == RunLoop(l, calls).sequence
  {
    SequenceAgreesIff(l, calls);
    NoneFailed(l, calls);
  }

  lemma {:induction false} NoneFailed(l: Loop, calls: seq<Call>)
    requires AllStored(calls)
    ensures WriteFailed !in Writes(l, calls)
  {
    if calls != [] {
      NoneFailed(l, calls[..|calls| - 1]);
    }
  }

  // ----- Healing

  lemma LastNOfSuffix(a: seq<real>, b: seq<real>, n: nat)
    requires |b| >= n
    ensures LastN(a + b, n) == LastN(b, n)
  {
    assert (a + b)[|a + b| - n..] == b[|b| - n..];
  }

  /** The newest scores of the run are the newest candidates of the store. */
  lemma NewestAgree(l: Loop, calls: seq<Call>, n: nat, k: nat)
    requires Initial(l) && StoredFrom(calls, k)
    requires k <= |calls| && (k == 0 || |calls| - k >= n) && KeptFrom(l, calls, k)
    requires forall i :: k <= i < |calls| ==> Faithful(calls[i])
    ensures LastN(Scores(calls), n) == LastN(Candidates(RunLoop(l, calls).store), n)
  {
    KeptCallsAreStored(l, calls, k);
    ScoresSplit(calls, k);
    var b := CallCandidates(calls[k..]);
    if k == 0 {
      assert calls[..0] == [];
      SameTail([], Candidates(l.store), b, n);
    } else {
      SameTail(Scores(calls[..k]), Candidates(RunLoop(l, calls[..k]).store), b, n);
    }
  }

  lemma ScoresSplit(calls: seq<Call>, k: nat)
    requires k <= |calls| && forall i :: k <= i < |calls| ==> Faithful(calls[i])
    ensures Scores(calls) == Scores(calls[..k]) + CallCandidates(calls[k..])
    ensures k == 0 ==> Scores(calls) == [] + CallCandidates(calls[k..])
  {
  }

  lemma SameTail(x: seq<real>, y: seq<real>, b: seq<real>, n: nat)
    requires |b| >= n || (x == [] && y == [])
    ensures LastN(x + b, n) == LastN(y + b, n)
  {
    if |b| >= n {
      LastNOfSuffix(x, b, n);
      LastNOfSuffix(y, b, n);
    }
  }

  lemma ReplayOfStore(l: Loop, calls: seq<Call>)
    requires Initial(l)
    ensures var live, r := RunLoop(l, calls), Replay(RunLoop(l, calls).store);
            && live.window == LastN(Scores(calls), 5) && r.window == LastN(Candidates(live.store), 5)
            && live.gate.longWindow == LastN(Scores(calls), 10) && r.gate.longWindow == LastN(Candidates(live.store), 10)
            && r.state.detectorWindow == r.window && r.state.stabilityScore == Mean(r.window) && r.state.gate == Exported(r.gate)
  {
    var live := RunLoop(l, calls);
    LiveWindows(l, calls);
    StoredEvents(l, calls);
    ReplayWindows(live.store);
    WindowIsNewest([], 5, Scores(calls));
    WindowIsNewest([], 10, Scores(calls));
    WindowIsNewest([], 5, Candidates(live.store));
    WindowIsNewest([], 10, Candidates(live.store));
    assert [] + Scores(calls) == Scores(calls) && [] + Candidates(live.store) == Candidates(live.store);
  }

  /** Where the last `n` calls begin. */
  function LastCalls(calls: seq<Call>, n: nat): nat {
    if |calls| >= n then |calls| - n else 0
  }

  ghost predicate LastAreGood(l: Loop, calls: seq<Call>, n: nat) {
    KeptFrom(l, calls, LastCalls(calls, n)) && StoredFrom(calls, LastCalls(calls, n))
    && forall i :: LastCalls(calls, n) <= i < |calls| ==> Faithful(calls[i])
  }

  /**
   Healing. Whatever happened before, rollbacks and failed writes included, once the last five
   calls (or all, if fewer) were faithful, kept and stored, the rebuilt detector window and stability score are the live ones; once the last ten
   were, so is the gate's long window.
   */
  lemma ReplayHeals(l: Loop, calls: seq<Call>)
    requires Initial(l)
    ensures var live, state := RunLoop(l, calls), Replay(RunLoop(l, calls).store).state;
            && (LastAreGood(l, calls, 5) ==> state.detectorWindow == live.window && state.stabilityScore == Mean(live.window))
            && (LastAreGood(l, calls, 10) ==> state.gate.longWindow == live.gate.longWindow)
  {
    ReplayOfStore(l, calls);
    if LastAreGood(l, calls, 5) {
      NewestAgree(l, calls, 5, LastCalls(calls, 5));
    }
    if LastAreGood(l, calls, 10) {
      NewestAgree(l, calls, 10, LastCalls(calls, 10));
    }
  }

  /** So it is after five, or ten, stored calls of weight one that were not rolled back. */
  lemma WeightOneHeals(l: Loop, calls: seq<Call>, n: nat)
    requires Initial(l) && KeptFrom(l, calls, LastCalls(calls, n)) && StoredFrom(calls, LastCalls(calls, n))
    requires forall i :: LastCalls(calls, n) <= i < |calls| ==> calls[i].weight == 1.0
    ensures var live, state := RunLoop(l, calls), Replay(RunLoop(l, calls).store).state;
            && (n == 5 ==> state.detectorWindow == live.window && state.stabilityScore == Mean(live.window))
            && (n == 10 ==> state.gate.longWindow == live.gate.longWindow)
  {
    forall i | LastCalls(calls, n) <= i < |calls|
      ensures Faithful(calls[i])
    {
      WeightOneIsFaithful(calls[i]);
    }
    ReplayHeals(l, calls);
  }

  // ----- Agreement at every moment

  /** Both rebuilt windows, the detector's and the gate's long one, are the live ones. */
  ghost predicate WindowsAgree(l: Loop, calls: seq<Call>) {
    InAgreement(RunLoop(l, calls))
  }

  predicate InAgreement(l: Loop) {
    Replay(l.store).window == l.window && Replay(l.store).gate.longWindow == l.gate.longWindow
  }

  /** The score leaves both windows as they are: they are full of it already. */
  predicate StandsStill(l: Loop, c: Call) {
    NextWindow(l, c) == l.window && NextGate(l, c).longWindow == l.gate.longWindow
  }

  /** The call is not rolled back and is stored with its own score, or changes nothing that it fails to store. */
  predicate Harmless(l: Loop, c: Call) {
    !RollsBack(l, c) && if c.storeOk then Faithful(c) else StandsStill(l, c)
  }

  /** A window that a further score leaves as it is holds only that score. */
  lemma UnchangedByPush(w: seq<real>, size: nat, x: real)
    requires Push(w, size, x) == w
    ensures forall i :: 0 <= i < |w| ==> w[i] == x
  {
    assert |w| + 1 > size;
    assert w == (w + [x])[1..];
    forall i | 0 <= i < |w|
      ensures w[i] == x
    {
      ChainToLast(w, x, i);
    }
  }

  lemma {:induction false} ChainToLast(w: seq<real>, x: real, i: nat)
    requires w == (w + [x])[1..] && i < |w|
    ensures w[i] == x
    decreases |w| - i
  {
    assert w[i] == (w + [x])[i + 1];
    if i + 1 < |w| {
      ChainToLast(w, x, i + 1);
    }
  }

  /** Windows that agree still agree after a call exactly when it is harmless. */
  lemma StepAgreesIff(l: Loop, c: Call)
    requires l.size == 5 && !l.shared && l.threshold > 0.0 && l.gate.maxWindow == 10 == Replay(l.store).gate.maxWindow
    requires InAgreement(l)
    ensures InAgreement(Evolved(l, c)) <==> Harmless(l, c)
  {
    if RollsBack(l, c) {
      RollbackMoves(l, c);
    } else if c.storeOk {
      StoredStep(l, c);
    }
  }

  /** A call that is rolled back has moved the window: a window that stands still is constant, hence stable. */
  lemma RollbackMoves(l: Loop, c: Call)
    requires l.size == 5 && !l.shared && l.threshold > 0.0 && RollsBack(l, c)
    ensures NextWindow(l, c) != l.window
  {
    var live := Push(l.window, 5, ScoreOf(c));
    if live == l.window {
      UnchangedByPush(l.window, 5, ScoreOf(c));
      ConstantWindow(live, ScoreOf(c));
    }
  }

  lemma StoredStep(l: Loop, c: Call)
    requires l.size == 5 && !l.shared && l.gate.maxWindow == 10 == Replay(l.store).gate.maxWindow
    requires InAgreement(l) && !RollsBack(l, c) && c.storeOk
    ensures InAgreement(Evolved(l, c)) <==> Faithful(c)
  {
    var ev := EventOf(l, c);
    assert (l.store + [ev])[..|l.store|] == l.store;
    var r := Replay(l.store + [ev]);
    assert r.window == Push(l.window, 5, c.candidate as real);
    assert r.gate.longWindow == Push(l.gate.longWindow, 10, c.candidate as real);
    PushLast(l.window, 5, ScoreOf(c));
    PushLast(l.window, 5, c.candidate as real);
  }

  lemma PushLast(w: seq<real>, size: nat, x: real)
    requires size >= 1
    ensures Push(w, size, x) != [] && Push(w, size, x)[|Push(w, size, x)| - 1] == x
  {
  }

  ghost predicate HarmlessAt(l: Loop, calls: seq<Call>, k: nat)
    requires k < |calls|
  {
    Harmless(RunLoop(l, calls[..k]), calls[k])
  }

  lemma AgreeStep(l: Loop, calls: seq<Call>, k: nat)
    requires Initial(l) && k < |calls| && WindowsAgree(l, calls[..k])
    ensures WindowsAgree(l, calls[..k + 1]) <==> HarmlessAt(l, calls, k)
  {
    assert calls[..k + 1][..k] == calls[..k];
    LiveWindows(l, calls[..k]);
    StoredEvents(l, calls[..k]);
    ReplayWindows(RunLoop(l, calls[..k]).store);
    StepAgreesIff(RunLoop(l, calls[..k]), calls[k]);
  }

  /** If each step keeps `a` exactly when it is `good`, then `a` holds throughout exactly when all steps are. */
  lemma {:induction false} ThroughoutIff(a: int -> bool, good: int -> bool, m: nat)
    requires a(0) && forall k :: 0 <= k < m && a(k) ==> a(k + 1) == good(k)
    ensures (forall k :: 0 <= k <= m ==> a(k)) <==> (forall k :: 0 <= k < m ==> good(k))
  {
    if m > 0 {
      ThroughoutIff(a, good, m - 1);
      assert a(m - 1) ==> a((m - 1) + 1) == good(m - 1);
      assert (forall k :: 0 <= k <= m ==> a(k)) <==> (forall k :: 0 <= k <= m - 1 ==> a(k)) && a(m);
      assert (forall k :: 0 <= k < m ==> good(k)) <==> (forall k :: 0 <= k < m - 1 ==> good(k)) && good(m - 1);
    }
  }

  /**
   Both rebuilt windows equal the live ones after every call of a run exactly when every call is
   harmless: none is rolled back, every stored score is the candidate's own, and what fails to be
   stored would have changed nothing.
   */
  lemma AgreesThroughoutIff(l: Loop, calls: seq<Call>)
    requires Initial(l)
    ensures (forall k :: 0 <= k <= |calls| ==> WindowsAgree(l, calls[..k]))
            <==> (forall k :: 0 <= k < |calls| ==> HarmlessAt(l, calls, k))
  {
    var a := (k: int) => 0 <= k <= |calls| && WindowsAgree(l, calls[..k]);
    var good := (k: int) => 0 <= k < |calls| && HarmlessAt(l, calls, k);
    assert calls[..0] == [];
    forall k | 0 <= k < |calls| && a(k)
      ensures a(k + 1) == good(k)
    {
      AgreeStep(l, calls, k);
    }
    ThroughoutIff(a, good, |calls|);
    assert forall k :: 0 <= k <= |calls| ==> a(k) == WindowsAgree(l, calls[..k]);
    assert forall k :: 0 <= k < |calls| ==> good(k) == HarmlessAt(l, calls, k);
  }

  // ----- What is never rebuilt

  /** The gate's own detector window is not rebuilt: it comes back empty, whatever the live gate holds. */
  lemma GateDetectorIsLost(l: Loop, calls: seq<Call>)
    requires Initial(l)
    ensures Replay(RunLoop(l, calls).store).state.gate.detectorWindow == []
  {
    StoredEvents(l, calls);
    ReplayWindows(RunLoop(l, calls).store);
  }

  /** A loop that shares its detector with the gate counts every score twice, so a single faithful, kept call is rebuilt wrongly. */
  lemma SharedDetectorDiffers(l: Loop, c: Call)
    requires l.shared && l.window == [] && l.size >= 2 && l.store == [] && l.threshold > 0.0 && c.storeOk
    ensures !RollsBack(l, c)
    ensures RunLoop(l, [c]).window == [ScoreOf(c), ScoreOf(c)]
    ensures Replay(RunLoop(l, [c]).store).window == [c.candidate as real]
  {
    var w := [ScoreOf(c), ScoreOf(c)];
    assert NextWindow(l, c) == w;
    ConstantWindow(w, ScoreOf(c));
    assert [c][..0] == [];
    assert RunLoop(l, [c]) == Evolved(l, c);
    var ev := EventOf(l, c);
    assert RunLoop(l, [c]).store == [ev];
    assert [ev][..0] == [];
  }
}
