/**
 The live evolution loop: evaluation, gate, detector, rollback, event store. Scores are exact
 reals; the success of the store's write is an input.
 */
module EvolutionLoop {
  import opened AntiCollapse
  import opened StabilityGates

  datatype Mode = BanditMode | StableMode | LockedMode

  datatype Event = Event(sequence: int, candidateScore: int, currentScore: int, weight: real, mode: Mode, banditSeed: int,
                         gateVariance: real, gateThreshold: real, stabilityScore: real)

  /** One call of `Evolve`; `storeOk` says whether the event store's write succeeds. */
  datatype Call = Call(candidate: int, current: int, weight: real, storeOk: bool)

  datatype Outcome = RolledBack | StoreFailed(accepted: bool) | Finished(accepted: bool)

  /** Go's conversion of a float to an int: toward zero. */
  function Trunc(x: real): int {
    if x >= 0.0 then x.Floor else -((-x).Floor)
  }

  function Weighted(score: int, weight: real): int {
    Trunc(score as real * weight)
  }

  /** `n` is `x` without its fraction: no larger in size, by less than one, and of no other sign. */
  predicate TowardZero(x: real, n: int) {
    Abs(n as real) <= Abs(x) < Abs(n as real) + 1.0 && n as real * x >= 0.0
  }

  lemma SameSign(n: real, x: real)
    ensures n > 0.0 && x > 0.0 ==> n * x > 0.0
    ensures n < 0.0 && x < 0.0 ==> n * x > 0.0
    ensures n > 0.0 && x < 0.0 ==> n * x < 0.0
    ensures n < 0.0 && x > 0.0 ==> n * x < 0.0
    ensures n == 0.0 || x == 0.0 ==> n * x == 0.0
  {
    if n < 0.0 && x < 0.0 {
      assert n * x == (-n) * (-x);
    } else if n > 0.0 && x < 0.0 {
      assert n * x == -(n * (-x));
    } else if n < 0.0 && x > 0.0 {
      assert n * x == -((-n) * x);
    }
  }

  /** There is exactly one such integer, and it is Go's. */
  lemma TruncIff(x: real, n: int)
    ensures Trunc(x) == n <==> TowardZero(x, n)
  {
    SameSign(n as real, x);
  }

  /** The loop as a value; `shared` says that the gate's detector is the loop's own. */
  datatype Loop = Loop(gate: Gate, window: seq<real>, size: nat, threshold: real, shared: bool,
                       mode: Mode, sequence: int, seed: int, store: seq<Event>)

  function ScoreOf(c: Call): real {
    Weighted(c.candidate, c.weight) as real
  }

  /** The loop's window after a call: a shared detector has taken the score twice. */
  function NextWindow(l: Loop, c: Call): seq<real> {
    Push(if l.shared then Push(l.window, l.size, ScoreOf(c)) else l.window, l.size, ScoreOf(c))
  }

  function NextGate(l: Loop, c: Call): Gate {
    var g := Admit(l.gate, Weighted(c.candidate, c.weight));
    if l.shared then g.(window := NextWindow(l, c)) else g
  }

  predicate RollsBack(l: Loop, c: Call) {
    Unstable(NextWindow(l, c), l.threshold)
  }

  predicate Accepted(l: Loop, c: Call, sqrt: Root) {
    var score := Weighted(c.candidate, c.weight);
    score >= Weighted(c.current, c.weight) && Accepts(Admit(l.gate, score), score, sqrt)
  }

  function EventOf(l: Loop, c: Call): Event {
    Event(l.sequence + 1, c.candidate, c.current, c.weight, l.mode, l.seed, 0.0, 0.0, Mean(NextWindow(l, c)))
  }

  /** The state after a call. A rolled-back call has changed both windows all the same. */
  function Evolved(l: Loop, c: Call): Loop {
    var moved := l.(gate := NextGate(l, c), window := NextWindow(l, c));
    if RollsBack(l, c) then moved
    else moved.(sequence := l.sequence + 1, store := if c.storeOk then l.store + [EventOf(l, c)] else l.store)
  }

  // ----- What a call does, said of its scores and its weight

  lemma WeightedIff(score: int, weight: real, n: int)
    ensures Weighted(score, weight) == n <==> TowardZero(score as real * weight, n)
  {
    TruncIff(score as real * weight, n);
  }

  lemma NewestIsScore(l: Loop, c: Call)
    ensures var e := Evolved(l, c);
            && (e.window != [] ==> e.window[|e.window| - 1] == ScoreOf(c))
            && (e.gate.longWindow != [] ==> e.gate.longWindow[|e.gate.longWindow| - 1] == ScoreOf(c))
  {
  }

  lemma SameInteger(k: int, n: int)
    ensures k as real == n as real <==> k == n
  {
  }

  /** Both windows take the weighted candidate score, without its fraction, for their newest score. */
  lemma ScoreEntersWindows(l: Loop, c: Call, n: int)
    ensures var e, x := Evolved(l, c), c.candidate as real * c.weight;
            && (e.window != [] ==> (e.window[|e.window| - 1] == n as real <==> TowardZero(x, n)))
            && (e.gate.longWindow != [] ==> (e.gate.longWindow[|e.gate.longWindow| - 1] == n as real <==> TowardZero(x, n)))
  {
    NewestIsScore(l, c);
    WeightedIff(c.candidate, c.weight, n);
    SameInteger(Weighted(c.candidate, c.weight), n);
  }

  /** A call is rolled back exactly when its score leaves the window spread too far, or with a sharp turn. */
  lemma RollsBackIff(l: Loop, c: Call)
    ensures var w := Evolved(l, c).window;
            RollsBack(l, c) <==> Variance(w) >= l.threshold || exists i: nat :: SharpTurn(w, i)
  {
    OscillatesIff(NextWindow(l, c));
  }

  /** The scores compared and checked are the weighted ones without their fractions. */
  lemma AcceptedIff(l: Loop, c: Call, n: int, m: int, sqrt: Root)
    requires TowardZero(c.candidate as real * c.weight, n) && TowardZero(c.current as real * c.weight, m)
    ensures Accepted(l, c, sqrt) <==> n >= m && Accepts(Admit(l.gate, n), n, sqrt)
  {
    WeightedIff(c.candidate, c.weight, n);
    WeightedIff(c.current, c.weight, m);
  }

  class SafeEvolutionLoop {
    var gate: StabilityGate
    var detector: AntiCollapseDetector
    var mode: Mode
    var sequence: int
    var currentSeed: int
    var store: seq<Event>

    ghost function Value(): Loop
      reads this, gate, gate.detector, detector
    {
      Loop(gate.Value(), detector.window, detector.size, detector.varianceThreshold, gate.detector == detector,
           mode, sequence, currentSeed, store)
    }

    constructor (gate: StabilityGate, detector: AntiCollapseDetector, mode: Mode)
      ensures this.gate == gate && this.detector == detector
      ensures Value() == Loop(gate.Value(), detector.window, detector.size, detector.varianceThreshold,
                              gate.detector == detector, mode, 0, 0, [])
    {
      this.gate := gate;
      this.detector := detector;
      this.mode := mode;
      sequence, currentSeed, store := 0, 0, [];
    }

    /** Evaluation and gate check, and the score enters the loop's own detector. */
    method Observe(c: Call, sqrt: Root) returns (accepted: bool)
      modifies gate`longWindow, gate.detector`window, detector`window
      ensures gate.detector == old(gate.detector)
      ensures Value() == old(Value()).(gate := NextGate(old(Value()), c), window := NextWindow(old(Value()), c))
      ensures accepted == Accepted(old(Value()), c, sqrt)
    {
      var score := Weighted(c.candidate, c.weight);
      var evaluated := score >= Weighted(c.current, c.weight);
      var gateOk := gate.Check(score, sqrt);
      accepted := evaluated && gateOk;
      detector.Add(score as real);
    }

    method Evolve(c: Call, sqrt: Root) returns (r: Outcome)
      modifies this`sequence, this`store, gate`longWindow, gate.detector`window, detector`window
      ensures gate.detector == old(gate.detector)
      ensures Value() == Evolved(old(Value()), c)
      ensures r == RolledBack <==> RollsBack(old(Value()), c)
      ensures r != RolledBack ==> (r.StoreFailed? <==> !c.storeOk) && r.accepted == Accepted(old(Value()), c, sqrt)
    {
      var accepted := Observe(c, sqrt);
      var stable := detector.IsStable();
      var oscillating := detector.IsOscillating();
      if !stable || oscillating {
        return RolledBack;
      }
      sequence := sequence + 1;
      var stabilityScore := StabilityScore();
      if c.storeOk {
        store := store + [Event(sequence, c.candidate, c.current, c.weight, mode, currentSeed, 0.0, 0.0, stabilityScore)];
        return Finished(accepted);
      }
      return StoreFailed(accepted);
    }

    method StabilityScore() returns (s: real)
      ensures s == Mean(detector.window)
    {
      s := detector.ComputeMean();
    }
  }

  // ----- Runs

  function RunLoop(l: Loop, calls: seq<Call>): Loop {
    if calls == [] then l else Evolved(RunLoop(l, calls[..|calls| - 1]), calls[|calls| - 1])
  }

  /** A loop as the server builds it: its own detector of five scores, and a default-sized gate. */
  ghost predicate Initial(l: Loop) {
    && !l.shared && l.window == [] && l.size == 5 && l.threshold > 0.0
    && l.sequence == 0 && l.store == []
    && l.gate.longWindow == [] && l.gate.maxWindow == 10
  }

  function Scores(calls: seq<Call>): seq<real> {
    seq(|calls|, i requires 0 <= i < |calls| => ScoreOf(calls[i]))
  }

  function Candidates(events: seq<Event>): seq<real> {
    seq(|events|, i requires 0 <= i < |events| => events[i].candidateScore as real)
  }

  function CallCandidates(calls: seq<Call>): seq<real> {
    seq(|calls|, i requires 0 <= i < |calls| => calls[i].candidate as real)
  }

  /** The live windows hold the weighted scores of the latest calls, rolled back or not. */
  lemma {:induction false} LiveWindows(l: Loop, calls: seq<Call>)
    requires Initial(l)
    ensures var r := RunLoop(l, calls);
            && r.window == PushAll([], 5, Scores(calls)) && r.gate.longWindow == PushAll([], 10, Scores(calls))
            && r.size == 5 && !r.shared && r.threshold == l.threshold && r.mode == l.mode && r.seed == l.seed && r.gate.maxWindow == 10
  {
    if calls != [] {
      var n := |calls| - 1;
      LiveWindows(l, calls[..n]);
      assert Scores(calls)[..n] == Scores(calls[..n]);
    }
  }

  /** Call `k` of the run is not rolled back. */
  ghost predicate Kept(l: Loop, calls: seq<Call>, k: nat)
    requires k < |calls|
  {
    !RollsBack(RunLoop(l, calls[..k]), calls[k])
  }

  /** The weight leaves the candidate's score as it is; a weight of one always does. */
  predicate Faithful(c: Call) {
    Weighted(c.candidate, c.weight) == c.candidate
  }

  /** That is so for a score of zero, and for weights from one on that add less than one to the score's size. */
  lemma FaithfulIff(c: Call)
    ensures Faithful(c) <==> c.candidate == 0 || (c.weight >= 1.0 && Abs(c.candidate as real) * (c.weight - 1.0) < 1.0)
  {
    WeightedIff(c.candidate, c.weight, c.candidate);
    KeepsScoreIff(c.candidate as real, c.weight);
  }

  lemma KeepsScoreIff(s: real, w: real)
    ensures Abs(s) <= Abs(s * w) < Abs(s) + 1.0 && s * (s * w) >= 0.0
            <==> s == 0.0 || (w >= 1.0 && Abs(s) * (w - 1.0) < 1.0)
  {
    if s > 0.0 {
      PositiveKeepsIff(s, w);
    } else if s < 0.0 {
      PositiveKeepsIff(-s, w);
      assert (-s) * w == -(s * w);
      assert (-s) * ((-s) * w) == s * (s * w);
    }
  }

  lemma PositiveKeepsIff(s: real, w: real)
    requires s > 0.0
    ensures s <= Abs(s * w) < s + 1.0 && s * (s * w) >= 0.0 <==> w >= 1.0 && s * (w - 1.0) < 1.0
  {
    var e := w - 1.0;
    KeepsSign(s, w);
    KeepsSign(s, s * w);
    KeepsSign(s, e);
    TimesLessOne(s, w, e);
    KeepsCases(s, w, s * w, s * (s * w), s * e);
  }

  lemma KeepsSign(s: real, x: real)
    requires s > 0.0
    ensures s * x >= 0.0 <==> x >= 0.0
  {
    SameSign(s, x);
  }

  lemma TimesLessOne(s: real, w: real, e: real)
    requires e == w - 1.0
    ensures s * e == s * w - s
  {
  }

  /** The same with the products as variables, of which the signs are known. */
  lemma KeepsCases(s: real, w: real, p: real, q: real, d: real)
    requires s > 0.0 && d == p - s
    requires (d >= 0.0 <==> w >= 1.0) && (p >= 0.0 <==> w >= 0.0) && (q >= 0.0 <==> p >= 0.0)
    ensures s <= Abs(p) < s + 1.0 && q >= 0.0 <==> w >= 1.0 && d < 1.0
  {
  }

  lemma WeightOneIsFaithful(c: Call)
    requires c.weight == 1.0
    ensures Faithful(c)
  {
    assert c.candidate as real * 1.0 == c.candidate as real;
  }

  ghost predicate AllStored(calls: seq<Call>) {
    forall k :: 0 <= k < |calls| ==> calls[k].storeOk
  }

  /** From call `k` on, every write succeeds. */
  ghost predicate StoredFrom(calls: seq<Call>, k: nat) {
    forall i :: k <= i < |calls| ==> calls[i].storeOk
  }

  /** Whatever writes fail, what is stored carries the loop's mode and seed and no gate data. */
  lemma {:induction false} StoredEvents(l: Loop, calls: seq<Call>)
    requires Initial(l)
    ensures var r := RunLoop(l, calls);
            && r.mode == l.mode && r.seed == l.seed
            && forall i :: 0 <= i < |r.store| ==>
                 r.store[i].mode == l.mode && r.store[i].banditSeed == l.seed
                 && r.store[i].gateVariance == 0.0 && r.store[i].gateThreshold == 0.0
  {
    if calls != [] {
      StoredEvents(l, calls[..|calls| - 1]);
    }
  }

  /** With all writes succeeding, the store is numbered 1, 2, 3, ... and the loop's sequence is its length. */
  lemma {:induction false} StoreIsNumbered(l: Loop, calls: seq<Call>)
    requires Initial(l) && AllStored(calls)
    ensures var r := RunLoop(l, calls);
            r.sequence == |r.store| && forall i :: 0 <= i < |r.store| ==> r.store[i].sequence == i + 1
  {
    if calls != [] {
      StoreIsNumbered(l, calls[..|calls| - 1]);
    }
  }

  /** A call that is kept adds its candidate to the store. */
  lemma KeptCallIsStored(l: Loop, c: Call)
    requires !RollsBack(l, c) && c.storeOk
    ensures Candidates(Evolved(l, c).store) == Candidates(l.store) + [c.candidate as real]
  {
  }

  /** The stored event carries the call's own scores and weight, not the weighted ones, and the mean of the window it leaves. */
  lemma StoredEvent(l: Loop, c: Call) returns (e: Event)
    requires !RollsBack(l, c) && c.storeOk
    ensures Evolved(l, c).store == l.store + [e] && Evolved(l, c).sequence == e.sequence == l.sequence + 1
    ensures e.candidateScore == c.candidate && e.currentScore == c.current && e.weight == c.weight
    ensures e.mode == l.mode && e.banditSeed == l.seed && e.stabilityScore == Mean(Evolved(l, c).window)
  {
    e := EventOf(l, c);
  }

  lemma CallCandidatesSplit(calls: seq<Call>, k: nat)
    requires k < |calls|
    ensures CallCandidates(calls[k..]) == CallCandidates(calls[..|calls| - 1][k..]) + [calls[|calls| - 1].candidate as real]
  {
  }

  /** From call `k` on, none is rolled back. */
  ghost predicate KeptFrom(l: Loop, calls: seq<Call>, k: nat) {
    forall i :: k <= i < |calls| ==> Kept(l, calls, i)
  }

  lemma KeptFromFront(l: Loop, calls: seq<Call>, k: nat)
    requires KeptFrom(l, calls, k) && k < |calls|
    ensures KeptFrom(l, calls[..|calls| - 1], k)
  {
    var front := calls[..|calls| - 1];
    forall i | k <= i < |front|
      ensures Kept(l, front, i)
    {
      assert front[..i] == calls[..i];
      assert Kept(l, calls, i);
    }
  }

  /** A stretch of calls that are kept and stored adds exactly its candidates to the store, whatever came before. */
  lemma {:induction false} KeptCallsAreStored(l: Loop, calls: seq<Call>, k: nat)
    requires k <= |calls| && StoredFrom(calls, k) && KeptFrom(l, calls, k)
    ensures Candidates(RunLoop(l, calls).store) == Candidates(RunLoop(l, calls[..k]).store) + CallCandidates(calls[k..])
    decreases |calls|
  {
    if k == |calls| {
      assert calls[..k] == calls;
    } else {
      var n := |calls| - 1;
      var front := calls[..n];
      KeptFromFront(l, calls, k);
      KeptCallsAreStored(l, front, k);
      assert front[..k] == calls[..k];
      assert Kept(l, calls, n);
      KeptCallIsStored(RunLoop(l, front), calls[n]);
      CallCandidatesSplit(calls, k);
    }
  }
}
