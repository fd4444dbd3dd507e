/** Whether the gates inside running loops survive an export and import. */
module LoopGates {
  import opened AntiCollapse
  import opened StabilityGates
  import opened EvolutionLoop

  /** A loop as the minimal constructor makes it: one detector, used by the loop and by its gate. */
  ghost predicate MinimalLoop(l: Loop) {
    l.shared && l.size == 10 && l.threshold == 0.5 && l.window == l.gate.window == [] && MinimalGate(l.gate)
  }

  /** Over every run the gate's detector is the loop's own, and takes every score twice. */
  lemma {:induction false} SharedWindows(l: Loop, calls: seq<Call>)
    requires MinimalLoop(l)
    ensures var r := RunLoop(l, calls);
            && r.shared && r.size == 10 && r.window == r.gate.window && MinimalGate(r.gate)
            && r.window == PushAll([], 10, Twice(calls))
  {
    if calls != [] {
      var n := |calls| - 1;
      SharedWindows(l, calls[..n]);
      PushTwice(Twice(calls[..n]), ScoreOf(calls[n]));
    }
  }

  function Twice(calls: seq<Call>): seq<real> {
    if calls == [] then [] else Twice(calls[..|calls| - 1]) + [ScoreOf(calls[|calls| - 1])] + [ScoreOf(calls[|calls| - 1])]
  }

  lemma PushTwice(xs: seq<real>, x: real)
    ensures PushAll([], 10, xs + [x] + [x]) == Push(Push(PushAll([], 10, xs), 10, x), 10, x)
  {
    assert (xs + [x] + [x])[..|xs| + 1] == xs + [x];
    assert (xs + [x])[..|xs|] == xs;
  }

  /** The minimal loop's gate never restores faithfully, after any run. */
  lemma MinimalLoopDoesNotRestore(l: Loop, calls: seq<Call>, sqrt: Root)
    requires MinimalLoop(l)
    ensures var g := RunLoop(l, calls).gate;
            !SameAnswers(g, Restored(g), sqrt)
  {
    SharedWindows(l, calls);
    MinimalDoesNotRestore(RunLoop(l, calls).gate, sqrt);
  }

  function WeightedScores(calls: seq<Call>): seq<int> {
    if calls == [] then []
    else WeightedScores(calls[..|calls| - 1]) + [Weighted(calls[|calls| - 1].candidate, calls[|calls| - 1].weight)]
  }

  /** A gate with a detector of its own only ever sees the checks of the calls. */
  lemma {:induction false} OwnDetectorIsChecked(l: Loop, calls: seq<Call>)
    requires !l.shared
    ensures !RunLoop(l, calls).shared && RunLoop(l, calls).gate == AdmitAll(l.gate, WeightedScores(calls))
  {
    if calls != [] {
      var n := |calls| - 1;
      OwnDetectorIsChecked(l, calls[..n]);
      var w := WeightedScores(calls);
      assert w[..|w| - 1] == WeightedScores(calls[..n]);
    }
  }

  /** Nor does the default gate of the server's loop. */
  lemma ServerLoopDoesNotRestore(l: Loop, calls: seq<Call>, sqrt: Root)
    requires !l.shared && l.gate == Gate(0.5, 10.0, 2.0, 10, [], [], 5, 10.0)
    ensures var g := RunLoop(l, calls).gate;
            !SameAnswers(g, Restored(g), sqrt)
  {
    OwnDetectorIsChecked(l, calls);
    DefaultDoesNotRestore(WeightedScores(calls), sqrt);
  }
}
