/** Which configurations the audit trace is right about: all their decisions replay, or some decision does not. */
module PolicyAudits {
  import opened Wrappers
  import opened PolicyEngine
  import opened PolicyTraces

  /** Every decision of the configuration leaves a trace that replays. */
  ghost predicate AlwaysReplays(cfg: TunedConfig) {
    forall gates, cert, chaos :: Replays(TraceOf(gates, cert, chaos, DecisionOf(cfg, gates, cert, chaos)))
  }

  /** The configuration weighs, caps and penalises as the default one does; its thresholds are its own. */
  ghost predicate ScoresLikeDefault(cfg: TunedConfig) {
    && (forall name :: WeightOf(cfg, name) == WeightOf(DefaultTunedConfig(), name))
    && (forall name :: IsHardFail(cfg, name) <==> IsHardFail(DefaultTunedConfig(), name))
    && (forall mode :: PenaltyOf(cfg, mode) == PenaltyOf(DefaultTunedConfig(), mode))
  }

  // ----- Like the default, hence replayed

  lemma {:induction false} SameTally(cfg: TunedConfig, gates: seq<GateResult>)
    requires ScoresLikeDefault(cfg)
    ensures Total(cfg, gates) == Total(DefaultTunedConfig(), gates)
    ensures Earned(cfg, gates) == Earned(DefaultTunedConfig(), gates)
  {
    if gates != [] {
      SameTally(cfg, gates[..|gates| - 1]);
    }
  }

  lemma SameHardFail(cfg: TunedConfig, gates: seq<GateResult>)
    requires ScoresLikeDefault(cfg)
    ensures HardFailed(cfg, gates) <==> HardFailed(DefaultTunedConfig(), gates)
  {
    var def := DefaultTunedConfig();
    assert forall g :: g in gates && !g.passed ==> (IsHardFail(cfg, g.name) <==> IsHardFail(def, g.name));
  }

  lemma SameScore(cfg: TunedConfig, gates: seq<GateResult>, cert: Option<Certification>, chaos: Option<Chaos>)
    requires ScoresLikeDefault(cfg)
    ensures Score(cfg, gates, cert, chaos) == Score(DefaultTunedConfig(), gates, cert, chaos)
  {
    SameTally(cfg, gates);
    SameHardFail(cfg, gates);
    if chaos.Some? {
      assert PenaltyOf(cfg, chaos.value.mode) == PenaltyOf(DefaultTunedConfig(), chaos.value.mode);
    }
  }

  // ----- A gate that no configuration knows

  predicate Unlisted(cfg: TunedConfig, name: string) {
    WeightOf(cfg, name) == 10 && !IsHardFail(cfg, name)
  }

  function Listed(cfg: TunedConfig): set<string> {
    (if cfg.gateWeights.Some? then cfg.gateWeights.value.Keys else {})
    + (if cfg.hardFailGates.Some? then cfg.hardFailGates.value.Keys else {})
  }

  lemma {:induction false} LongerThanAll(names: set<string>) returns (n: string)
    ensures forall x :: x in names ==> |x| < |n|
    decreases names
  {
    if names == {} {
      n := [];
    } else {
      var x :| x in names;
      var m := LongerThanAll(names - {x});
      n := if |x| < |m| then m else x + ['a'];
      assert forall y :: y in names ==> y == x || y in names - {x};
    }
  }

  /** Some other gate is listed neither in the configuration nor in the default one. */
  lemma UnlistedGate(cfg: TunedConfig, name: string) returns (u: string)
    ensures u != name && Unlisted(cfg, u) && Unlisted(DefaultTunedConfig(), u)
  {
    u := LongerThanAll(Listed(cfg) + Listed(DefaultTunedConfig()) + {name});
    assert u !in Listed(cfg) && u !in Listed(DefaultTunedConfig());
  }

  lemma DefaultBounds(name: string, mode: string)
    ensures 10 <= WeightOf(DefaultTunedConfig(), name) <= 30
    ensures 0.0 <= PenaltyOf(DefaultTunedConfig(), mode) <= 30.0
  {
  }

  // ----- Replayed, hence like the default

  lemma ReplayMeansSameScore(cfg: TunedConfig, gates: seq<GateResult>, cert: Option<Certification>, chaos: Option<Chaos>)
    requires AlwaysReplays(cfg)
    ensures Score(cfg, gates, cert, chaos) == Score(DefaultTunedConfig(), gates, cert, chaos)
  {
    AuditIsExact(gates, cert, chaos, DecisionOf(cfg, gates, cert, chaos));
  }

  /** One gate, and then `k` results of another that has passed. */
  function OneAndMany(g: GateResult, u: string, k: nat): seq<GateResult> {
    if k == 0 then [g] else OneAndMany(g, u, k - 1) + [GateResult(u, true)]
  }

  lemma SnocTally(cfg: TunedConfig, front: seq<GateResult>, g: GateResult)
    ensures Total(cfg, front + [g]) == Total(cfg, front) + WeightOf(cfg, g.name)
    ensures Earned(cfg, front + [g]) == Earned(cfg, front) + (if g.passed then WeightOf(cfg, g.name) else 0)
  {
    assert (front + [g])[..|front|] == front;
  }

  lemma SnocHardFail(cfg: TunedConfig, front: seq<GateResult>, g: GateResult)
    ensures HardFailed(cfg, front + [g]) <==> HardFailed(cfg, front) || (!g.passed && IsHardFail(cfg, g.name))
  {
    assert g in front + [g] && forall h :: h in front ==> h in front + [g];
  }

  lemma {:induction false} OneAndManySums(cfg: TunedConfig, g: GateResult, u: string, k: nat)
    requires WeightOf(cfg, u) == 10
    ensures Total(cfg, OneAndMany(g, u, k)) == WeightOf(cfg, g.name) + 10 * k
    ensures Earned(cfg, OneAndMany(g, u, k)) == (if g.passed then WeightOf(cfg, g.name) else 0) + 10 * k
  {
    if k == 0 {
      SnocTally(cfg, [], g);
      assert [] + [g] == [g];
    } else {
      OneAndManySums(cfg, g, u, k - 1);
      SnocTally(cfg, OneAndMany(g, u, k - 1), GateResult(u, true));
    }
  }

  lemma {:induction false} OneAndManyHard(cfg: TunedConfig, g: GateResult, u: string, k: nat)
    ensures HardFailed(cfg, OneAndMany(g, u, k)) <==> !g.passed && IsHardFail(cfg, g.name)
  {
    if k == 0 {
      assert g in [g];
    } else {
      OneAndManyHard(cfg, g, u, k - 1);
      SnocHardFail(cfg, OneAndMany(g, u, k - 1), GateResult(u, true));
    }
  }

  lemma OneAndManyTally(cfg: TunedConfig, g: GateResult, u: string, k: nat)
    requires WeightOf(cfg, u) == 10
    ensures var gates := OneAndMany(g, u, k);
            && Total(cfg, gates) == WeightOf(cfg, g.name) + 10 * k
            && Earned(cfg, gates) == (if g.passed then WeightOf(cfg, g.name) else 0) + 10 * k
            && (HardFailed(cfg, gates) <==> !g.passed && IsHardFail(cfg, g.name))
  {
    OneAndManySums(cfg, g, u, k);
    OneAndManyHard(cfg, g, u, k);
  }

  /** A passed gate beside a failed unlisted one. */
  lemma PairScore(cfg: TunedConfig, name: string, u: string)
    requires Unlisted(cfg, u)
    ensures var pair := [GateResult(name, true), GateResult(u, false)];
            Score(cfg, pair, None, None) == GateScore(WeightOf(cfg, name) + 10, WeightOf(cfg, name))
  {
    var a, b := GateResult(name, true), GateResult(u, false);
    assert [a, b][..1] == [a] && [a][..0] == [];
    assert Total(cfg, [a]) == WeightOf(cfg, name) && Earned(cfg, [a]) == WeightOf(cfg, name);
    assert !HardFailed(cfg, [a, b]);
  }

  lemma SameRatio(w: int, d: int)
    requires 10 <= d && GateScore(w + 10, w) == GateScore(d + 10, d)
    ensures w == d
  {
    var x, y := w as real, d as real;
    assert y / (y + 10.0) > 0.0;
    if w + 10 > 0 {
      var q := x / (x + 10.0);
      assert q == y / (y + 10.0);
      assert q * (x + 10.0) == x && q * (y + 10.0) == y;
      SameFixedPoint(q, x, y);
    }
  }

  lemma SameFixedPoint(q: real, x: real, y: real)
    requires q * (x + 10.0) == x && q * (y + 10.0) == y && y + 10.0 > 0.0
    ensures x == y
  {
    assert (1.0 - q) * x == 10.0 * q && (1.0 - q) * y == 10.0 * q;
    assert q != 1.0;
    assert (1.0 - q) * (x - y) == 0.0;
  }

  lemma WeightIsForced(cfg: TunedConfig, name: string)
    requires AlwaysReplays(cfg)
    ensures WeightOf(cfg, name) == WeightOf(DefaultTunedConfig(), name)
  {
    var u := UnlistedGate(cfg, name);
    ReplayMeansSameScore(cfg, [GateResult(name, true), GateResult(u, false)], None, None);
    PairScore(cfg, name, u);
    PairScore(DefaultTunedConfig(), name, u);
    DefaultBounds(name, "");
    SameRatio(WeightOf(cfg, name), WeightOf(DefaultTunedConfig(), name));
  }

  lemma AboveCap(w: int)
    requires 10 <= w <= 30
    ensures GateScore(w + 50, 50) > 60.0
  {
    var t := (w + 50) as real;
    assert (50.0 / t) * t == 50.0;
    assert (0.6 - 50.0 / t) * t == 0.6 * t - 50.0;
  }

  lemma HardFailIsForced(cfg: TunedConfig, name: string)
    requires AlwaysReplays(cfg)
    ensures IsHardFail(cfg, name) <==> IsHardFail(DefaultTunedConfig(), name)
  {
    var def := DefaultTunedConfig();
    var u := UnlistedGate(cfg, name);
    var g := GateResult(name, false);
    var gates := OneAndMany(g, u, 5);
    ReplayMeansSameScore(cfg, gates, None, None);
    WeightIsForced(cfg, name);
    DefaultBounds(name, "");
    OneAndManyTally(cfg, g, u, 5);
    OneAndManyTally(def, g, u, 5);
    AboveCap(WeightOf(def, name));
  }

  lemma PenaltyIsForced(cfg: TunedConfig, mode: string)
    requires AlwaysReplays(cfg)
    ensures PenaltyOf(cfg, mode) == PenaltyOf(DefaultTunedConfig(), mode)
  {
    var def := DefaultTunedConfig();
    var u := UnlistedGate(cfg, "");
    var g := GateResult(u, true);
    ReplayMeansSameScore(cfg, OneAndMany(g, u, 0), None, Some(Chaos(true, mode)));
    OneAndManyTally(cfg, g, u, 0);
    OneAndManyTally(def, g, u, 0);
    DefaultBounds(u, mode);
  }

  /** All decisions of a configuration replay exactly when its tables read like the default ones, whatever its thresholds. */
  lemma AlwaysReplaysIff(cfg: TunedConfig)
    ensures AlwaysReplays(cfg) <==> ScoresLikeDefault(cfg)
  {
    if AlwaysReplays(cfg) {
      forall name
        ensures WeightOf(cfg, name) == WeightOf(DefaultTunedConfig(), name)
        ensures IsHardFail(cfg, name) <==> IsHardFail(DefaultTunedConfig(), name)
      {
        WeightIsForced(cfg, name);
        HardFailIsForced(cfg, name);
      }
      forall mode
        ensures PenaltyOf(cfg, mode) == PenaltyOf(DefaultTunedConfig(), mode)
      {
        PenaltyIsForced(cfg, mode);
      }
    } else if ScoresLikeDefault(cfg) {
      forall gates, cert, chaos
        ensures Replays(TraceOf(gates, cert, chaos, DecisionOf(cfg, gates, cert, chaos)))
      {
        SameScore(cfg, gates, cert, chaos);
        AuditIsExact(gates, cert, chaos, DecisionOf(cfg, gates, cert, chaos));
      }
    }
  }

  /** The default configuration with a heavier syntax gate. */
  function HeavySyntax(): TunedConfig {
    DefaultTunedConfig().(gateWeights := Some(DefaultWeights()["syntax_gate" := 40]))
  }

  /** One passed and one unlisted failed gate: 80 against the 75 that the trace arrives at. */
  lemma HeavySyntaxFails()
    ensures FailsOnPair(HeavySyntax(), "syntax_gate", "lint")
  {
    PairFails(HeavySyntax(), "syntax_gate", "lint");
  }

  ghost predicate FailsOnPair(cfg: TunedConfig, name: string, u: string) {
    var gates := [GateResult(name, true), GateResult(u, false)];
    && Score(cfg, gates, None, None) == 80.0
    && Score(DefaultTunedConfig(), gates, None, None) == 75.0
    && !Replays(TraceOf(gates, None, None, DecisionOf(cfg, gates, None, None)))
  }

  lemma PairFails(cfg: TunedConfig, name: string, u: string)
    requires Unlisted(cfg, u) && Unlisted(DefaultTunedConfig(), u)
    requires WeightOf(cfg, name) == 40 && WeightOf(DefaultTunedConfig(), name) == 30
    ensures FailsOnPair(cfg, name, u)
  {
    var gates := [GateResult(name, true), GateResult(u, false)];
    PairScore(cfg, name, u);
    PairScore(DefaultTunedConfig(), name, u);
    TwoScores();
    DifferentScoreFails(cfg, gates, 80.0, 75.0);
  }

  lemma TwoScores()
    ensures GateScore(50, 40) == 80.0 && GateScore(40, 30) == 75.0
  {
  }

  lemma DifferentScoreFails(cfg: TunedConfig, gates: seq<GateResult>, x: real, y: real)
    requires Score(cfg, gates, None, None) == x != y == Score(DefaultTunedConfig(), gates, None, None)
    ensures !Replays(TraceOf(gates, None, None, DecisionOf(cfg, gates, None, None)))
  {
    AuditIsExact(gates, None, None, DecisionOf(cfg, gates, None, None));
  }
}
