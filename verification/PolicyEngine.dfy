/** The policy engine: weighted gates, hard-fail cap, chaos penalty, thresholds. Scores are exact reals. */
module PolicyEngine {
  import opened Wrappers

  datatype GateResult = GateResult(name: string, passed: bool)

  datatype Certification = Certification(deterministic: bool)

  datatype Chaos = Chaos(active: bool, mode: string)

  datatype Status = Pass | Warn | Fail | Block

  datatype Action = Allow | RaiseWarning | Retry | BlockRun | Escalate

  datatype Decision = Decision(status: Status, score: real, actions: seq<Action>, reasoning: seq<string>)

  /** The three maps may be absent, which reads like an empty map. */
  datatype TunedConfig = TunedConfig(gateWeights: Option<map<string, int>>, chaosPenalties: Option<map<string, real>>,
                                     thresholdPass: real, thresholdWarn: real, thresholdFail: real,
                                     hardFailGates: Option<map<string, bool>>)

  function DefaultWeights(): map<string, int> {
    map["syntax_gate" := 30, "semantic_gate" := 20, "execution_gate" := 25, "determinism_gate" := 25]
  }

  function DefaultHardFail(): map<string, bool> {
    map["execution_gate" := true, "determinism_gate" := true]
  }

  function DefaultPenalties(): map<string, real> {
    map["Silent" := 5.0, "Hard" := 15.0, "Full" := 30.0]
  }

  function DefaultTunedConfig(): TunedConfig {
    TunedConfig(Some(DefaultWeights()), Some(DefaultPenalties()), 90.0, 70.0, 50.0, Some(DefaultHardFail()))
  }

  function WeightOf(cfg: TunedConfig, name: string): int {
    if cfg.gateWeights.Some? && name in cfg.gateWeights.value then cfg.gateWeights.value[name] else 10
  }

  predicate IsHardFail(cfg: TunedConfig, name: string) {
    cfg.hardFailGates.Some? && name in cfg.hardFailGates.value && cfg.hardFailGates.value[name]
  }

  function PenaltyOf(cfg: TunedConfig, mode: string): real {
    if cfg.chaosPenalties.Some? && mode in cfg.chaosPenalties.value then cfg.chaosPenalties.value[mode] else 0.0
  }

  // ----- The score as a function

  function Total(cfg: TunedConfig, gates: seq<GateResult>): int {
    if gates == [] then 0 else Total(cfg, gates[..|gates| - 1]) + WeightOf(cfg, gates[|gates| - 1].name)
  }

  function Earned(cfg: TunedConfig, gates: seq<GateResult>): int {
    if gates == [] then 0
    else Earned(cfg, gates[..|gates| - 1]) + (if gates[|gates| - 1].passed then WeightOf(cfg, gates[|gates| - 1].name) else 0)
  }

  predicate HardFailed(cfg: TunedConfig, gates: seq<GateResult>) {
    exists g :: g in gates && !g.passed && IsHardFail(cfg, g.name)
  }

  function GateScore(total: int, earned: int): real {
    if total > 0 then (earned as real / total as real) * 100.0 else 0.0
  }

  function Capped(score: real, hard: bool): real {
    if hard && score > 60.0 then 60.0 else score
  }

  function AfterChaos(cfg: TunedConfig, score: real, chaos: Option<Chaos>): real {
    if chaos.Some? && chaos.value.active then
      var s := score - PenaltyOf(cfg, chaos.value.mode);
      if s < 0.0 then 0.0 else s
    else score
  }

  predicate NonDeterministic(cert: Option<Certification>) {
    cert.Some? && !cert.value.deterministic
  }

  function Score(cfg: TunedConfig, gates: seq<GateResult>, cert: Option<Certification>, chaos: Option<Chaos>): real {
    if NonDeterministic(cert) then 0.0
    else AfterChaos(cfg, Capped(GateScore(Total(cfg, gates), Earned(cfg, gates)), HardFailed(cfg, gates)), chaos)
  }

  function StatusOf(cfg: TunedConfig, score: real): Status {
    if score >= cfg.thresholdPass then Pass
    else if score >= cfg.thresholdWarn then Warn
    else if score >= cfg.thresholdFail then Fail
    else Block
  }

  function Verdict(cfg: TunedConfig, gates: seq<GateResult>, cert: Option<Certification>, chaos: Option<Chaos>): Status {
    if NonDeterministic(cert) then Block else StatusOf(cfg, Score(cfg, gates, cert, chaos))
  }

  /** One reason for every failed gate, in order. */
  function FailureReasons(gates: seq<GateResult>): seq<string> {
    if gates == [] then []
    else if gates[|gates| - 1].passed then FailureReasons(gates[..|gates| - 1])
    else FailureReasons(gates[..|gates| - 1]) + [gates[|gates| - 1].name + " failed"]
  }

  function Reasons(cfg: TunedConfig, gates: seq<GateResult>, cert: Option<Certification>, chaos: Option<Chaos>): seq<string> {
    if NonDeterministic(cert) then FailureReasons(gates) + ["certification: non-deterministic run"]
    else
      FailureReasons(gates)
      + (if HardFailed(cfg, gates) then ["hard-fail gate triggered: score capped at 60"] else [])
      + (if chaos.Some? && chaos.value.active then ["chaos penalty applied: mode=" + chaos.value.mode] else [])
  }

  function ActionsFor(s: Status, nonDeterministic: bool): seq<Action> {
    match s
    case Pass => [Allow]
    case Warn => [RaiseWarning]
    case Fail => [Retry]
    case Block => if nonDeterministic then [BlockRun] else [BlockRun, Escalate]
  }

  /** The decision that a configuration makes. */
  function DecisionOf(cfg: TunedConfig, gates: seq<GateResult>, cert: Option<Certification>, chaos: Option<Chaos>): Decision {
    var status := Verdict(cfg, gates, cert, chaos);
    Decision(status, Score(cfg, gates, cert, chaos), ActionsFor(status, NonDeterministic(cert)), Reasons(cfg, gates, cert, chaos))
  }

  // ----- What a decision tells

  /** `failed` are the positions of the failed gates among the first `n`, in order. */
  ghost predicate AreFailures(gates: seq<GateResult>, n: nat, failed: seq<nat>)
    requires n <= |gates|
  {
    && (forall k :: 0 <= k < |failed| ==> failed[k] < n && !gates[failed[k]].passed)
    && (forall j, k :: 0 <= j < k < |failed| ==> failed[j] < failed[k])
    && forall i :: 0 <= i < n && !gates[i].passed ==> i in failed
  }

  ghost predicate Name(reasons: seq<string>, gates: seq<GateResult>, failed: seq<nat>) {
    |reasons| == |failed|
    && forall k :: 0 <= k < |failed| ==> failed[k] < |gates| && reasons[k] == gates[failed[k]].name + " failed"
  }

  /** One reason for every failed gate, naming it, in the gates' order. */
  lemma {:induction false} ReasonsAreFailures(gates: seq<GateResult>, n: nat) returns (failed: seq<nat>)
    requires n <= |gates|
    ensures AreFailures(gates, n, failed) && Name(FailureReasons(gates[..n]), gates, failed)
  {
    failed := [];
    if n > 0 {
      failed := ReasonsAreFailures(gates, n - 1);
      assert gates[..n][..n - 1] == gates[..n - 1];
      if !gates[n - 1].passed {
        FailuresNext(gates, n - 1, failed);
        failed := failed + [n - 1];
      }
    }
  }

  lemma FailuresNext(gates: seq<GateResult>, n: nat, failed: seq<nat>)
    requires n < |gates| && !gates[n].passed && AreFailures(gates, n, failed)
    ensures AreFailures(gates, n + 1, failed + [n])
  {
  }

  /** What is said after the failed gates: of the certification, or else of cap and penalty. */
  function LateReasons(capped: bool, cert: Option<Certification>, chaos: Option<Chaos>): seq<string> {
    if cert.Some? && !cert.value.deterministic then ["certification: non-deterministic run"]
    else if chaos == None || !chaos.value.active then
      if capped then ["hard-fail gate triggered: score capped at 60"] else []
    else
      var penalty := "chaos penalty applied: mode=" + chaos.value.mode;
      if capped then ["hard-fail gate triggered: score capped at 60", penalty] else [penalty]
  }

  /** The whole list of reasons: the failed gates, then the rest. */
  ghost predicate ReasonsTell(d: Decision, cfg: TunedConfig, gates: seq<GateResult>, failed: seq<nat>,
                              cert: Option<Certification>, chaos: Option<Chaos>) {
    && |failed| <= |d.reasoning| && Name(d.reasoning[..|failed|], gates, failed)
    && d.reasoning[|failed|..] == LateReasons(exists i :: i in failed && i < |gates| && IsHardFail(cfg, gates[i].name), cert, chaos)
  }

  lemma ReasonsSplit(cfg: TunedConfig, gates: seq<GateResult>, cert: Option<Certification>, chaos: Option<Chaos>)
    ensures Reasons(cfg, gates, cert, chaos) == FailureReasons(gates) + LateReasons(HardFailed(cfg, gates), cert, chaos)
  {
  }

  lemma HardFailIsFailure(cfg: TunedConfig, gates: seq<GateResult>, failed: seq<nat>)
    requires AreFailures(gates, |gates|, failed)
    ensures HardFailed(cfg, gates) <==> exists i :: i in failed && i < |gates| && IsHardFail(cfg, gates[i].name)
  {
    if HardFailed(cfg, gates) {
      var g :| g in gates && !g.passed && IsHardFail(cfg, g.name);
      var i: nat :| i < |gates| && gates[i] == g;
      assert i in failed;
    }
    if i :| i in failed && i < |gates| && IsHardFail(cfg, gates[i].name) {
      assert gates[i] in gates;
    }
  }

  lemma Parts<T>(a: seq<T>, b: seq<T>)
    ensures (a + b)[..|a|] == a && (a + b)[|a|..] == b
  {
  }

  /** Actions follow the status; a blocked run is escalated unless it was blocked for being non-deterministic. */
  predicate ActionsTell(d: Decision, cert: Option<Certification>) {
    && (Allow in d.actions <==> d.status == Pass)
    && (RaiseWarning in d.actions <==> d.status == Warn)
    && (Retry in d.actions <==> d.status == Fail)
    && (BlockRun in d.actions <==> d.status == Block)
    && (Escalate in d.actions <==> d.status == Block && !(cert.Some? && !cert.value.deterministic))
    && d.actions != [] && d.actions[0] != Escalate && |d.actions| <= 2
  }

  lemma ActionsFollow(s: Status, cert: Option<Certification>, d: Decision)
    requires d.status == s && d.actions == ActionsFor(s, NonDeterministic(cert)) && (NonDeterministic(cert) ==> s == Block)
    ensures ActionsTell(d, cert)
  {
  }

  /** The status by the configuration's thresholds, unless the run was non-deterministic. */
  predicate StatusTells(d: Decision, cfg: TunedConfig, cert: Option<Certification>) {
    if cert.Some? && !cert.value.deterministic then d.status == Block && d.score == 0.0
    else
      && (d.status == Pass <==> d.score >= cfg.thresholdPass)
      && (d.status == Warn <==> cfg.thresholdWarn <= d.score < cfg.thresholdPass)
      && (d.status == Fail <==> cfg.thresholdFail <= d.score < cfg.thresholdPass && d.score < cfg.thresholdWarn)
  }

  /** The score without chaos, by products: the earned share of a hundred, or sixty if that is less and a hard-fail gate failed. */
  predicate ShareTells(score: real, total: int, earned: int, hard: bool) {
    if total <= 0 then score == 0.0
    else
      && score * total as real <= 100.0 * earned as real
      && (hard ==> score <= 60.0)
      && (score * total as real == 100.0 * earned as real || (hard && score == 60.0))
  }

  lemma QuotientTells(total: int, earned: int)
    requires total > 0
    ensures GateScore(total, earned) * total as real == 100.0 * earned as real
  {
    var t, e := total as real, earned as real;
    assert (e / t) * t == e;
    assert ((e / t) * 100.0) * t == 100.0 * ((e / t) * t);
  }

  lemma LessTimes(a: real, b: real, t: real)
    requires a <= b && t > 0.0
    ensures a * t <= b * t
  {
    assert (b - a) * t >= 0.0;
  }

  lemma CappedTells(total: int, earned: int, hard: bool)
    ensures ShareTells(Capped(GateScore(total, earned), hard), total, earned, hard)
  {
    if total > 0 {
      QuotientTells(total, earned);
      LessTimes(Capped(GateScore(total, earned), hard), GateScore(total, earned), total as real);
    }
  }

  /** Active chaos takes its penalty off the score that would be given without it, down to zero at most; other chaos changes nothing. */
  lemma ScoreTells(cfg: TunedConfig, gates: seq<GateResult>, cert: Option<Certification>, chaos: Option<Chaos>)
    requires !(cert.Some? && !cert.value.deterministic)
    ensures var s, calm := Score(cfg, gates, cert, chaos), Score(cfg, gates, cert, None);
            && ShareTells(calm, Total(cfg, gates), Earned(cfg, gates), HardFailed(cfg, gates))
            && (chaos.Some? && chaos.value.active ==>
                  s >= 0.0 && s >= calm - PenaltyOf(cfg, chaos.value.mode) && (s == 0.0 || s == calm - PenaltyOf(cfg, chaos.value.mode)))
            && (!(chaos.Some? && chaos.value.active) ==> s == calm)
  {
    CappedTells(Total(cfg, gates), Earned(cfg, gates), HardFailed(cfg, gates));
  }

  lemma DecisionTells(cfg: TunedConfig, gates: seq<GateResult>, cert: Option<Certification>, chaos: Option<Chaos>) returns (failed: seq<nat>)
    ensures AreFailures(gates, |gates|, failed) && ReasonsTell(DecisionOf(cfg, gates, cert, chaos), cfg, gates, failed, cert, chaos)
    ensures ActionsTell(DecisionOf(cfg, gates, cert, chaos), cert)
    ensures StatusTells(DecisionOf(cfg, gates, cert, chaos), cfg, cert)
  {
    failed := ReasonsAreFailures(gates, |gates|);
    assert gates[..|gates|] == gates;
    ReasonsSplit(cfg, gates, cert, chaos);
    HardFailIsFailure(cfg, gates, failed);
    Parts(FailureReasons(gates), LateReasons(HardFailed(cfg, gates), cert, chaos));
    ActionsFollow(Verdict(cfg, gates, cert, chaos), cert, DecisionOf(cfg, gates, cert, chaos));
  }

  /** The loop over the gates. */
  method TallyGates(cfg: TunedConfig, gates: seq<GateResult>) returns (total: int, earned: int, hard: bool, reasoning: seq<string>)
    ensures total == Total(cfg, gates) && earned == Earned(cfg, gates) && hard == HardFailed(cfg, gates)
    ensures reasoning == FailureReasons(gates)
  {
    total, earned, hard, reasoning := 0, 0, false, [];
    for i := 0 to |gates|
      invariant total == Total(cfg, gates[..i]) && earned == Earned(cfg, gates[..i])
      invariant hard <==> HardFailed(cfg, gates[..i])
      invariant reasoning == FailureReasons(gates[..i])
    {
      var g := gates[i];
      assert gates[..i + 1][..i] == gates[..i] && gates[..i + 1] == gates[..i] + [g];
      var weight := WeightOf(cfg, g.name);
      total := total + weight;
      if g.passed {
        earned := earned + weight;
      } else {
        reasoning := reasoning + [g.name + " failed"];
        if IsHardFail(cfg, g.name) {
          hard := true;
        }
      }
    }
    assert gates[..|gates|] == gates;
  }

  /** The decision on an engine's active configuration. */
  method Evaluate(cfg: TunedConfig, gates: seq<GateResult>, cert: Option<Certification>, chaos: Option<Chaos>) returns (d: Decision)
    ensures d == DecisionOf(cfg, gates, cert, chaos)
  {
    var totalWeight, earnedWeight, hardFailTriggered, reasoning := TallyGates(cfg, gates);
    var score := 0.0;
    if totalWeight > 0 {
      score := (earnedWeight as real / totalWeight as real) * 100.0;
    }
    if cert.Some? && !cert.value.deterministic {
      return Decision(Block, 0.0, [BlockRun], reasoning + ["certification: non-deterministic run"]);
    }
    if hardFailTriggered {
      if score > 60.0 {
        score := 60.0;
      }
      reasoning := reasoning + ["hard-fail gate triggered: score capped at 60"];
    }
    if chaos.Some? && chaos.value.active {
      score := score - PenaltyOf(cfg, chaos.value.mode);
      if score < 0.0 {
        score := 0.0;
      }
      reasoning := reasoning + ["chaos penalty applied: mode=" + chaos.value.mode];
    }
    d := Decide(cfg, score, reasoning);
  }

  /** The thresholds, from the top down. */
  method Decide(cfg: TunedConfig, score: real, reasoning: seq<string>) returns (d: Decision)
    ensures d.score == score && d.status == StatusOf(cfg, score) && d.actions == ActionsFor(d.status, false)
    ensures d.reasoning == reasoning
  {
    if score >= cfg.thresholdPass {
      return Decision(Pass, score, [Allow], reasoning);
    } else if score >= cfg.thresholdWarn {
      return Decision(Warn, score, [RaiseWarning], reasoning);
    } else if score >= cfg.thresholdFail {
      return Decision(Fail, score, [Retry], reasoning);
    }
    return Decision(Block, score, [BlockRun, Escalate], reasoning);
  }

  // ----- Bounds and monotonicity

  ghost predicate NonNegative(cfg: TunedConfig) {
    && (cfg.gateWeights.Some? ==> forall n :: n in cfg.gateWeights.value ==> cfg.gateWeights.value[n] >= 0)
    && (cfg.chaosPenalties.Some? ==> forall m :: m in cfg.chaosPenalties.value ==> cfg.chaosPenalties.value[m] >= 0.0)
  }

  /** The same gates, and every gate that passes in `a` passes in `b`. */
  ghost predicate Improves(a: seq<GateResult>, b: seq<GateResult>) {
    |a| == |b| && forall i :: 0 <= i < |a| ==> a[i].name == b[i].name && (a[i].passed ==> b[i].passed)
  }

  lemma {:induction false} TallyImproves(cfg: TunedConfig, a: seq<GateResult>, b: seq<GateResult>)
    requires NonNegative(cfg) && Improves(a, b)
    ensures Total(cfg, a) == Total(cfg, b) && 0 <= Earned(cfg, a) <= Earned(cfg, b) <= Total(cfg, b)
  {
    if a != [] {
      TallyImproves(cfg, a[..|a| - 1], b[..|b| - 1]);
    }
  }

  lemma HardFailImproves(cfg: TunedConfig, a: seq<GateResult>, b: seq<GateResult>)
    requires Improves(a, b)
    ensures HardFailed(cfg, b) ==> HardFailed(cfg, a)
  {
    if HardFailed(cfg, b) {
      var g :| g in b && !g.passed && IsHardFail(cfg, g.name);
      var i :| 0 <= i < |b| && b[i] == g;
      assert a[i] in a && !a[i].passed && IsHardFail(cfg, a[i].name);
    }
  }

  lemma GateScoreBounds(total: int, low: int, high: int)
    requires 0 <= low <= high <= total
    ensures 0.0 <= GateScore(total, low) <= GateScore(total, high) <= 100.0
  {
    if total > 0 {
      var t := total as real;
      QuotientMonotone(0.0, low as real, t);
      QuotientMonotone(low as real, high as real, t);
      QuotientMonotone(high as real, t, t);
    }
  }

  lemma QuotientMonotone(x: real, y: real, t: real)
    requires 0.0 <= x <= y && t > 0.0
    ensures x / t <= y / t && 0.0 / t == 0.0 && t / t == 1.0
  {
    var p, q := x / t, y / t;
    assert p * t == x && q * t == y;
    assert (p - q) * t == x - y;
    if p > q {
      PositiveProduct(p - q, t);
    }
  }

  lemma PositiveProduct(a: real, b: real)
    requires a > 0.0 && b > 0.0
    ensures a * b > 0.0
  {
  }

  function Rank(s: Status): int {
    match s case Block => 0 case Fail => 1 case Warn => 2 case Pass => 3
  }

  /**
   With non-negative weights and penalties the score lies between 0 and 100, and turning failed
   gates into passed ones never lowers it and never worsens the status, whatever the thresholds.
   */
  lemma ScoreMonotone(cfg: TunedConfig, a: seq<GateResult>, b: seq<GateResult>, cert: Option<Certification>, chaos: Option<Chaos>)
    requires NonNegative(cfg) && Improves(a, b)
    ensures 0.0 <= Score(cfg, a, cert, chaos) <= Score(cfg, b, cert, chaos) <= 100.0
    ensures Rank(Verdict(cfg, a, cert, chaos)) <= Rank(Verdict(cfg, b, cert, chaos))
  {
    TallyImproves(cfg, a, b);
    HardFailImproves(cfg, a, b);
    GateScoreBounds(Total(cfg, a), Earned(cfg, a), Earned(cfg, b));
  }
}
