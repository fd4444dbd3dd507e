/** The configuration store: smoothed updates, bounded undo, drift of the recent scores. */
module ConfigStores {
  import opened Wrappers
  import opened PolicyEngine
  import opened AntiCollapse
  import OnlineStats

  const MAX_HISTORY: nat := 10
  const EMA_ALPHA := 0.3

  /** A floating-point level, of which only "not a number" is kept apart from the reals. */
  datatype Level = Number(value: real) | NotANumber

  predicate Above(l: Level, bound: real) {
    l.Number? && l.value > bound
  }

  predicate AtMost(l: Level, bound: real) {
    l.Number? && l.value <= bound
  }

  /** `min(1, root / mean * 10)`: a zero divisor gives not-a-number for 0/0 and otherwise infinity, capped to 1. */
  function Instability(mean: real, root: real): Level {
    if mean == 0.0 then (if root == 0.0 then NotANumber else Number(1.0))
    else if root / mean * 10.0 < 1.0 then Number(root / mean * 10.0)
    else Number(1.0)
  }

  /** The drift level after a sequence of scores; before the fifth it is zero. */
  function Drift(scores: seq<real>, sqrt: real -> real): Level {
    if |scores| < 5 then Number(0.0) else Instability(Mean(scores), sqrt(Variance(scores)))
  }

  function AlphaFor(l: Level): real {
    if Above(l, 0.5) then EMA_ALPHA * 0.3 else EMA_ALPHA
  }

  // ----- Configuration and history as a value

  datatype Memory = Memory(config: TunedConfig, history: seq<TunedConfig>)

  function Ema(old_: real, new_: real, alpha: real): real {
    alpha * new_ + (1.0 - alpha) * old_
  }

  function OrElse<T>(proposed: Option<T>, kept: Option<T>): Option<T> {
    if proposed.Some? then proposed else kept
  }

  function Smoothed(c: TunedConfig, cfg: TunedConfig, alpha: real): TunedConfig {
    TunedConfig(OrElse(cfg.gateWeights, c.gateWeights), OrElse(cfg.chaosPenalties, c.chaosPenalties),
                Ema(c.thresholdPass, cfg.thresholdPass, alpha), Ema(c.thresholdWarn, cfg.thresholdWarn, alpha),
                Ema(c.thresholdFail, cfg.thresholdFail, alpha), OrElse(cfg.hardFailGates, c.hardFailGates))
  }

  function Newest(h: seq<TunedConfig>, n: nat): seq<TunedConfig> {
    if |h| <= n then h else h[|h| - n..]
  }

  function Updated(m: Memory, cfg: TunedConfig, alpha: real): Memory {
    Memory(Smoothed(m.config, cfg, alpha), Newest(m.history + [m.config], MAX_HISTORY))
  }

  function RolledBack(m: Memory): Memory {
    if m.history == [] then m else Memory(m.history[|m.history| - 1], m.history[..|m.history| - 1])
  }

  class ConfigStore {
    var config: TunedConfig
    var history: seq<TunedConfig>
    var scoreVariance: real
    var scoreMean: real
    var scoreCount: nat
    var instability: Level
    const sqrt: real -> real
    ghost var scores: seq<real>

    /** The running figures are the two-pass figures of every score fed so far. */
    ghost predicate Valid()
      reads this
    {
      && |history| <= MAX_HISTORY
      && scoreCount == |scores|
      && scoreMean == Mean(scores)
      && scoreVariance == Variance(scores)
      && instability == Drift(scores, sqrt)
    }

    function Contents(): Memory
      reads this
    {
      Memory(config, history)
    }

    constructor (initial: TunedConfig, sqrt: real -> real)
      ensures Valid() && Contents() == Memory(initial, []) && scores == [] && this.sqrt == sqrt
    {
      config, history := initial, [];
      scoreVariance, scoreMean, scoreCount, instability := 0.0, 0.0, 0, Number(0.0);
      this.sqrt := sqrt;
      scores := [];
    }

    method UpdateScore(score: real)
      requires Valid()
      modifies this
      ensures Valid() && scores == old(scores) + [score] && Contents() == old(Contents())
    {
      scores := scores + [score];
      scoreCount := scoreCount + 1;
      if scoreCount == 1 {
        scoreMean := score;
        SingleScore(score);
        return;
      }
      scoreMean, scoreVariance := OnlineStats.Welford(scoreCount, scoreMean, scoreVariance, score, old(scores));
      if scoreCount >= 5 {
        instability := Instability(scoreMean, sqrt(scoreVariance));
      }
    }

    method ShouldUpdate() returns (b: bool)
      requires Valid()
      ensures b == (|scores| >= 5 && AtMost(Drift(scores, sqrt), 0.5))
    {
      if scoreCount < 5 {
        return false;
      }
      return AtMost(instability, 0.5);
    }

    method AdaptiveAlpha() returns (alpha: real)
      requires Valid()
      ensures alpha == AlphaFor(Drift(scores, sqrt))
    {
      if Above(instability, 0.5) {
        return EMA_ALPHA * 0.3;
      }
      return EMA_ALPHA;
    }

    method Smooth(cfg: TunedConfig, alpha: real)
      modifies this`config
      ensures config == Smoothed(old(config), cfg, alpha)
    {
      config := config.(thresholdPass := Ema(config.thresholdPass, cfg.thresholdPass, alpha));
      config := config.(thresholdWarn := Ema(config.thresholdWarn, cfg.thresholdWarn, alpha));
      config := config.(thresholdFail := Ema(config.thresholdFail, cfg.thresholdFail, alpha));
      if cfg.gateWeights.Some? {
        config := config.(gateWeights := cfg.gateWeights);
      }
      if cfg.chaosPenalties.Some? {
        config := config.(chaosPenalties := cfg.chaosPenalties);
      }
      if cfg.hardFailGates.Some? {
        config := config.(hardFailGates := cfg.hardFailGates);
      }
    }

    method Update(cfg: TunedConfig)
      requires Valid()
      modifies this`config, this`history
      ensures Valid() && Contents() == Updated(old(Contents()), cfg, AlphaFor(Drift(scores, sqrt)))
    {
      history := history + [config];
      if |history| > MAX_HISTORY {
        history := history[|history| - MAX_HISTORY..];
      }
      var alpha := EMA_ALPHA;
      if Above(instability, 0.5) {
        alpha := EMA_ALPHA * 0.3;
      }
      Smooth(cfg, alpha);
    }

    method Rollback() returns (done: bool)
      requires Valid()
      modifies this`config, this`history
      ensures Valid() && Contents() == RolledBack(old(Contents())) && done == (old(history) != [])
    {
      if |history| == 0 {
        return false;
      }
      config := history[|history| - 1];
      history := history[..|history| - 1];
      return true;
    }
  }

  lemma SingleScore(x: real)
    ensures Mean([x]) == x
  {
    assert [x][..0] == [];
    assert Sum([x]) == x;
  }

  // ----- What the drift level decides, without square roots

  /** Spread over mean above one part in twenty; a zero mean counts as unsteady unless nothing varies. */
  predicate Unsteady(scores: seq<real>) {
    var m, v := Mean(scores), Variance(scores);
    |scores| >= 5 && ((m > 0.0 && 400.0 * v > m * m) || (m == 0.0 && v > 0.0))
  }

  /** The smaller smoothing factor is used exactly for unsteady scores, a negative mean never counting as such. */
  lemma SlowdownIff(scores: seq<real>, sqrt: real -> real)
    requires RootOf(sqrt(Variance(scores)), Variance(scores))
    ensures Above(Drift(scores, sqrt), 0.5) <==> Unsteady(scores)
  {
    LevelIff(Mean(scores), sqrt(Variance(scores)), Variance(scores));
  }

  /** Updates are advised from the fifth score on while the scores are steady, a zero mean excluded altogether. */
  lemma ShouldUpdateIff(scores: seq<real>, sqrt: real -> real)
    requires RootOf(sqrt(Variance(scores)), Variance(scores)) && |scores| >= 5
    ensures AtMost(Drift(scores, sqrt), 0.5) <==> Mean(scores) != 0.0 && !Unsteady(scores)
  {
    LevelIff(Mean(scores), sqrt(Variance(scores)), Variance(scores));
  }

  lemma LevelIff(m: real, root: real, v: real)
    requires RootOf(root, v)
    ensures Above(Instability(m, root), 0.5) <==> (m > 0.0 && 400.0 * v > m * m) || (m == 0.0 && v > 0.0)
    ensures AtMost(Instability(m, root), 0.5) <==> m != 0.0 && !(m > 0.0 && 400.0 * v > m * m)
  {
    if m > 0.0 {
      RatioIff(m, root);
      SquareOrder(m, 20.0 * root);
      assert (20.0 * root) * (20.0 * root) == 400.0 * (root * root);
    } else if m < 0.0 {
      NegativeRatio(m, root);
    } else {
      SquareOfRoot(root, v);
    }
  }

  lemma SquareOfRoot(root: real, v: real)
    requires RootOf(root, v)
    ensures v > 0.0 <==> root > 0.0
  {
    if root > 0.0 {
      assert v / root == root;
    } else {
      assert root == 0.0;
    }
  }

  lemma RatioIff(m: real, root: real)
    requires m > 0.0
    ensures root / m * 10.0 > 0.5 <==> 20.0 * root > m
  {
    var q := root / m;
    assert q * m == root;
    if q > 0.05 {
      assert (q - 0.05) * m > 0.0;
    } else {
      assert (0.05 - q) * m >= 0.0;
    }
  }

  lemma NegativeRatio(m: real, root: real)
    requires m < 0.0 && root >= 0.0
    ensures root / m <= 0.0
  {
    var q := root / m;
    assert q * m == root;
    assert q > 0.0 ==> q * (-m) > 0.0;
  }

  // ----- Does the level stay between 0 and 1?

  predicate InUnitRange(l: Level) {
    l.Number? && 0.0 <= l.value <= 1.0
  }

  /** From the fifth score on, the level is a number between 0 and 1 exactly for these means and variances. */
  predicate HasUnitLevel(m: real, v: real) {
    m > 0.0 || (m == 0.0 && v > 0.0) || (m < 0.0 && v == 0.0)
  }

  lemma LevelRangeIff(scores: seq<real>, sqrt: real -> real)
    requires RootOf(sqrt(Variance(scores)), Variance(scores))
    ensures InUnitRange(Drift(scores, sqrt)) <==> |scores| < 5 || HasUnitLevel(Mean(scores), Variance(scores))
  {
    InstabilityRange(Mean(scores), sqrt(Variance(scores)), Variance(scores));
  }

  lemma InstabilityRange(m: real, root: real, v: real)
    requires RootOf(root, v)
    ensures InUnitRange(Instability(m, root)) <==> HasUnitLevel(m, v)
  {
    SquareOfRoot(root, v);
    if m != 0.0 {
      RatioSign(m, root);
    }
  }

  lemma RatioSign(m: real, root: real)
    requires m != 0.0 && root >= 0.0
    ensures root / m >= 0.0 <==> m > 0.0 || root == 0.0
    ensures root == 0.0 ==> root / m == 0.0
  {
    var q := root / m;
    assert q * m == root;
    if m > 0.0 {
      assert q < 0.0 ==> (-q) * m > 0.0;
    } else {
      NegativeRatio(m, root);
    }
  }

  /** Five scores of zero, as five non-deterministic runs give, have no level at all: 0/0. */
  lemma FiveZeros(sqrt: real -> real)
    requires RootOf(sqrt(0.0), 0.0)
    ensures Drift([0.0, 0.0, 0.0, 0.0, 0.0], sqrt) == NotANumber
  {
    var scores := [0.0, 0.0, 0.0, 0.0, 0.0];
    ConstantWindow(scores, 0.0);
    SumOfConstant(scores, 0.0);
    assert Mean(scores) == 0.0;
    SquareOfRoot(sqrt(0.0), 0.0);
  }

  /** Five scores around a negative mean have a negative level, unless they are all equal. */
  lemma NegativeLevel(scores: seq<real>, sqrt: real -> real)
    requires RootOf(sqrt(Variance(scores)), Variance(scores))
    requires |scores| >= 5 && Mean(scores) < 0.0 && Variance(scores) > 0.0
    ensures Drift(scores, sqrt).Number? && Drift(scores, sqrt).value < 0.0
  {
    SquareOfRoot(sqrt(Variance(scores)), Variance(scores));
    RatioSign(Mean(scores), sqrt(Variance(scores)));
  }

  // ----- Thresholds over whole runs

  lemma EmaOrder(lo: real, a: real, b: real, c: real, d: real, hi: real, alpha: real)
    requires 0.0 <= alpha <= 1.0 && lo <= a <= b <= hi && lo <= c <= d <= hi
    ensures lo <= Ema(a, c, alpha) <= Ema(b, d, alpha) <= hi
  {
    EmaMonotone(lo, a, lo, c, alpha);
    EmaMonotone(a, b, c, d, alpha);
    EmaMonotone(b, hi, d, hi, alpha);
    assert alpha * lo + (1.0 - alpha) * lo == lo && alpha * hi + (1.0 - alpha) * hi == hi;
  }

  lemma EmaMonotone(a: real, b: real, c: real, d: real, alpha: real)
    requires 0.0 <= alpha <= 1.0 && a <= b && c <= d
    ensures Ema(a, c, alpha) <= Ema(b, d, alpha)
  {
    var up, along := alpha * (d - c), (1.0 - alpha) * (b - a);
    ProductNonNegative(alpha, d - c);
    ProductNonNegative(1.0 - alpha, b - a);
    assert Ema(b, d, alpha) == Ema(a, c, alpha) + up + along;
  }

  // ----- How far one update goes

  /** The way from `old_` to `proposed` that an update covers: three tenths, or nine hundredths when it is slowed down. */
  predicate MovesBy(old_: real, proposed: real, new_: real, slow: bool) {
    if slow then 100.0 * (new_ - old_) == 9.0 * (proposed - old_) else 10.0 * (new_ - old_) == 3.0 * (proposed - old_)
  }

  lemma EmaMoves(old_: real, proposed: real, l: Level)
    ensures MovesBy(old_, proposed, Ema(old_, proposed, AlphaFor(l)), Above(l, 0.5))
  {
  }

  /** What an update leaves, decided by the scores alone: the thresholds on their way, and the maps that were proposed. */
  lemma UpdateMoves(m: Memory, cfg: TunedConfig, scores: seq<real>, sqrt: real -> real)
    requires RootOf(sqrt(Variance(scores)), Variance(scores))
    ensures var c, slow := Updated(m, cfg, AlphaFor(Drift(scores, sqrt))).config, Unsteady(scores);
            && MovesBy(m.config.thresholdPass, cfg.thresholdPass, c.thresholdPass, slow)
            && MovesBy(m.config.thresholdWarn, cfg.thresholdWarn, c.thresholdWarn, slow)
            && MovesBy(m.config.thresholdFail, cfg.thresholdFail, c.thresholdFail, slow)
            && c.gateWeights == (if cfg.gateWeights == None then m.config.gateWeights else cfg.gateWeights)
            && c.chaosPenalties == (if cfg.chaosPenalties == None then m.config.chaosPenalties else cfg.chaosPenalties)
            && c.hardFailGates == (if cfg.hardFailGates == None then m.config.hardFailGates else cfg.hardFailGates)
  {
    SlowdownIff(scores, sqrt);
    EmaMoves(m.config.thresholdPass, cfg.thresholdPass, Drift(scores, sqrt));
    EmaMoves(m.config.thresholdWarn, cfg.thresholdWarn, Drift(scores, sqrt));
    EmaMoves(m.config.thresholdFail, cfg.thresholdFail, Drift(scores, sqrt));
  }

  datatype Op = Propose(cfg: TunedConfig, alpha: real) | Undo

  function Do(m: Memory, op: Op): Memory {
    if op.Propose? then Updated(m, op.cfg, op.alpha) else RolledBack(m)
  }

  function DoAll(m: Memory, ops: seq<Op>): Memory {
    if ops == [] then m else Do(DoAll(m, ops[..|ops| - 1]), ops[|ops| - 1])
  }

  predicate InOrder(c: TunedConfig, lo: real, hi: real) {
    lo <= c.thresholdFail <= c.thresholdWarn <= c.thresholdPass <= hi
  }

  predicate AllInOrder(m: Memory, lo: real, hi: real) {
    InOrder(m.config, lo, hi) && forall c :: c in m.history ==> InOrder(c, lo, hi)
  }

  predicate SaneOp(op: Op, lo: real, hi: real) {
    op.Propose? ==> InOrder(op.cfg, lo, hi) && 0.0 <= op.alpha <= 1.0
  }

  lemma StepInOrder(m: Memory, op: Op, lo: real, hi: real)
    requires AllInOrder(m, lo, hi) && SaneOp(op, lo, hi)
    ensures AllInOrder(Do(m, op), lo, hi)
  {
    if op.Propose? {
      var c, p, a := m.config, op.cfg, op.alpha;
      EmaOrder(lo, c.thresholdFail, c.thresholdWarn, p.thresholdFail, p.thresholdWarn, hi, a);
      EmaOrder(lo, c.thresholdWarn, c.thresholdPass, p.thresholdWarn, p.thresholdPass, hi, a);
    }
  }

  /** No run of updates and rollbacks disorders the thresholds or leaves the range of what was proposed. */
  lemma {:induction false} RunInOrder(m: Memory, ops: seq<Op>, lo: real, hi: real)
    requires AllInOrder(m, lo, hi) && forall op :: op in ops ==> SaneOp(op, lo, hi)
    ensures AllInOrder(DoAll(m, ops), lo, hi)
  {
    if ops != [] {
      var n := |ops| - 1;
      RunInOrder(m, ops[..n], lo, hi);
      StepInOrder(DoAll(m, ops[..n]), ops[n], lo, hi);
    }
  }

  // ----- The same proposal again and again

  function Repeated(cfg: TunedConfig, slow: seq<bool>): seq<Op> {
    seq(|slow|, i requires 0 <= i < |slow| => Propose(cfg, if slow[i] then 0.09 else 0.3))
  }

  /** The part of the way that is left after these updates. */
  function Left(slow: seq<bool>): real {
    if slow == [] then 1.0 else Left(slow[..|slow| - 1]) * (if slow[|slow| - 1] then 0.91 else 0.7)
  }

  /** What is left between `x` and `proposed` is this part of the way from `start`. */
  predicate LeftOver(x: real, proposed: real, start: real, part: real) {
    x - proposed == part * (start - proposed)
  }

  predicate AllLeftOver(c: TunedConfig, cfg: TunedConfig, start: TunedConfig, part: real) {
    && LeftOver(c.thresholdPass, cfg.thresholdPass, start.thresholdPass, part)
    && LeftOver(c.thresholdWarn, cfg.thresholdWarn, start.thresholdWarn, part)
    && LeftOver(c.thresholdFail, cfg.thresholdFail, start.thresholdFail, part)
  }

  lemma LeftNext(x: real, proposed: real, start: real, part: real, alpha: real)
    requires LeftOver(x, proposed, start, part)
    ensures LeftOver(Ema(x, proposed, alpha), proposed, start, part * (1.0 - alpha))
  {
    assert Ema(x, proposed, alpha) - proposed == (1.0 - alpha) * (x - proposed);
  }

  lemma AllLeftNext(c: TunedConfig, cfg: TunedConfig, start: TunedConfig, part: real, alpha: real)
    requires AllLeftOver(c, cfg, start, part)
    ensures AllLeftOver(Smoothed(c, cfg, alpha), cfg, start, part * (1.0 - alpha))
  {
    LeftNext(c.thresholdPass, cfg.thresholdPass, start.thresholdPass, part, alpha);
    LeftNext(c.thresholdWarn, cfg.thresholdWarn, start.thresholdWarn, part, alpha);
    LeftNext(c.thresholdFail, cfg.thresholdFail, start.thresholdFail, part, alpha);
  }

  lemma RepeatedNext(m: Memory, cfg: TunedConfig, slow: seq<bool>)
    requires slow != []
    ensures var front, alpha := slow[..|slow| - 1], if slow[|slow| - 1] then 0.09 else 0.3;
            && DoAll(m, Repeated(cfg, slow)) == Updated(DoAll(m, Repeated(cfg, front)), cfg, alpha)
            && Left(slow) == Left(front) * (1.0 - alpha)
  {
    assert Repeated(cfg, slow)[..|slow| - 1] == Repeated(cfg, slow[..|slow| - 1]);
  }

  /** Repeating a proposal brings every threshold nearer to it, by the same factor, however the smoothing varies. */
  lemma {:induction false} RepeatedProposal(m: Memory, cfg: TunedConfig, slow: seq<bool>)
    ensures AllLeftOver(DoAll(m, Repeated(cfg, slow)).config, cfg, m.config, Left(slow))
  {
    if slow != [] {
      var n := |slow| - 1;
      RepeatedProposal(m, cfg, slow[..n]);
      RepeatedNext(m, cfg, slow);
      AllLeftNext(DoAll(m, Repeated(cfg, slow[..n])).config, cfg, m.config, Left(slow[..n]), if slow[n] then 0.09 else 0.3);
    }
  }

  // ----- Bounded undo against unlimited undo

  /** The same operations with a history that forgets nothing. */
  function DoUnlimited(m: Memory, op: Op): Memory {
    if op.Propose? then Memory(Smoothed(m.config, op.cfg, op.alpha), m.history + [m.config]) else RolledBack(m)
  }

  function DoAllUnlimited(m: Memory, ops: seq<Op>): Memory {
    if ops == [] then m else DoUnlimited(DoAllUnlimited(m, ops[..|ops| - 1]), ops[|ops| - 1])
  }

  predicate IsSuffix(a: seq<TunedConfig>, b: seq<TunedConfig>) {
    |a| <= |b| && a == b[|b| - |a|..]
  }

  /** Every rollback of the run finds something to restore, or nothing was left to restore in the first place. */
  predicate RollbacksHold(m: Memory, u: Memory, ops: seq<Op>) {
    ops == [] || (
      && RollbacksHold(m, u, ops[..|ops| - 1])
      && (ops[|ops| - 1].Undo? && DoAll(m, ops[..|ops| - 1]).history == [] ==> DoAllUnlimited(u, ops[..|ops| - 1]).history == []))
  }

  lemma UndoStep(m: Memory, u: Memory, op: Op)
    requires m.config == u.config && IsSuffix(m.history, u.history) && |m.history| <= 10
    requires op.Undo? && m.history == [] ==> u.history == []
    ensures var m', u' := Do(m, op), DoUnlimited(u, op);
            m'.config == u'.config && IsSuffix(m'.history, u'.history) && |m'.history| <= 10
  {
  }

  /** The bounded store is the unlimited one, its history the newest part, until a rollback fails for lack of memory. */
  lemma {:induction false} UndoRefinesUnlimited(m: Memory, u: Memory, ops: seq<Op>)
    requires m.config == u.config && IsSuffix(m.history, u.history) && |m.history| <= 10
    requires RollbacksHold(m, u, ops)
    ensures var m', u' := DoAll(m, ops), DoAllUnlimited(u, ops);
            m'.config == u'.config && IsSuffix(m'.history, u'.history) && |m'.history| <= 10
  {
    if ops != [] {
      var n := |ops| - 1;
      UndoRefinesUnlimited(m, u, ops[..n]);
      UndoStep(DoAll(m, ops[..n]), DoAllUnlimited(u, ops[..n]), ops[n]);
    }
  }

  // ----- Nested updates and rollbacks

  /** Updates and rollbacks in matching pairs: an update, a bracketed run, its rollback, and what follows. */
  datatype Bracket = Done | Nest(cfg: TunedConfig, alpha: real, inner: Bracket, rest: Bracket)

  function Depth(b: Bracket): nat {
    match b
    case Done => 0
    case Nest(_, _, inner, rest) => if Depth(inner) + 1 >= Depth(rest) then Depth(inner) + 1 else Depth(rest)
  }

  function DoBracket(m: Memory, b: Bracket): Memory
    decreases b
  {
    match b
    case Done => m
    case Nest(cfg, alpha, inner, rest) => DoBracket(RolledBack(DoBracket(Updated(m, cfg, alpha), inner)), rest)
  }

  /** Pairs nested at most ten deep restore the configuration exactly and keep the older memories that still fit. */
  lemma {:induction false} NestedUndoRestores(m: Memory, b: Bracket)
    requires |m.history| <= 10 && Depth(b) <= 10
    ensures var m' := DoBracket(m, b);
            && m'.config == m.config
            && IsSuffix(m'.history, m.history)
            && (|m'.history| == |m.history| || |m'.history| >= 10 - Depth(b))
    decreases b
  {
    match b
    case Done =>
    case Nest(cfg, alpha, inner, rest) =>
      var m1 := Updated(m, cfg, alpha);
      NestedUndoRestores(m1, inner);
      var m2 := DoBracket(m1, inner);
      BracketUndo(m, m1.history, m2);
      NestedUndoRestores(RolledBack(m2), rest);
  }

  lemma BracketUndo(m: Memory, h1: seq<TunedConfig>, m2: Memory)
    requires |m.history| <= 10 && h1 == Newest(m.history + [m.config], 10)
    requires IsSuffix(m2.history, h1) && m2.history != []
    ensures RolledBack(m2).config == m.config
    ensures IsSuffix(RolledBack(m2).history, m.history)
  {
    var h := m.history + [m.config];
    assert IsSuffix(m2.history, h);
  }

  // ----- Updates, then as many rollbacks

  function UndoMany(m: Memory, k: nat): Memory
    decreases k
  {
    if k == 0 then m else UndoMany(RolledBack(m), k - 1)
  }

  /** The configurations that a run of proposals saves, oldest first. */
  function Saved(m: Memory, ops: seq<Op>): seq<TunedConfig> {
    if ops == [] then [] else Saved(m, ops[..|ops| - 1]) + [DoAll(m, ops[..|ops| - 1]).config]
  }

  lemma {:induction false} SavedLength(m: Memory, ops: seq<Op>)
    ensures |Saved(m, ops)| == |ops|
    ensures forall i :: 0 <= i < |ops| ==> Saved(m, ops)[i] == DoAll(m, ops[..i]).config
  {
    if ops != [] {
      var n := |ops| - 1;
      SavedLength(m, ops[..n]);
      forall i | 0 <= i < n ensures Saved(m, ops)[i] == DoAll(m, ops[..i]).config {
        assert ops[..n][..i] == ops[..i];
      }
    }
  }

  /** A run of updates leaves the newest ten of the saved configurations. */
  lemma {:induction false} HistoryIsNewest(m: Memory, ops: seq<Op>)
    requires |m.history| <= 10 && forall op :: op in ops ==> op.Propose?
    ensures DoAll(m, ops).history == Newest(m.history + Saved(m, ops), 10)
  {
    if ops == [] {
      assert m.history + [] == m.history;
    } else {
      var n := |ops| - 1;
      HistoryIsNewest(m, ops[..n]);
      var h, c := m.history + Saved(m, ops[..n]), DoAll(m, ops[..n]).config;
      assert m.history + Saved(m, ops) == h + [c];
      assert ops[n] in ops;
      assert Newest(Newest(h, 10) + [c], 10) == Newest(h + [c], 10);
    }
  }

  lemma {:induction false} UndoManyLands(m: Memory, k: nat)
    ensures k == 0 || m.history == [] ==> UndoMany(m, k).config == m.config
    ensures 0 < k <= |m.history| ==> UndoMany(m, k).config == m.history[|m.history| - k]
    ensures k > |m.history| > 0 ==> UndoMany(m, k).config == m.history[0]
    decreases k
  {
    if k != 0 {
      UndoManyLands(RolledBack(m), k - 1);
    }
  }

  lemma UndoAll(m: Memory, k: nat)
    requires k >= |m.history|
    ensures UndoMany(m, k).config == if m.history == [] then m.config else m.history[0]
  {
    UndoManyLands(m, k);
  }

  lemma OldestKept(s: seq<TunedConfig>, n: nat)
    requires n >= 1 && s != []
    ensures Newest(s, n) != [] && Newest(s, n)[0] == s[if |s| <= n then 0 else |s| - n] && |Newest(s, n)| <= |s|
  {
  }

  lemma AllUndone(end: Memory, saved: seq<TunedConfig>, n: nat)
    requires n >= 1 && saved != [] && end.history == Newest(saved, n)
    ensures UndoMany(end, |saved|).config == saved[if |saved| <= n then 0 else |saved| - n]
  {
    OldestKept(saved, n);
    UndoAll(end, |saved|);
  }

  lemma UpdatesUndone(m: Memory, ops: seq<Op>, n: nat)
    requires n >= 1 && ops != [] && DoAll(m, ops).history == Newest(Saved(m, ops), n)
    ensures UndoMany(DoAll(m, ops), |ops|).config == DoAll(m, ops[..if |ops| <= n then 0 else |ops| - n]).config
  {
    SavedLength(m, ops);
    AllUndone(DoAll(m, ops), Saved(m, ops), n);
  }

  lemma FreshHistory(m: Memory, ops: seq<Op>)
    requires m.history == [] && forall op :: op in ops ==> op.Propose?
    ensures DoAll(m, ops).history == Newest(Saved(m, ops), 10)
  {
    HistoryIsNewest(m, ops);
    assert [] + Saved(m, ops) == Saved(m, ops);
  }

  /** After `k` updates on a fresh store, `k` rollbacks undo the last ten of them, and all of them if there were no more. */
  lemma UpdatesThenRollbacks(m: Memory, ops: seq<Op>)
    requires m.history == [] && forall op :: op in ops ==> op.Propose?
    ensures UndoMany(DoAll(m, ops), |ops|).config == DoAll(m, ops[..if |ops| <= 10 then 0 else |ops| - 10]).config
  {
    if ops != [] {
      FreshHistory(m, ops);
      UpdatesUndone(m, ops, 10);
    }
  }
}
