/**
 The stability gate with its adaptive threshold, and when a gate restored from an exported
 state behaves like the original. The square root is a parameter; nothing depends on which.
 */
module StabilityGates {
  import opened AntiCollapse

  type Root = real -> real

  /** A gate with its detector, as a value. */
  datatype Gate = Gate(threshold: real, varianceThreshold: real, adaptiveFactor: real, maxWindow: nat, longWindow: seq<real>,
                       window: seq<real>, size: nat, detectorThreshold: real)

  datatype GateState = GateState(longWindow: seq<real>, detectorWindow: seq<real>, threshold: real, varianceThresh: real,
                                 adaptiveFactor: real, maxWindow: nat)

  function Adaptive(threshold: real, factor: real, longWindow: seq<real>, sqrt: Root): real {
    if |longWindow| >= 2 then
      var t := threshold + factor * sqrt(Variance(longWindow));
      if t > 100.0 then 100.0 else t
    else threshold
  }

  function DynamicThreshold(g: Gate, sqrt: Root): real {
    Adaptive(g.threshold, g.adaptiveFactor, g.longWindow, sqrt)
  }

  /** Both windows after a score. */
  function Admit(g: Gate, score: int): Gate {
    g.(window := Push(g.window, g.size, score as real), longWindow := Push(g.longWindow, g.maxWindow, score as real))
  }

  /** The answer to a score that both windows already hold. */
  predicate Accepts(g: Gate, score: int, sqrt: Root) {
    score as real >= DynamicThreshold(g, sqrt) && Variance(g.window) < g.detectorThreshold
  }

  /** `score` is at least `threshold` plus `factor` roots of `variance`, said without the root. */
  predicate AtLeastRaised(score: real, threshold: real, factor: real, variance: real) {
    var d := score - threshold;
    if factor >= 0.0 then d >= 0.0 && d * d >= factor * factor * variance
    else d >= 0.0 || d * d <= factor * factor * variance
  }

  /** What a gate asks of a score that both its windows already hold. */
  predicate Passes(g: Gate, score: int) {
    && Variance(g.window) < g.detectorThreshold
    && if |g.longWindow| < 2 then score as real >= g.threshold
       else score >= 100 || AtLeastRaised(score as real, g.threshold, g.adaptiveFactor, Variance(g.longWindow))
  }

  lemma SquareOfProduct(f: real, r: real)
    ensures (f * r) * (f * r) == f * f * (r * r)
  {
    assert (f * r) * (f * r) == f * (r * (f * r));
    assert r * (f * r) == f * (r * r);
  }

  lemma ProductSign(f: real, r: real)
    requires r >= 0.0
    ensures f >= 0.0 ==> f * r >= 0.0
    ensures f <= 0.0 ==> f * r <= 0.0
  {
  }

  lemma AtLeastRaisedIff(score: real, threshold: real, factor: real, root: real, variance: real)
    requires RootOf(root, variance)
    ensures score >= threshold + factor * root <==> AtLeastRaised(score, threshold, factor, variance)
  {
    var d, p := score - threshold, factor * root;
    SquareOfProduct(factor, root);
    ProductSign(factor, root);
    ReachesIff(d, p);
  }

  /** Squares decide, for a rise and for a fall `p`. */
  lemma ReachesIff(d: real, p: real)
    ensures p >= 0.0 ==> (d >= p <==> d >= 0.0 && d * d >= p * p)
    ensures p <= 0.0 ==> (d >= p <==> d >= 0.0 || d * d <= p * p)
  {
    NegatedSquare(d);
    NegatedSquare(p);
    if p >= 0.0 && d >= 0.0 {
      SquareOrder(d, p);
    }
    if p <= 0.0 && d <= 0.0 {
      SquareOrder(-p, -d);
    }
  }

  lemma NegatedSquare(x: real)
    ensures (-x) * (-x) == x * x
  {
  }

  /** The answer without roots, whichever way the square root is taken. */
  lemma AcceptsIff(g: Gate, score: int, sqrt: Root)
    requires |g.longWindow| >= 2 ==> RootOf(sqrt(Variance(g.longWindow)), Variance(g.longWindow))
    ensures Accepts(g, score, sqrt) <==> Passes(g, score)
  {
    if |g.longWindow| >= 2 {
      AtLeastRaisedIff(score as real, g.threshold, g.adaptiveFactor, sqrt(Variance(g.longWindow)), Variance(g.longWindow));
    }
  }

  function Exported(g: Gate): GateState {
    GateState(g.longWindow, g.window, g.threshold, g.varianceThreshold, g.adaptiveFactor, g.maxWindow)
  }

  /** Importing makes a new detector whose size is the long window's and whose threshold is the gate's. */
  function Imported(s: GateState): Gate {
    Gate(s.threshold, s.varianceThresh, s.adaptiveFactor, s.maxWindow, s.longWindow, s.detectorWindow, s.maxWindow, s.varianceThresh)
  }

  class StabilityGate {
    var threshold: real
    var varianceThreshold: real
    var detector: AntiCollapseDetector
    var adaptiveFactor: real
    var maxWindow: nat
    var longWindow: seq<real>

    ghost function Value(): Gate
      reads this, detector
    {
      Gate(threshold, varianceThreshold, adaptiveFactor, maxWindow, longWindow,
           detector.window, detector.size, detector.varianceThreshold)
    }

    constructor WithDetector(d: AntiCollapseDetector)
      ensures detector == d
      ensures Value() == Gate(0.5, 10.0, 2.0, 10, [], d.window, d.size, d.varianceThreshold)
    {
      threshold := 0.5;
      varianceThreshold := 10.0;
      detector := d;
      adaptiveFactor := 2.0;
      maxWindow := 10;
      longWindow := [];
    }

    constructor Default()
      ensures fresh(detector)
      ensures Value() == Gate(0.5, 10.0, 2.0, 10, [], [], 5, 10.0)
    {
      threshold := 0.5;
      varianceThreshold := 10.0;
      detector := new AntiCollapseDetector(5, 10.0);
      adaptiveFactor := 2.0;
      maxWindow := 10;
      longWindow := [];
    }

    constructor V2(threshold: real, windowSize: nat, varianceThreshold: real)
      ensures fresh(detector)
      ensures Value() == Gate(threshold, varianceThreshold, 2.0, windowSize, [], [], windowSize, varianceThreshold)
    {
      this.threshold := threshold;
      this.varianceThreshold := varianceThreshold;
      detector := new AntiCollapseDetector(windowSize, varianceThreshold);
      adaptiveFactor := 2.0;
      maxWindow := windowSize;
      longWindow := [];
    }

    method Check(score: int, sqrt: Root) returns (ok: bool)
      modifies this`longWindow, detector`window
      ensures detector == old(detector) && Value() == Admit(old(Value()), score)
      ensures ok <==> Accepts(Value(), score, sqrt)
    {
      detector.Add(score as real);
      longWindow := longWindow + [score as real];
      if |longWindow| > maxWindow {
        longWindow := longWindow[1..];
      }
      var dynamicThreshold := AdaptiveThreshold(threshold, adaptiveFactor, longWindow, sqrt);
      var stable := detector.IsStable();
      return score as real >= dynamicThreshold && stable;
    }

    method ExportState() returns (s: GateState)
      ensures s == Exported(Value())
    {
      return GateState(longWindow, detector.window, threshold, varianceThreshold, adaptiveFactor, maxWindow);
    }

    method ImportState(s: GateState)
      modifies this
      ensures fresh(detector) && Value() == Imported(s)
    {
      threshold := s.threshold;
      varianceThreshold := s.varianceThresh;
      adaptiveFactor := s.adaptiveFactor;
      maxWindow := s.maxWindow;
      longWindow := s.longWindow;
      detector := new AntiCollapseDetector.Restore(maxWindow, varianceThreshold, s.detectorWindow);
    }
  }

  /** The threshold that `Check` raises with the long window's spread. */
  method AdaptiveThreshold(threshold: real, factor: real, longWindow: seq<real>, sqrt: Root) returns (t: real)
    ensures t == Adaptive(threshold, factor, longWindow, sqrt)
  {
    t := threshold;
    if |longWindow| >= 2 {
      var mean := Average(longWindow);
      var stdDev := StandardDeviation(longWindow, mean, sqrt);
      t := threshold + factor * stdDev;
      if t > 100.0 {
        t := 100.0;
      }
    }
  }

  method Average(data: seq<real>) returns (m: real)
    requires data != []
    ensures m == Mean(data)
  {
    var sum := 0.0;
    for i := 0 to |data|
      invariant sum == Sum(data[..i])
    {
      assert data[..i + 1][..i] == data[..i];
      sum := sum + data[i];
    }
    assert data[..|data|] == data;
    return sum / (|data| as real);
  }

  method StandardDeviation(data: seq<real>, mean: real, sqrt: Root) returns (s: real)
    requires |data| >= 2 && mean == Mean(data)
    ensures s == sqrt(Variance(data))
  {
    var sumSquares := 0.0;
    for i := 0 to |data|
      invariant sumSquares == SquaredDeviations(data[..i], mean)
    {
      assert data[..i + 1][..i] == data[..i];
      var diff := data[i] - mean;
      sumSquares := sumSquares + diff * diff;
    }
    assert data[..|data|] == data;
    return sqrt(sumSquares / (|data| as real));
  }

  // ----- Restored gates

  function Restored(g: Gate): Gate {
    Imported(Exported(g))
  }

  function AdmitAll(g: Gate, scores: seq<int>): Gate {
    if scores == [] then g else Admit(AdmitAll(g, scores[..|scores| - 1]), scores[|scores| - 1])
  }

  /** The answer to the last of a series of checks. */
  predicate LastAnswer(g: Gate, scores: seq<int>, sqrt: Root)
    requires scores != []
  {
    Accepts(AdmitAll(g, scores), scores[|scores| - 1], sqrt)
  }

  /** Two gates give the same answer to every check of every future series. */
  ghost predicate SameAnswers(g: Gate, h: Gate, sqrt: Root) {
    forall scores: seq<int> :: scores != [] ==> LastAnswer(g, scores, sqrt) == LastAnswer(h, scores, sqrt)
  }

  /** How many scores a gate's variance test takes in; up to one makes no difference. */
  function Reach(g: Gate): nat {
    var c := Capacity(g.window, g.size);
    if c < 1 then 1 else c
  }

  /** What the restored gate keeps in step with the original. */
  ghost predicate InStep(g: Gate, h: Gate) {
    && h == g.(window := h.window, size := h.size)
    && Reach(g) == Reach(h)
    && (g.window == h.window || Reach(g) == 1)
  }

  lemma InStepAdmits(g: Gate, h: Gate, score: int)
    requires InStep(g, h)
    ensures InStep(Admit(g, score), Admit(h, score))
  {
  }

  lemma {:induction false} InStepAnswers(g: Gate, h: Gate, scores: seq<int>, sqrt: Root)
    requires InStep(g, h)
    ensures InStep(AdmitAll(g, scores), AdmitAll(h, scores))
    ensures scores != [] ==> LastAnswer(g, scores, sqrt) == LastAnswer(h, scores, sqrt)
  {
    if scores != [] {
      var n := |scores| - 1;
      InStepAnswers(g, h, scores[..n], sqrt);
      InStepAdmits(AdmitAll(g, scores[..n]), AdmitAll(h, scores[..n]), scores[n]);
      InStepAccepts(AdmitAll(g, scores), AdmitAll(h, scores), scores[n], sqrt);
    }
  }

  lemma InStepAccepts(g: Gate, h: Gate, score: int, sqrt: Root)
    requires InStep(g, h)
    ensures Accepts(g, score, sqrt) == Accepts(h, score, sqrt)
  {
    assert g.window != h.window ==> |g.window| < 2 && |h.window| < 2;
  }

  // ----- A series of checks that tells two reaches apart

  function Reals(scores: seq<int>): seq<real> {
    seq(|scores|, i requires 0 <= i < |scores| => scores[i] as real)
  }

  /** One spike, then `k` equal scores. */
  function Probe(spike: int, v: int, k: nat): seq<int> {
    [spike] + seq(k, _ => v)
  }

  lemma {:induction false} AdmitAllIsPush(g: Gate, scores: seq<int>)
    ensures var a := AdmitAll(g, scores);
            && a.window == PushAll(g.window, g.size, Reals(scores))
            && a.longWindow == PushAll(g.longWindow, g.maxWindow, Reals(scores))
            && a == g.(window := a.window, longWindow := a.longWindow)
  {
    if scores != [] {
      var n := |scores| - 1;
      AdmitAllIsPush(g, scores[..n]);
      assert Reals(scores)[..n] == Reals(scores[..n]);
    }
  }

  /** A window that forgets the spike is constant. */
  lemma ForgetsSpike(w: seq<real>, size: nat, spike: int, v: int, k: nat)
    requires Capacity(w, size) <= k
    ensures Variance(PushAll(w, size, Reals(Probe(spike, v, k)))) == 0.0
  {
    var xs := Reals(Probe(spike, v, k));
    WindowIsNewest(w, size, xs);
    var u := PushAll(w, size, xs);
    assert forall i :: 1 <= i < |xs| ==> xs[i] == v as real;
    assert forall i :: 0 <= i < |u| ==> u[i] == v as real;
    ConstantWindow(u, v as real);
  }

  lemma LastNKeeps(w: seq<real>, xs: seq<real>, n: nat)
    requires |xs| <= n
    ensures LastN(w + xs, n) == LastN(w, n - |xs|) + xs
  {
  }

  /** A window that still holds it ends with the spike and what followed. */
  lemma WindowWithSpike(w: seq<real>, size: nat, spike: int, v: int, k: nat) returns (p: seq<real>, q: seq<real>)
    requires Capacity(w, size) > k >= 1
    ensures PushAll(w, size, Reals(Probe(spike, v, k))) == p + [spike as real, v as real] + q
    ensures |p| + 2 + |q| <= Capacity(w, size)
  {
    var xs := Reals(Probe(spike, v, k));
    WindowIsNewest(w, size, xs);
    LastNKeeps(w, xs, Capacity(w, size));
    p, q := LastN(w, Capacity(w, size) - |xs|), xs[2..];
    assert xs == [spike as real, v as real] + q;
    assert p + xs == p + [spike as real, v as real] + q;
  }

  lemma ScaleBound(a: nat, b: nat, t: real, bound: real)
    requires a <= b && t > 0.0 && bound == (b as real) * t
    ensures (a as real) * t <= bound
  {
    assert ((b - a) as real) * t >= 0.0;
    assert (b as real) * t == (a as real) * t + ((b - a) as real) * t;
  }

  /** A spike whose square is high enough. */
  lemma SpikeHeight(bound: real) returns (n: nat)
    requires bound >= 0.0
    ensures (n as real) * (n as real) >= 2.0 * bound
  {
    var x := 2.0 * bound;
    n := x.Floor + 1;
    assert n as real >= x && n as real >= 1.0;
    assert (n as real) * (n as real) >= n as real;
  }

  /** Some spike makes the variance of a window that still holds it as large as wanted. */
  lemma HoldsSpike(w: seq<real>, size: nat, v: int, k: nat, t: real) returns (n: nat)
    requires Capacity(w, size) > k >= 1 && t > 0.0
    ensures Variance(PushAll(w, size, Reals(Probe(v + n, v, k)))) >= t
  {
    n := HighSpike(Capacity(w, size), t);
    var p, q := WindowWithSpike(w, size, v + n, v, k);
    SpikeAt(p, v, n, q, t, Capacity(w, size));
  }

  /** A spike that is high enough for every window of at most `capacity` scores. */
  lemma HighSpike(capacity: nat, t: real) returns (n: nat)
    requires t > 0.0
    ensures HighEnough(n as real, capacity as real, t)
  {
    assert (capacity as real) * t >= 0.0;
    n := SpikeHeight((capacity as real) * t);
  }

  predicate HighEnough(n: real, size: real, t: real) {
    n * n >= 2.0 * (size * t)
  }

  lemma SpikeAt(p: seq<real>, v: int, n: nat, q: seq<real>, t: real, capacity: nat)
    requires t > 0.0 && |p| + 2 + |q| <= capacity && HighEnough(n as real, capacity as real, t)
    ensures Variance(p + [(v + n) as real, v as real] + q) >= t
  {
    assert (v + n) as real == v as real + n as real;
    ScaleBound(|p| + 2 + |q|, capacity, t, (capacity as real) * t);
    SpikeVariance(p, v as real, n as real, q, t);
  }

  /** A score that passes every adaptive threshold of the gate. */
  lemma HighScore(g: Gate) returns (v: int)
    ensures v as real >= 100.0 && v as real >= g.threshold
  {
    v := if g.threshold > 100.0 then g.threshold.Floor + 1 else 100;
  }

  /** Gates that differ in reach are told apart by one probe, whatever their detectors' thresholds. */
  lemma ProbeTells(g: Gate, h: Gate, sqrt: Root) returns (scores: seq<int>)
    requires h == g.(window := h.window, size := h.size, detectorThreshold := h.detectorThreshold)
    requires g.detectorThreshold > 0.0 && h.detectorThreshold > 0.0 && Reach(g) < Reach(h)
    ensures scores != [] && LastAnswer(g, scores, sqrt) && !LastAnswer(h, scores, sqrt)
  {
    var k := Reach(g);
    var v := HighScore(g);
    var n := HoldsSpike(h.window, h.size, v, k, h.detectorThreshold);
    scores := Probe(v + n, v, k);
    ForgetsSpike(g.window, g.size, v + n, v, k);
    AdmitAllIsPush(g, scores);
    AdmitAllIsPush(h, scores);
    assert scores[|scores| - 1] == v;
    ProbeAnswers(AdmitAll(g, scores), AdmitAll(h, scores), v, sqrt);
  }

  lemma ProbeAnswers(g: Gate, h: Gate, v: int, sqrt: Root)
    requires v as real >= 100.0 && v as real >= g.threshold
    requires Variance(g.window) == 0.0 && g.detectorThreshold > 0.0 && Variance(h.window) >= h.detectorThreshold
    ensures Accepts(g, v, sqrt) && !Accepts(h, v, sqrt)
  {
  }

  lemma NeverPasses(g: Gate, scores: seq<int>, sqrt: Root)
    requires g.detectorThreshold <= 0.0 && scores != []
    ensures !LastAnswer(g, scores, sqrt)
  {
    AdmitAllIsPush(g, scores);
    VarianceNonNegative(AdmitAll(g, scores).window);
  }

  /** Scores high and steady enough always pass a gate whose detector can pass anything. */
  lemma SteadyPasses(g: Gate, sqrt: Root) returns (scores: seq<int>)
    requires g.detectorThreshold > 0.0
    ensures scores != [] && LastAnswer(g, scores, sqrt)
  {
    var v := HighScore(g);
    scores := Probe(v, v, Reach(g));
    ForgetsSpike(g.window, g.size, v, v, Reach(g));
    AdmitAllIsPush(g, scores);
    assert scores[|scores| - 1] == v;
  }

  // ----- Gates that differ in nothing but the detector's threshold

  /** Exactly one of the two thresholds lets the variance pass. */
  predicate Between(x: real, a: real, b: real) {
    a <= x < b || b <= x < a
  }

  predicate PassesThreshold(g: Gate, scores: seq<int>, sqrt: Root)
    requires scores != []
  {
    scores[|scores| - 1] as real >= DynamicThreshold(AdmitAll(g, scores), sqrt)
  }

  lemma AnswersDifferIff(g: Gate, scores: seq<int>, t: real, sqrt: Root)
    requires scores != []
    ensures LastAnswer(g, scores, sqrt) != LastAnswer(g.(detectorThreshold := t), scores, sqrt)
            <==> PassesThreshold(g, scores, sqrt) && Between(Variance(AdmitAll(g, scores).window), g.detectorThreshold, t)
  {
    AdmitAllIsPush(g, scores);
    AdmitAllIsPush(g.(detectorThreshold := t), scores);
  }

  /** No more scores than the variance test takes in, after which the answers with the two thresholds differ. */
  ghost predicate TellsApart(g: Gate, scores: seq<int>, sqrt: Root) {
    && 0 < |scores| <= Reach(g) && PassesThreshold(g, scores, sqrt)
    && Between(Variance(AdmitAll(g, scores).window), g.detectorThreshold, g.varianceThreshold)
  }

  // ----- Moving scores up changes no variance

  function MoveUp(scores: seq<int>, k: int): seq<int> {
    seq(|scores|, i requires 0 <= i < |scores| => scores[i] + k)
  }

  function Shifted(w: seq<real>, c: real): seq<real> {
    seq(|w|, i requires 0 <= i < |w| => w[i] + c)
  }

  lemma {:induction false} ShiftedSums(w: seq<real>, c: real, m: real)
    ensures Sum(Shifted(w, c)) == Sum(w) + (|w| as real) * c
    ensures SquaredDeviations(Shifted(w, c), m + c) == SquaredDeviations(w, m)
  {
    if w != [] {
      var n := |w| - 1;
      ShiftedSums(w[..n], c, m);
      assert Shifted(w, c)[..n] == Shifted(w[..n], c);
      assert (w[n] + c) - (m + c) == w[n] - m;
      assert (|w| as real) * c == (n as real) * c + c;
    }
  }

  lemma ShiftedMean(w: seq<real>, c: real)
    requires w != []
    ensures Mean(Shifted(w, c)) == Mean(w) + c
  {
    ShiftedSums(w, c, 0.0);
    ShiftedQuotient(Sum(w), |w| as real, c);
  }

  lemma VarianceAbout(w: seq<real>, m: real, d: real)
    requires |w| >= 2 && m == Mean(w) && d == SquaredDeviations(w, m)
    ensures Variance(w) == d / (|w| as real)
  {
  }

  lemma ShiftedVariance(w: seq<real>, c: real)
    ensures Variance(Shifted(w, c)) == Variance(w)
  {
    if |w| >= 2 {
      var m := Mean(w);
      var d := SquaredDeviations(w, m);
      ShiftedMean(w, c);
      ShiftedSums(w, c, m);
      VarianceAbout(w, m, d);
      VarianceAbout(Shifted(w, c), m + c, d);
    }
  }

  lemma ShiftedQuotient(s: real, n: real, c: real)
    requires n > 0.0
    ensures (s + n * c) / n == s / n + c
  {
    var q := s / n;
    assert q * n == s;
    assert (q + c) * n == s + n * c;
  }

  lemma MovedVariance(scores: seq<int>, k: int)
    ensures Variance(Reals(MoveUp(scores, k))) == Variance(Reals(scores))
  {
    assert Reals(MoveUp(scores, k)) == Shifted(Reals(scores), k as real);
    ShiftedVariance(Reals(scores), k as real);
  }

  /** The window is just the new scores: there are as many as it holds, or it was empty and has room. */
  predicate Fills(g: Gate, n: nat) {
    n == Capacity(g.window, g.size) || (g.window == [] && n <= g.size)
  }

  lemma WindowIsScores(g: Gate, scores: seq<int>)
    requires Fills(g, |scores|)
    ensures AdmitAll(g, scores).window == Reals(scores)
  {
    AdmitAllIsPush(g, scores);
    WindowIsNewest(g.window, g.size, Reals(scores));
  }

  /** Whole numbers whose variance lies between the thresholds can be moved up until they pass, and then tell them apart. */
  lemma VarianceTells(g: Gate, ints: seq<int>, sqrt: Root) returns (scores: seq<int>)
    requires 0 < |ints| <= Reach(g) && Fills(g, |ints|)
    requires Between(Variance(Reals(ints)), g.detectorThreshold, g.varianceThreshold)
    ensures TellsApart(g, scores, sqrt)
  {
    var v := HighScore(g);
    scores := MoveUp(ints, v - ints[|ints| - 1]);
    MovedVariance(ints, v - ints[|ints| - 1]);
    WindowIsScores(g, scores);
    AdmitAllIsPush(g, scores);
  }

  /** A longer series that tells the thresholds apart does so by its newest scores alone. */
  /** After a longer series the window holds the newest scores. */
  lemma NewestScores(g: Gate, scores: seq<int>)
    requires |scores| >= Capacity(g.window, g.size)
    ensures AdmitAll(g, scores).window == Reals(scores[|scores| - Capacity(g.window, g.size)..])
  {
    AdmitAllIsPush(g, scores);
    WindowIsNewest(g.window, g.size, Reals(scores));
  }

  lemma ShortSeriesTells(g: Gate, scores: seq<int>, sqrt: Root) returns (few: seq<int>)
    requires scores != [] && PassesThreshold(g, scores, sqrt) && g.detectorThreshold > 0.0 && g.varianceThreshold > 0.0
    requires Between(Variance(AdmitAll(g, scores).window), g.detectorThreshold, g.varianceThreshold)
    ensures TellsApart(g, few, sqrt)
  {
    if |scores| <= Reach(g) {
      few := scores;
    } else {
      NewestScores(g, scores);
      few := VarianceTells(g, scores[|scores| - Capacity(g.window, g.size)..], sqrt);
    }
  }

  // ----- When restoring is faithful

  /** Gates of equal reach and positive thresholds: restoring changes an answer exactly when some short series tells. */
  lemma EqualReachIff(g: Gate, sqrt: Root)
    requires g.detectorThreshold > 0.0 && g.varianceThreshold > 0.0 && Reach(g) == Reach(Restored(g))
    ensures SameAnswers(g, Restored(g), sqrt) <==> !exists scores :: TellsApart(g, scores, sqrt)
  {
    var h := Restored(g);
    var other := g.(detectorThreshold := g.varianceThreshold);
    forall scores: seq<int> | scores != []
      ensures LastAnswer(g, scores, sqrt) != LastAnswer(h, scores, sqrt)
              <==> PassesThreshold(g, scores, sqrt)
                   && Between(Variance(AdmitAll(g, scores).window), g.detectorThreshold, g.varianceThreshold)
    {
      InStepAnswers(other, h, scores, sqrt);
      AnswersDifferIff(g, scores, g.varianceThreshold, sqrt);
    }
    if scores: seq<int> :| scores != [] && LastAnswer(g, scores, sqrt) != LastAnswer(h, scores, sqrt) {
      var few := ShortSeriesTells(g, scores, sqrt);
    }
  }

  /** Gates that never pass anything, or always can, and in the same way. */
  ghost predicate RestoresExactly(g: Gate, sqrt: Root) {
    || (g.detectorThreshold <= 0.0 && g.varianceThreshold <= 0.0)
    || (&& g.detectorThreshold > 0.0 && g.varianceThreshold > 0.0 && Reach(g) == Reach(Restored(g))
        && !exists scores :: TellsApart(g, scores, sqrt))
  }

  /**
   For every gate: restoring its export gives a gate with the same answers for ever exactly when
   neither detector can pass anything, or both can, reach equally far back, and no series of at
   most that many scores has a variance between the two thresholds when it passes.
   */
  lemma RestoreIsFaithfulIff(g: Gate, sqrt: Root)
    ensures SameAnswers(g, Restored(g), sqrt) <==> RestoresExactly(g, sqrt)
  {
    var h := Restored(g);
    if g.detectorThreshold <= 0.0 && g.varianceThreshold <= 0.0 {
      forall scores: seq<int> | scores != []
        ensures LastAnswer(g, scores, sqrt) == LastAnswer(h, scores, sqrt)
      {
        NeverPasses(g, scores, sqrt);
        NeverPasses(h, scores, sqrt);
      }
    } else if g.detectorThreshold <= 0.0 {
      var scores := SteadyPasses(h, sqrt);
      NeverPasses(g, scores, sqrt);
      assert LastAnswer(g, scores, sqrt) != LastAnswer(h, scores, sqrt);
    } else if g.varianceThreshold <= 0.0 {
      var scores := SteadyPasses(g, sqrt);
      NeverPasses(h, scores, sqrt);
      assert LastAnswer(g, scores, sqrt) != LastAnswer(h, scores, sqrt);
    } else if Reach(g) == Reach(h) {
      EqualReachIff(g, sqrt);
    } else {
      var scores;
      if Reach(g) < Reach(h) {
        scores := ProbeTells(g, h, sqrt);
      } else {
        scores := ProbeTells(h, g, sqrt);
      }
      assert LastAnswer(g, scores, sqrt) != LastAnswer(h, scores, sqrt);
    }
  }

  /** With equal thresholds only the reach matters. */
  lemma EqualThresholdsIff(g: Gate, sqrt: Root)
    requires g.detectorThreshold == g.varianceThreshold
    ensures SameAnswers(g, Restored(g), sqrt) <==> g.varianceThreshold <= 0.0 || Reach(g) == Reach(Restored(g))
  {
    RestoreIsFaithfulIff(g, sqrt);
  }

  /** Some `n` whole numbers have a variance between the thresholds. */
  ghost predicate GapAttained(g: Gate, n: nat) {
    exists ints: seq<int> :: |ints| == n && Between(Variance(Reals(ints)), g.detectorThreshold, g.varianceThreshold)
  }

  /** For an unused detector, with positive thresholds and equal reach, the condition is about whole numbers only. */
  lemma FreshGateIff(g: Gate, sqrt: Root)
    requires g.window == [] && g.detectorThreshold > 0.0 && g.varianceThreshold > 0.0 && Reach(g) == Reach(Restored(g))
    ensures SameAnswers(g, Restored(g), sqrt) <==> forall n :: 0 < n <= Reach(g) ==> !GapAttained(g, n)
  {
    EqualReachIff(g, sqrt);
    if scores :| TellsApart(g, scores, sqrt) {
      if g.size > 0 {
        WindowIsScores(g, scores);
        assert GapAttained(g, |scores|);
      } else {
        AdmitAllIsPush(g, scores);
        WindowIsNewest([], 0, Reals(scores));
      }
    }
    if n :| 0 < n <= Reach(g) && GapAttained(g, n) {
      var ints: seq<int> :| |ints| == n && Between(Variance(Reals(ints)), g.detectorThreshold, g.varianceThreshold);
      if g.size > 0 {
        var scores := VarianceTells(g, ints, sqrt);
      }
    }
  }

  /** What a full detector that holds whole numbers holds next. */
  lemma FullWindow(g: Gate, held: seq<int>, scores: seq<int>)
    requires g.window == Reals(held) && held != [] && |held| >= g.size
    ensures var all := held + scores;
            AdmitAll(g, scores).window == Reals(all[|all| - |held|..])
  {
    AdmitAllIsPush(g, scores);
    WindowIsNewest(g.window, g.size, Reals(scores));
    RealsAppend(held, scores);
    RealsNewest(held + scores, |held|);
  }

  lemma RealsAppend(a: seq<int>, b: seq<int>)
    ensures Reals(a) + Reals(b) == Reals(a + b)
  {
  }

  lemma RealsNewest(a: seq<int>, n: nat)
    requires n <= |a|
    ensures LastN(Reals(a), n) == Reals(a[|a| - n..])
  {
  }

  lemma FullTells(g: Gate, held: seq<int>, scores: seq<int>, sqrt: Root)
    requires g.window == Reals(held) && held != [] && |held| >= g.size && TellsApart(g, scores, sqrt)
    ensures GapAttained(g, |held|)
  {
    var all := held + scores;
    FullWindow(g, held, scores);
    assert |all[|all| - |held|..]| == |held|;
  }

  /** For a full detector that holds whole numbers, only windows of its own length count. */
  lemma FullGateIff(g: Gate, held: seq<int>, sqrt: Root)
    requires g.window == Reals(held) && held != [] && |held| >= g.size
    requires g.detectorThreshold > 0.0 && g.varianceThreshold > 0.0 && Reach(g) == Reach(Restored(g))
    ensures SameAnswers(g, Restored(g), sqrt) <==> !GapAttained(g, Reach(g))
  {
    assert Reach(g) == |held|;
    EqualReachIff(g, sqrt);
    if scores :| TellsApart(g, scores, sqrt) {
      FullTells(g, held, scores, sqrt);
    }
    if GapAttained(g, Reach(g)) {
      var scores := GapTells(g, sqrt);
    }
  }

  lemma GapTells(g: Gate, sqrt: Root) returns (scores: seq<int>)
    requires Capacity(g.window, g.size) > 0 && GapAttained(g, Reach(g))
    ensures TellsApart(g, scores, sqrt) && (g.detectorThreshold > 0.0 || g.varianceThreshold > 0.0)
  {
    var ints: seq<int> :| |ints| == Reach(g) && Between(Variance(Reals(ints)), g.detectorThreshold, g.varianceThreshold);
    VarianceNonNegative(Reals(ints));
    scores := VarianceTells(g, ints, sqrt);
  }

  /** For every gate, as many whole numbers as the detector holds, their variance between the thresholds, spoil the restoring. */
  lemma GapSpoils(g: Gate, sqrt: Root)
    requires Capacity(g.window, g.size) > 0 && GapAttained(g, Reach(g))
    ensures !SameAnswers(g, Restored(g), sqrt)
  {
    var scores := GapTells(g, sqrt);
    RestoreIsFaithfulIff(g, sqrt);
  }

  /** A gate made by `NewStabilityGateV2`, checked any number of times, restores faithfully. */
  lemma V2Restores(threshold: real, windowSize: nat, varianceThreshold: real, past: seq<int>, sqrt: Root)
    ensures var g := AdmitAll(Gate(threshold, varianceThreshold, 2.0, windowSize, [], [], windowSize, varianceThreshold), past);
            SameAnswers(g, Restored(g), sqrt)
  {
    var g0 := Gate(threshold, varianceThreshold, 2.0, windowSize, [], [], windowSize, varianceThreshold);
    AdmitAllIsPush(g0, past);
    EqualThresholdsIff(AdmitAll(g0, past), sqrt);
  }

  /** The default gate never does, whatever it has seen: its detector holds five scores, the restored one ten. */
  lemma DefaultDoesNotRestore(past: seq<int>, sqrt: Root)
    ensures var g := AdmitAll(Gate(0.5, 10.0, 2.0, 10, [], [], 5, 10.0), past);
            !SameAnswers(g, Restored(g), sqrt)
  {
    var g0 := Gate(0.5, 10.0, 2.0, 10, [], [], 5, 10.0);
    AdmitAllIsPush(g0, past);
    WindowIsNewest([], 5, Reals(past));
    EqualThresholdsIff(AdmitAll(g0, past), sqrt);
  }

  /** Half of the scores at zero, half at two. */
  function Halves(k: nat): seq<int> {
    seq(k, _ => 0) + seq(k, _ => 2)
  }

  lemma {:induction false} ConstantDeviations(w: seq<real>, v: real, m: real)
    requires forall i :: 0 <= i < |w| ==> w[i] == v
    ensures SquaredDeviations(w, m) == (|w| as real) * ((v - m) * (v - m))
  {
    if w != [] {
      ConstantDeviations(w[..|w| - 1], v, m);
      var q := (v - m) * (v - m);
      assert (|w| as real) * q == ((|w| - 1) as real) * q + q;
    }
  }

  lemma {:induction false} SumAppend(a: seq<real>, b: seq<real>)
    ensures Sum(a + b) == Sum(a) + Sum(b)
  {
    if b == [] {
      assert a + b == a;
    } else {
      var n := |b| - 1;
      SumAppend(a, b[..n]);
      assert (a + b)[..|a + b| - 1] == a + b[..n];
    }
  }

  lemma HalvesMean(low: seq<real>, high: seq<real>, k: nat)
    requires k >= 1 && |low| == |high| == k
    requires (forall i :: 0 <= i < k ==> low[i] == 0.0) && (forall i :: 0 <= i < k ==> high[i] == 2.0)
    ensures Mean(low + high) == 1.0
  {
    SumAppend(low, high);
    SumOfConstant(low, 0.0);
    SumOfConstant(high, 2.0);
    assert Sum(low + high) == (k as real) * 2.0;
    SelfQuotient((k as real) * 2.0);
  }

  lemma SelfQuotient(x: real)
    requires x > 0.0
    ensures x / x == 1.0
  {
  }

  lemma HalvesVariance(k: nat)
    requires k >= 1
    ensures Variance(Reals(Halves(k))) == 1.0
  {
    var low, high := seq(k, _ => 0.0), seq(k, _ => 2.0);
    assert Reals(Halves(k)) == low + high;
    HalvesMean(low, high, k);
    DeviationsAppend(low, high, 1.0);
    ConstantDeviations(low, 0.0, 1.0);
    ConstantDeviations(high, 2.0, 1.0);
    VarianceAbout(low + high, 1.0, (k as real) * 2.0);
    SelfQuotient((k as real) * 2.0);
  }

  /** A gate as the minimal loop makes it: a detector of ten scores and threshold 0.5 inside a gate of threshold 10. */
  predicate MinimalGate(g: Gate) {
    g == Gate(0.5, 10.0, 2.0, 10, g.longWindow, g.window, 10, 0.5) && |g.window| <= 10
  }

  /** Such a gate never restores faithfully, whatever its windows hold, though the reaches are equal. */
  lemma MinimalDoesNotRestore(g: Gate, sqrt: Root)
    requires MinimalGate(g)
    ensures Reach(g) == Reach(Restored(g)) && !SameAnswers(g, Restored(g), sqrt)
  {
    HalvesVariance(5);
    assert |Halves(5)| == Reach(g);
    assert GapAttained(g, Reach(g));
    GapSpoils(g, sqrt);
  }
}
