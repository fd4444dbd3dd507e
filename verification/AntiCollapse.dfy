/** The anti-collapse detector: a bounded window of scores, its variance, its oscillation test. */
module AntiCollapse {

  // ----- Windows

  /** Appends a score; one element too many, and the oldest one goes. */
  function Push(w: seq<real>, size: nat, x: real): seq<real> {
    if |w| + 1 > size then (w + [x])[1..] else w + [x]
  }

  function PushAll(w: seq<real>, size: nat, xs: seq<real>): seq<real> {
    if xs == [] then w else Push(PushAll(w, size, xs[..|xs| - 1]), size, xs[|xs| - 1])
  }

  function LastN(s: seq<real>, n: nat): seq<real> {
    if |s| <= n then s else s[|s| - n..]
  }

  /** How many scores a window holds in the long run: an overfull window never shrinks. */
  function Capacity(w: seq<real>, size: nat): nat {
    if |w| > size then |w| else size
  }

  /** After any number of additions the window holds the newest scores. */
  lemma {:induction false} WindowIsNewest(w: seq<real>, size: nat, xs: seq<real>)
    ensures PushAll(w, size, xs) == LastN(w + xs, Capacity(w, size))
  {
    if xs == [] {
      assert w + xs == w;
    } else {
      var n := |xs| - 1;
      WindowIsNewest(w, size, xs[..n]);
      assert w + xs == (w + xs[..n]) + [xs[n]];
    }
  }

  // ----- Statistics

  function Sum(w: seq<real>): real {
    if w == [] then 0.0 else Sum(w[..|w| - 1]) + w[|w| - 1]
  }

  function Mean(w: seq<real>): real {
    if w == [] then 0.0 else Sum(w) / (|w| as real)
  }

  function SquaredDeviations(w: seq<real>, m: real): real {
    if w == [] then 0.0
    else SquaredDeviations(w[..|w| - 1], m) + (w[|w| - 1] - m) * (w[|w| - 1] - m)
  }

  function Variance(w: seq<real>): real {
    if |w| < 2 then 0.0 else SquaredDeviations(w, Mean(w)) / (|w| as real)
  }

  function Abs(x: real): real {
    if x < 0.0 then -x else x
  }

  /** A sign change of the slope, its amplitude above one percent of the mean. */
  predicate Turns(diff1: real, diff2: real, mean: real) {
    diff1 * diff2 < 0.0 && Abs(diff1) > 0.01 * mean
  }

  predicate TurnsAt(w: seq<real>, i: nat)
    requires 2 <= i < |w|
  {
    Turns(w[i] - w[i - 1], w[i - 1] - w[i - 2], Mean(w))
  }

  predicate Oscillates(w: seq<real>) {
    exists i: nat :: 2 <= i < |w| && TurnsAt(w, i)
  }

  // ----- The same, said of the scores themselves

  /** The score at `i` is above both its neighbours or below both, and the next one is off by more than one percent of the mean. */
  predicate SharpTurn(w: seq<real>, i: nat) {
    && 0 < i && i + 1 < |w|
    && ((w[i - 1] < w[i] && w[i] > w[i + 1]) || (w[i - 1] > w[i] && w[i] < w[i + 1]))
    && 100.0 * Abs(w[i + 1] - w[i]) > Mean(w)
  }

  lemma OppositeSigns(x: real, y: real)
    ensures x * y < 0.0 <==> (x < 0.0 && y > 0.0) || (x > 0.0 && y < 0.0)
  {
    if x > 0.0 && y > 0.0 {
      assert x * y > 0.0;
    } else if x < 0.0 && y < 0.0 {
      assert x * y == (-x) * (-y);
    } else if x > 0.0 && y < 0.0 {
      assert x * y == -(x * (-y));
    } else if x < 0.0 && y > 0.0 {
      assert x * y == -((-x) * y);
    }
  }

  lemma TurnsAtIff(w: seq<real>, i: nat)
    requires 2 <= i < |w|
    ensures TurnsAt(w, i) <==> SharpTurn(w, i - 1)
  {
    OppositeSigns(w[i] - w[i - 1], w[i - 1] - w[i - 2]);
  }

  /** A window oscillates exactly when it turns sharply at one of its scores. */
  lemma OscillatesIff(w: seq<real>)
    ensures Oscillates(w) <==> exists i: nat :: SharpTurn(w, i)
  {
    if Oscillates(w) {
      var i: nat :| 2 <= i < |w| && TurnsAt(w, i);
      TurnsAtIff(w, i);
      assert SharpTurn(w, i - 1);
    }
    if i: nat :| SharpTurn(w, i) {
      TurnsAtIff(w, i + 1);
    }
  }

  predicate Unstable(w: seq<real>, threshold: real) {
    !(Variance(w) < threshold) || Oscillates(w)
  }

  class AntiCollapseDetector {
    var window: seq<real>
    const size: nat
    const varianceThreshold: real

    constructor (windowSize: nat, varianceThreshold: real)
      ensures window == [] && size == windowSize && this.varianceThreshold == varianceThreshold
    {
      window := [];
      size := windowSize;
      this.varianceThreshold := varianceThreshold;
    }

    /** A detector with a given window, as `ImportState` makes one. */
    constructor Restore(windowSize: nat, varianceThreshold: real, window: seq<real>)
      ensures this.window == window && size == windowSize && this.varianceThreshold == varianceThreshold
    {
      this.window := window;
      size := windowSize;
      this.varianceThreshold := varianceThreshold;
    }

    method Add(score: real)
      modifies this`window
      ensures window == Push(old(window), size, score)
    {
      window := window + [score];
      if |window| > size {
        window := window[1..];
      }
    }

    method ComputeMean() returns (m: real)
      ensures m == Mean(window)
    {
      if |window| == 0 {
        return 0.0;
      }
      var sum := 0.0;
      for i := 0 to |window|
        invariant sum == Sum(window[..i])
      {
        assert window[..i + 1][..i] == window[..i];
        sum := sum + window[i];
      }
      assert window[..|window|] == window;
      return sum / (|window| as real);
    }

    method ComputeVariance() returns (v: real)
      ensures v == Variance(window)
    {
      if |window| < 2 {
        return 0.0;
      }
      var mean := ComputeMean();
      var sumSquares := 0.0;
      for i := 0 to |window|
        invariant sumSquares == SquaredDeviations(window[..i], mean)
      {
        assert window[..i + 1][..i] == window[..i];
        var diff := window[i] - mean;
        sumSquares := sumSquares + diff * diff;
      }
      assert window[..|window|] == window;
      return sumSquares / (|window| as real);
    }

    method IsStable() returns (b: bool)
      ensures b == (Variance(window) < varianceThreshold)
    {
      var v := ComputeVariance();
      return v < varianceThreshold;
    }

    method IsOscillating() returns (b: bool)
      ensures b == Oscillates(window)
    {
      if |window| < 3 {
        return false;
      }
      for i := 2 to |window|
        invariant forall k: nat :: 2 <= k < i ==> !TurnsAt(window, k)
      {
        var diff1, diff2 := window[i] - window[i - 1], window[i - 1] - window[i - 2];
        var mean := ComputeMean();
        if Turns(diff1, diff2, mean) {
          assert TurnsAt(window, i);
          return true;
        }
      }
      return false;
    }
  }

  // ----- Square roots

  predicate RootOf(root: real, x: real) {
    root >= 0.0 && root * root == x
  }

  lemma SquareOrder(a: real, b: real)
    requires a >= 0.0 && b >= 0.0
    ensures b > a <==> b * b > a * a
  {
    DifferenceOfSquares(a, b);
    if b > a {
      ProductPositive(b - a, b + a);
    } else {
      ProductNonNegative(a - b, b + a);
    }
  }

  lemma DifferenceOfSquares(a: real, b: real)
    ensures b * b - a * a == (b - a) * (b + a)
    ensures a * a - b * b == (a - b) * (b + a)
  {
  }

  lemma ProductPositive(x: real, y: real)
    requires x > 0.0 && y > 0.0
    ensures x * y > 0.0
  {
  }

  lemma ProductNonNegative(x: real, y: real)
    requires x >= 0.0 && y >= 0.0
    ensures x * y >= 0.0
  {
  }

  // ----- Facts about the statistics

  lemma {:induction false} DeviationsNonNegative(w: seq<real>, m: real)
    ensures SquaredDeviations(w, m) >= 0.0
  {
    if w != [] {
      DeviationsNonNegative(w[..|w| - 1], m);
      SquareNonNegative(w[|w| - 1] - m);
    }
  }

  lemma SquareNonNegative(x: real)
    ensures x * x >= 0.0
  {
    if x < 0.0 {
      assert x * x == (-x) * (-x);
    }
  }

  lemma VarianceNonNegative(w: seq<real>)
    ensures Variance(w) >= 0.0
  {
    if |w| >= 2 {
      DeviationsNonNegative(w, Mean(w));
    }
  }

  lemma {:induction false} SumOfConstant(w: seq<real>, v: real)
    requires forall i :: 0 <= i < |w| ==> w[i] == v
    ensures Sum(w) == (|w| as real) * v
    ensures SquaredDeviations(w, v) == 0.0
  {
    if w != [] {
      SumOfConstant(w[..|w| - 1], v);
      assert ((|w| - 1) as real) * v + v == (|w| as real) * v;
    }
  }

  /** A constant window is stable and does not oscillate. */
  lemma ConstantWindow(w: seq<real>, v: real)
    requires forall i :: 0 <= i < |w| ==> w[i] == v
    ensures Variance(w) == 0.0 && !Oscillates(w)
  {
    SumOfConstant(w, v);
    if w != [] {
      assert Mean(w) == v;
    }
  }

  lemma {:induction false} DeviationsAppend(a: seq<real>, b: seq<real>, m: real)
    ensures SquaredDeviations(a + b, m) == SquaredDeviations(a, m) + SquaredDeviations(b, m)
  {
    if b == [] {
      assert a + b == a;
    } else {
      var n := |b| - 1;
      DeviationsAppend(a, b[..n], m);
      assert (a + b)[..|a + b| - 1] == a + b[..n];
    }
  }

  lemma SpreadOfTwo(x: real, y: real, m: real)
    ensures (x - m) * (x - m) + (y - m) * (y - m) >= (x - y) * (x - y) / 2.0
  {
    var a, b := x - m, y - m;
    SquareNonNegative(a + b);
    assert x - y == a - b;
    assert (a + b) * (a + b) == a * a + 2.0 * (a * b) + b * b;
    assert (a - b) * (a - b) == a * a - 2.0 * (a * b) + b * b;
  }

  lemma SpikeDeviations(p: seq<real>, x: real, y: real, q: seq<real>, m: real)
    ensures SquaredDeviations(p + [x, y] + q, m) >= (x - y) * (x - y) / 2.0
  {
    DeviationsAppend(p + [x, y], q, m);
    DeviationsAppend(p, [x, y], m);
    DeviationsNonNegative(p, m);
    DeviationsNonNegative(q, m);
    TwoDeviations(x, y, m);
    SpreadOfTwo(x, y, m);
  }

  lemma TwoDeviations(x: real, y: real, m: real)
    ensures SquaredDeviations([x, y], m) == (x - m) * (x - m) + (y - m) * (y - m)
  {
    assert [x, y][..1] == [x];
    assert [x][..0] == [];
    assert SquaredDeviations([x], m) == SquaredDeviations([], m) + (x - m) * (x - m);
  }

  /** A score with a spike of height `d` before it bounds the variance from below. */
  lemma SpikeVariance(p: seq<real>, y: real, d: real, q: seq<real>, t: real)
    requires d * d >= 2.0 * (((|p| + 2 + |q|) as real) * t)
    ensures Variance(p + [y + d, y] + q) >= t
  {
    var w := p + [y + d, y] + q;
    SpikeDeviations(p, y + d, y, q, Mean(w));
    assert (y + d) - y == d;
    DivideAtLeast(SquaredDeviations(w, Mean(w)), |w| as real, t);
  }

  lemma DivideAtLeast(s: real, n: real, t: real)
    requires n > 0.0 && s >= n * t
    ensures s / n >= t
  {
    assert (s / n) * n == s;
    if s / n < t {
      ScaleUp(s / n, t, n);
    }
  }

  lemma ScaleUp(a: real, b: real, n: real)
    requires a < b && n > 0.0
    ensures a * n < b * n
  {
    assert (b - a) * n > 0.0;
  }
}
