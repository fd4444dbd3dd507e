/** The one-pass update of mean and variance that two components share, against the two-pass definition. */
module OnlineStats {
  import opened AntiCollapse

  /** The mean after the `n`-th score, `delta` above the mean before it. */
  function NextMean(n: real, mean: real, delta: real): real
    requires n >= 1.0
  {
    mean + delta / n
  }

  /** The variance after the `n`-th score, from the product of its distances to the old and the new mean. */
  function NextVariance(n: real, variance: real, product: real): real
    requires n >= 1.0
  {
    ((n - 1.0) * variance + product) / n
  }

  // ----- Moving the centre of a sum of squares

  /** What a sum of squared deviations gains when its centre moves by `a` away from `m`. */
  function Shift(s: seq<real>, m: real, a: real): real {
    if s == [] then 0.0
    else Shift(s[..|s| - 1], m, a) + (2.0 * (a * (s[|s| - 1] - m)) + a * a)
  }

  lemma {:induction false} ShiftDeviations(s: seq<real>, m: real, c: real)
    ensures SquaredDeviations(s, c) == SquaredDeviations(s, m) + Shift(s, m, m - c)
  {
    if s != [] {
      ShiftDeviations(s[..|s| - 1], m, c);
      ShiftOne(s[|s| - 1], m, c);
    }
  }

  lemma ShiftOne(v: real, m: real, c: real)
    ensures (v - c) * (v - c) == (v - m) * (v - m) + (2.0 * ((m - c) * (v - m)) + (m - c) * (m - c))
  {
    var a, b := v - m, m - c;
    assert v - c == a + b;
    assert (a + b) * (a + b) == a * a + 2.0 * (b * a) + b * b;
  }

  lemma {:induction false} ShiftClosed(s: seq<real>, m: real, a: real)
    ensures Shift(s, m, a) == 2.0 * (a * (Sum(s) - (|s| as real) * m)) + (|s| as real) * (a * a)
  {
    if s != [] {
      var n := |s| - 1;
      ShiftClosed(s[..n], m, a);
      ShiftTotals(n as real, Sum(s[..n]), s[n], m, a, a * a);
    }
  }

  lemma ShiftBalanced(s: seq<real>, m: real, a: real, n: real)
    requires n == |s| as real && Sum(s) == n * m
    ensures Shift(s, m, a) == n * (a * a)
  {
    ShiftClosed(s, m, a);
    assert Sum(s) - n * m == 0.0;
  }

  lemma ShiftTotals(k: real, sum: real, v: real, m: real, a: real, q: real)
    ensures 2.0 * (a * (sum + v - (k + 1.0) * m)) + (k + 1.0) * q
            == 2.0 * (a * (sum - k * m)) + k * q + (2.0 * (a * (v - m)) + q)
  {
    var r := sum - k * m;
    assert (k + 1.0) * m == k * m + m;
    assert sum + v - (k + 1.0) * m == r + (v - m);
    assert a * (r + (v - m)) == a * r + a * (v - m);
    assert (k + 1.0) * q == k * q + q;
  }

  // ----- The mean

  lemma MeanTimesCount(s: seq<real>, n: real)
    requires s != [] && n == |s| as real
    ensures Sum(s) == n * Mean(s)
  {
  }

  lemma MeanStep(s: seq<real>, x: real, n: real)
    requires s != [] && n == |s + [x]| as real
    ensures NextMean(n, Mean(s), x - Mean(s)) == Mean(s + [x])
  {
    MeanTimesCount(s, n - 1.0);
    assert (s + [x])[..|s|] == s;
    MovedMean(n, Mean(s), x, Sum(s + [x]));
  }

  lemma MovedMean(n: real, m: real, x: real, sum: real)
    requires n >= 1.0 && sum == (n - 1.0) * m + x
    ensures m + (x - m) / n == sum / n
  {
    var e := (x - m) / n;
    assert e * n == x - m;
    assert (m + e) * n == m * n + e * n;
    assert (n - 1.0) * m == m * n - m;
    QuotientIs(sum, n, m + e);
  }

  lemma QuotientIs(s: real, n: real, q: real)
    requires n > 0.0 && q * n == s
    ensures s / n == q
  {
  }

  // ----- The variance

  lemma VarianceTimesCount(s: seq<real>, n: real, variance: real)
    requires s != [] && n == |s| as real && variance == Variance(s)
    ensures SquaredDeviations(s, Mean(s)) == n * variance
  {
    if |s| == 1 {
      DeviationOfOne(s[0]);
      assert s == [s[0]];
    } else {
      TimesQuotient(SquaredDeviations(s, Mean(s)), n);
    }
  }

  lemma DeviationOfOne(x: real)
    ensures SquaredDeviations([x], Mean([x])) == 0.0
  {
    assert [x][..0] == [];
    assert Sum([x]) == x;
    assert Mean([x]) == x;
  }

  lemma TimesQuotient(d: real, n: real)
    requires n > 0.0
    ensures d == n * (d / n)
  {
  }

  /** About the mean the cross term vanishes: only the squared shift is left. */
  lemma ShiftFromMean(s: seq<real>, n: real, m: real, c: real, a: real)
    requires s != [] && n == |s| as real && m == Mean(s) && a == m - c
    ensures SquaredDeviations(s, c) == SquaredDeviations(s, m) + n * (a * a)
  {
    ShiftDeviations(s, m, c);
    MeanTimesCount(s, n);
    ShiftBalanced(s, m, a, n);
  }

  /** The identity behind the update: the old scores' shift and the new deviation make one product. */
  lemma Spread(n: real, x: real, m: real, c: real, a: real)
    requires n >= 1.0 && c == m + (x - m) / n && a == m - c
    ensures (n - 1.0) * (a * a) + (x - c) * (x - c) == (x - m) * (x - c)
  {
    var e := (x - m) / n;
    var p := e * (n - 1.0);
    assert e * n == x - m;
    assert e * (n - 1.0) == e * n - e;
    assert a == -e && x - c == p && x - m == p + e;
    assert (-e) * (-e) == e * e;
    assert (n - 1.0) * (e * e) == p * e;
    assert (p + e) * p == p * p + p * e;
  }

  lemma DeviationStep(s: seq<real>, x: real, n: real, m: real, c: real, product: real)
    requires s != [] && n == |s + [x]| as real && m == Mean(s) && c == Mean(s + [x])
    requires product == (x - m) * (x - c)
    ensures SquaredDeviations(s + [x], c) == SquaredDeviations(s, m) + product
  {
    assert (s + [x])[..|s|] == s;
    ShiftFromMean(s, n - 1.0, m, c, m - c);
    MeanStep(s, x, n);
    Spread(n, x, m, c, m - c);
  }

  lemma VarianceIsQuotient(s: seq<real>, n: real, d: real)
    requires |s| >= 2 && n == |s| as real && d == SquaredDeviations(s, Mean(s))
    ensures Variance(s) == d / n
  {
  }

  lemma NextVarianceIs(k: real, n: real, variance: real, product: real, d: real)
    requires n >= 1.0 && k == n - 1.0 && d == k * variance + product
    ensures NextVariance(n, variance, product) == d / n
  {
  }

  /** With the squared deviations grown by `product`, the update's quotient is the new one. */
  lemma QuotientStep(s: seq<real>, k: real, n: real, variance: real, product: real, d: real)
    requires s != [] && k == |s| as real && n == k + 1.0 && variance == Variance(s)
    requires d == SquaredDeviations(s, Mean(s)) + product
    ensures NextVariance(n, variance, product) == d / n
  {
    assert d == k * variance + product by {
      VarianceTimesCount(s, k, variance);
    }
    NextVarianceIs(k, n, variance, product, d);
  }

  lemma VarianceStep(s: seq<real>, x: real, n: real, m: real, c: real, product: real)
    requires s != [] && n == |s + [x]| as real && m == Mean(s) && c == Mean(s + [x])
    requires product == (x - m) * (x - c)
    ensures NextVariance(n, Variance(s), product) == Variance(s + [x])
  {
    var d := SquaredDeviations(s + [x], c);
    assert d == SquaredDeviations(s, m) + product by {
      DeviationStep(s, x, n, m, c, product);
    }
    QuotientStep(s, |s| as real, n, Variance(s), product, d);
    VarianceIsQuotient(s + [x], n, d);
  }

  /** One step of the update is exact: from the two-pass values of `s` to those of `s + [x]`. */
  lemma OnePassIsTwoPass(s: seq<real>, x: real, n: real)
    requires s != [] && n == |s + [x]| as real
    ensures NextMean(n, Mean(s), x - Mean(s)) == Mean(s + [x])
    ensures NextVariance(n, Variance(s), (x - Mean(s)) * (x - Mean(s + [x]))) == Variance(s + [x])
  {
    MeanStep(s, x, n);
    VarianceStep(s, x, n, Mean(s), Mean(s + [x]), (x - Mean(s)) * (x - Mean(s + [x])));
  }

  /** The update itself, for the `count`-th score `x` after the scores `s`. */
  method Welford(count: nat, mean: real, variance: real, x: real, ghost s: seq<real>) returns (mean': real, variance': real)
    requires s != [] && count == |s| + 1 && mean == Mean(s) && variance == Variance(s)
    ensures mean' == Mean(s + [x]) && variance' == Variance(s + [x])
  {
    var n := count as real;
    OnePassIsTwoPass(s, x, n);
    var delta := x - mean;
    mean' := mean + delta / n;
    var delta2 := x - mean';
    variance' := (((count - 1) as real) * variance + delta * delta2) / n;
  }
}
