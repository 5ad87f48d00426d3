/** The exponential average against the exact one: the textbook weight, a true mean as the seed, no rounding. */
module ExactAverages {
  import opened AverageLaws
  import opened Candles
  import opened Decimals
  import opened Indicators

  /** The sum of the first n closes. */
  ghost function ClosesUpTo(cs: seq<Candle>, n: int): real
    requires 0 <= n <= |cs|
    decreases n
  {
    if n == 0 then 0.0 else ClosesUpTo(cs, n - 1) + cs[n - 1].close as real
  }

  /** The exact exponential average: it starts at the mean of the first w closes, and then the newest close has
      the weight 2 / (w + 1). */
  ghost function ExactEma(cs: seq<Candle>, w: int, i: int): real
    requires 1 <= w && w - 1 <= i < |cs|
    decreases i
  {
    if i == w - 1 then ClosesUpTo(cs, w) / w as real
    else
      var weight := 2.0 / (w + 1) as real;
      weight * cs[i].close as real + (1.0 - weight) * ExactEma(cs, w, i - 1)
  }

  /** The rounded weight is within half a unit of 2 / (w + 1). */
  lemma AlphaNearest(w: int)
    requires 1 <= w
    ensures -(w + 1) <= 2 * (Alpha(w) * (w + 1)) - 4 * SCALE <= w + 1
  {
    RoundPosError(2 * SCALE, w + 1);
  }

  lemma {:induction false} SumIsTotal(cs: seq<Candle>, n: int)
    requires 0 <= n <= |cs|
    ensures SumClose(cs, 0, n) as real == ClosesUpTo(cs, n)
    decreases n
  {
    if n == 0 {
    } else {
      SumIsTotal(cs, n - 1);
    }
  }

  lemma HalfOver(q: int, n: int, w: int, g: Grain)
    requires 1 <= w && -(g * w) <= 2 * (q * w) - 2 * n <= g * w
    ensures AbsReal(q as real - n as real / w as real) <= g as real / 2.0
  {
    var (x, y, m) := (q as real, n as real / w as real, w as real);
    assert y * m == n as real;
    CastProduct(q, w);
    CastProduct(g, w);
    assert (x - y) * m == (q * w) as real - n as real;
    Between(x - y, g as real / 2.0, m);
  }

  lemma Between(x: real, bound: real, m: real)
    requires 0.0 < m && -(bound * m) <= x * m <= bound * m
    ensures -bound <= x <= bound
  {
    if x > bound {
      RealMulMono(bound, x, m);
    }
    if x < -bound {
      RealMulMono(x, -bound, m);
    }
  }

  lemma SeedError(g: Grain, cs: seq<Candle>, w: int)
    requires 1 <= w <= |cs|
    ensures AbsReal(Ema(g, cs, w, w - 1) as real - ExactEma(cs, w, w - 1)) <= g as real / 2.0
  {
    SumIsTotal(cs, w);
    RoundToError(g, SumClose(cs, 0, w), w);
    HalfOver(Ema(g, cs, w, w - 1), SumClose(cs, 0, w), w, g);
  }

  /** d is the old error, next the new one; weighed is what the rounded weight adds, step what the rounded step
      does, and spread the widest that a close lies from an average. */
  lemma DriftAtMost(m: real, d: real, next: real, weighed: real, step: real, g: real, spread: real)
    requires 2.0 <= m && m * UNITS * next == (m - 2.0) * UNITS * d + weighed + m * step
    requires weighed <= m / 2.0 * spread && step <= UNITS / 2.0 * g
    requires d <= m / 4.0 * (g + spread / UNITS)
    ensures next <= m / 4.0 * (g + spread / UNITS)
  {
    var bound := m / 4.0 * (g + spread / UNITS);
    var n := m * UNITS;
    assert 4.0 * (UNITS * bound) == m * (UNITS * g + spread);
    if m > 2.0 {
      RealMulMono(d, bound, (m - 2.0) * UNITS);
    }
    assert d * ((m - 2.0) * UNITS) <= bound * ((m - 2.0) * UNITS);
    RealMulMono(step, UNITS / 2.0 * g, m);
    assert n * next <= n * bound;
    if next > bound {
      RealMulMono(bound, next, n);
    }
  }

  /** The largest error, in parts: a quarter of w + 1 for each unit of the spread and one more. */
  function Drift(g: Grain, w: int, lo: int, hi: int): real {
    (w + 1) as real / 4.0 * (g as real + ((hi - lo) * g) as real / UNITS)
  }

  lemma WeightedStep(c: real, e: real, x: real, alpha: real, m: real, e': real, x': real)
    requires m > 0.0 && m * x' == 2.0 * c + (m - 2.0) * x
    ensures m * UNITS * (e' - x')
         == (m - 2.0) * UNITS * (e - x) + (alpha * m - 2.0 * UNITS) * (c - e)
            + m * (UNITS * e' - (Mul(c, alpha) + Mul(e, UNITS - alpha)))
  {
    assert m * UNITS * x' == UNITS * (m * x');
    assert m * (c * alpha + e * (UNITS - alpha)) == (alpha * m) * (c - e) + m * UNITS * e;
    assert (alpha * m - 2.0 * UNITS) * (c - e) == (alpha * m) * (c - e) - 2.0 * UNITS * c + 2.0 * UNITS * e;
    assert m * (UNITS * e' - (c * alpha + e * (UNITS - alpha)))
        == m * UNITS * e' - m * (c * alpha + e * (UNITS - alpha));
    assert (m - 2.0) * UNITS * (e - x) == m * UNITS * e - 2.0 * UNITS * e - UNITS * ((m - 2.0) * x);
  }

  lemma ExactStep(cs: seq<Candle>, w: int, i: int)
    requires 1 <= w <= i < |cs|
    ensures (w + 1) as real * ExactEma(cs, w, i)
         == 2.0 * cs[i].close as real + ((w + 1) as real - 2.0) * ExactEma(cs, w, i - 1)
  {
    var (m, c, x) := ((w + 1) as real, cs[i].close as real, ExactEma(cs, w, i - 1));
    var weight := 2.0 / m;
    assert weight * m == 2.0;
    assert m * (weight * c + (1.0 - weight) * x) == (weight * m) * c + (m - weight * m) * x;
  }

  lemma WeighedAtMost(rest: real, gap: real, m: real, spread: real)
    requires -m <= 2.0 * rest <= m && -spread <= gap <= spread && 0.0 < m && 0.0 <= spread
    ensures -(m / 2.0 * spread) <= rest * gap <= m / 2.0 * spread
  {
    AbsProducts(rest, gap);
    if AbsReal(gap) > 0.0 {
      RealMulMono(AbsReal(rest), m / 2.0, AbsReal(gap));
    }
    RealMulMono(AbsReal(gap), spread, m / 2.0);
  }

  lemma AbsProducts(x: real, y: real)
    ensures AbsReal(x * y) == AbsReal(x) * AbsReal(y)
  {
  }

  lemma SpreadNonNegative(g: Grain, cs: seq<Candle>, i: int, lo: int, hi: int)
    requires 0 <= i < |cs| && ClosesWithin(cs, 0, i, lo * g, hi * g)
    ensures 0 <= (hi - lo) * g
  {
    assert lo * g <= cs[0].close <= hi * g;
    assert (hi - lo) * g == hi * g - lo * g;
  }

  lemma SeedWithinDrift(g: Grain, w: int, lo: int, hi: int)
    requires 1 <= w && 0 <= (hi - lo) * g
    ensures g as real / 2.0 <= Drift(g, w, lo, hi)
  {
    var (m, per) := ((w + 1) as real, g as real + ((hi - lo) * g) as real / UNITS);
    assert per >= g as real;
    RealMulMono(2.0, m, per / 4.0);
    assert m / 4.0 * per == m * (per / 4.0);
  }

  lemma WeightRest(w: int)
    requires 1 <= w
    ensures var rest := Alpha(w) as real * (w + 1) as real - 2.0 * UNITS;
      -((w + 1) as real) <= 2.0 * rest <= (w + 1) as real
  {
    AlphaNearest(w);
    CastProduct(Alpha(w), w + 1);
    hide Alpha;
  }

  lemma StepOfReals(m: real, c: real, b: real, x: real, alpha: real, e': real, x': real, g: real, spread: real)
    requires 2.0 <= m && m * x' == 2.0 * c + (m - 2.0) * x && -spread <= c - b <= spread
    requires -m <= 2.0 * (alpha * m - 2.0 * UNITS) <= m
    requires -(UNITS / 2.0 * g) <= e' * UNITS - (Mul(c, alpha) + Mul(b, UNITS - alpha)) <= UNITS / 2.0 * g
    requires AbsReal(b - x) <= m / 4.0 * (g + spread / UNITS)
    ensures AbsReal(e' - x') <= m / 4.0 * (g + spread / UNITS)
  {
    hide Mul;
    var rest := alpha * m - 2.0 * UNITS;
    var step := UNITS * e' - (Mul(c, alpha) + Mul(b, UNITS - alpha));
    WeightedStep(c, b, x, alpha, m, e', x');
    WeighedAtMost(rest, c - b, m, spread);
    hide AbsReal;
    DriftBothWays(m, b - x, e' - x', rest * (c - b), step, g, spread);
  }

  lemma StepWithinDrift(g: Grain, close: int, before: int, x: real, x': real, w: int, lo: int, hi: int)
    requires 1 <= w && lo * g <= close <= hi * g && lo * g <= before <= hi * g
    requires (w + 1) as real * x' == 2.0 * close as real + ((w + 1) as real - 2.0) * x
    requires AbsReal(before as real - x) <= Drift(g, w, lo, hi)
    ensures AbsReal(EmaNext(g, close, before, Alpha(w)) as real - x') <= Drift(g, w, lo, hi)
  {
    hide Alpha, EmaNext, Mul, AbsReal;
    var (m, alpha, e') := ((w + 1) as real, Alpha(w), EmaNext(g, close, before, Alpha(w)) as real);
    EmaNextNearest(g, close, before, alpha);
    WeightRest(w);
    GapWithin(g, close, before, lo, hi);
    assert (SCALE - alpha) as real == UNITS - alpha as real;
    StepOfReals(m, close as real, before as real, x, alpha as real, e', x', g as real, ((hi - lo) * g) as real);
  }

  lemma GapWithin(g: Grain, close: int, before: int, lo: int, hi: int)
    requires lo * g <= close <= hi * g && lo * g <= before <= hi * g
    ensures -(((hi - lo) * g) as real) <= close as real - before as real <= ((hi - lo) * g) as real
  {
    assert (hi - lo) * g == hi * g - lo * g;
  }

  lemma DriftBothWays(m: real, d: real, next: real, weighed: real, step: real, g: real, spread: real)
    requires 2.0 <= m && m * UNITS * next == (m - 2.0) * UNITS * d + weighed + m * step
    requires -(m / 2.0 * spread) <= weighed <= m / 2.0 * spread
    requires -(UNITS / 2.0 * g) <= step <= UNITS / 2.0 * g
    requires AbsReal(d) <= m / 4.0 * (g + spread / UNITS)
    ensures AbsReal(next) <= m / 4.0 * (g + spread / UNITS)
  {
    DriftAtMost(m, d, next, weighed, step, g, spread);
    assert m * UNITS * -next == -(m * UNITS * next) && (m - 2.0) * UNITS * -d == -((m - 2.0) * UNITS * d);
    assert m * -step == -(m * step);
    DriftAtMost(m, -d, -next, -weighed, -step, g, spread);
  }

  lemma EmaUnfolds(g: Grain, cs: seq<Candle>, w: int, i: int)
    requires 1 <= w <= i < |cs|
    ensures Ema(g, cs, w, i) == EmaNext(g, cs[i].close, Ema(g, cs, w, i - 1), Alpha(w))
  {
    hide EmaNext, Alpha;
  }

  /** For closes within any whole units, at every index of a series of any length, the computed average differs
      from the exact one by the drift at most: the roundings of the weight, of the seed and of every step
      together. */
  lemma {:induction false} EmaNearExact(g: Grain, cs: seq<Candle>, w: int, i: int, lo: int, hi: int)
    requires 1 <= w && w - 1 <= i < |cs| && ClosesWithin(cs, 0, i, lo * g, hi * g)
    ensures AbsReal(Ema(g, cs, w, i) as real - ExactEma(cs, w, i)) <= Drift(g, w, lo, hi)
    decreases i
  {
    hide Ema, ExactEma, EmaNext, Alpha, Drift;
    SpreadNonNegative(g, cs, i, lo, hi);
    if i == w - 1 {
      SeedError(g, cs, w);
      SeedWithinDrift(g, w, lo, hi);
    } else {
      EmaNearExact(g, cs, w, i - 1, lo, hi);
      EmaHull(g, cs, w, i - 1, lo, hi);
      EmaUnfolds(g, cs, w, i);
      ExactStep(cs, w, i);
      StepWithinDrift(g, cs[i].close, Ema(g, cs, w, i - 1), ExactEma(cs, w, i - 1), ExactEma(cs, w, i), w, lo, hi);
    }
  }

  lemma DriftInDecimals(g: Grain, e: real, x: real, w: int, lo: int, hi: int)
    requires 1 <= w && AbsReal(e - x) <= Drift(g, w, lo, hi)
    ensures AbsReal(e / (UNITS * g as real) - x / (UNITS * g as real))
         <= (w + 1) as real / 4.0 * (1.0 + (hi - lo) as real / UNITS) / UNITS
  {
    var (n, m, wide) := (g as real, (w + 1) as real, (hi - lo) as real);
    CastProduct(hi - lo, g);
    var bound := m / 4.0 * (1.0 + wide / UNITS);
    assert Drift(g, w, lo, hi) == bound * n by {
      assert (wide * n) / UNITS == (wide / UNITS) * n;
      assert n + (wide / UNITS) * n == (1.0 + wide / UNITS) * n;
    }
    hide Drift;
    ErrorInUnits(e, x, n);
    RatioMono(AbsReal(e - x), bound * n, n);
    RatioIs(bound * n, n, bound);
  }

  /** In decimals: the error is at most (w + 1) / 4 units of 10^-16 for each unit of price that the closes are
      apart, and once more. */
  lemma EmaIsExactUpToDrift(g: Grain, cs: seq<Candle>, w: int, i: int, lo: int, hi: int)
    requires 1 <= w && w - 1 <= i < |cs| && ClosesWithin(cs, 0, i, lo * g, hi * g)
    ensures AbsReal(OnGrid(g, Ema(g, cs, w, i)) - ExactEma(cs, w, i) / (UNITS * g as real))
         <= (w + 1) as real / 4.0 * (1.0 + (hi - lo) as real / UNITS) / UNITS
  {
    hide Ema, ExactEma;
    EmaNearExact(g, cs, w, i, lo, hi);
    DriftInDecimals(g, Ema(g, cs, w, i) as real, ExactEma(cs, w, i), w, lo, hi);
  }
}
