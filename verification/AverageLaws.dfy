/** Laws of the moving averages: rounding never accumulates, and values stay in the price hull. */
module AverageLaws {
  import opened Candles
  import opened Decimals
  import opened Indicators

  lemma AlphaRange(w: int)
    requires 1 <= w
    ensures 0 <= Alpha(w) <= SCALE
    ensures w < 4 * SCALE ==> 1 <= Alpha(w)
  {
    MulMono(2, w + 1, SCALE);
    RoundPosHull(2 * SCALE, w + 1, 0, SCALE);
    if w < 4 * SCALE {
      RoundPosNearest(2 * SCALE, w + 1);
    }
  }

  // ---------------------------------------------------------------- error of the exponential average

  /** The exponential average with the same weight and the same seed, but without rounding its steps. */
  ghost function EmaUnrounded(g: Grain, cs: seq<Candle>, w: int, i: int): real
    requires 1 <= w && w - 1 <= i < |cs|
    decreases i
  {
    if i == w - 1 then Ema(g, cs, w, i) as real
    else
      (Mul(cs[i].close as real, Alpha(w) as real)
       + Mul(EmaUnrounded(g, cs, w, i - 1), (SCALE - Alpha(w)) as real)) / UNITS
  }

  /** The error of the rounded average, in units. */
  ghost function EmaError(g: Grain, cs: seq<Candle>, w: int, i: int): real
    requires 1 <= w && w - 1 <= i < |cs|
  {
    AbsReal(Ema(g, cs, w, i) as real - EmaUnrounded(g, cs, w, i)) / g as real
  }

  lemma AbsProduct(e: real, r: real)
    requires 0.0 <= r
    ensures AbsReal(e * r) <= AbsReal(e) * r
  {
    if r > 0.0 {
      RealMulMono(e, 0.0, r);
      RealMulMono(0.0, e, r);
    }
  }

  /** v and x are the old values, rounded is the new rounded value and y the new exact one. */
  lemma ErrorStepAlgebra(p: real, v: real, x: real, r: real, rounded: real, y: real, half: real)
    requires 0.0 <= r && UNITS * y == p + Mul(x, r)
    requires -half <= rounded * UNITS - (p + Mul(v, r)) <= half
    ensures UNITS * AbsReal(rounded - y) <= Mul(AbsReal(v - x), r) + half
  {
    AbsProduct(v - x, r);
    assert (v - x) * r == Mul(v, r) - Mul(x, r);
    ErrorSum((v - x) * r, rounded, y, p + Mul(v, r), half);
  }

  lemma ErrorSum(drift: real, rounded: real, y: real, n: real, half: real)
    requires -half <= rounded * UNITS - n <= half && n - UNITS * y == drift
    ensures UNITS * AbsReal(rounded - y) <= AbsReal(drift) + half
  {
  }

  lemma EmaNextNearest(g: Grain, close: int, previous: int, alpha: int)
    ensures var n := Mul(close as real, alpha as real) + Mul(previous as real, (SCALE - alpha) as real);
      -(UNITS / 2.0 * g as real) <= EmaNext(g, close, previous, alpha) as real * UNITS - n <= UNITS / 2.0 * g as real
  {
    var p, q := close * alpha, previous * (SCALE - alpha);
    RoundToError(g, p + q, SCALE);
    CastProduct(close, alpha);
    CastProduct(previous, SCALE - alpha);
    CastHalf(g, EmaNext(g, close, previous, alpha), p, q);
  }

  lemma CastHalf(g: Grain, rounded: int, p: int, q: int)
    requires -(g * SCALE) <= 2 * (rounded * SCALE) - 2 * (p + q) <= g * SCALE
    ensures -(UNITS / 2.0 * g as real) <= rounded as real * UNITS - (p as real + q as real) <= UNITS / 2.0 * g as real
  {
  }

  lemma DivideError(e: real, f: real, r: real, n: real)
    requires n > 0.0 && UNITS * f <= Mul(e, r) + UNITS / 2.0 * n
    ensures UNITS * (f / n) <= Mul(e / n, r) + UNITS / 2.0
  {
    RatioMono(UNITS * f, Mul(e, r) + UNITS / 2.0 * n, n);
    assert ((e / n) * r) * n == e * r;
    RatioIs(Mul(e, r) + UNITS / 2.0 * n, n, Mul(e / n, r) + UNITS / 2.0);
  }

  /** One step: the old error shrinks by 1 - alpha and at most half a unit is added. */
  lemma EmaErrorStep(g: Grain, cs: seq<Candle>, w: int, i: int)
    requires 1 <= w <= i < |cs|
    ensures UNITS * EmaError(g, cs, w, i)
         <= Mul(EmaError(g, cs, w, i - 1), (SCALE - Alpha(w)) as real) + UNITS / 2.0
  {
    AlphaRange(w);
    hide Alpha, EmaNext, Mul;
    var alpha, before, x := Alpha(w), Ema(g, cs, w, i - 1), EmaUnrounded(g, cs, w, i - 1);
    EmaNextNearest(g, cs[i].close, before, alpha);
    ErrorStepAlgebra(Mul(cs[i].close as real, alpha as real), before as real, x, (SCALE - alpha) as real,
                     Ema(g, cs, w, i) as real, EmaUnrounded(g, cs, w, i), UNITS / 2.0 * g as real);
    DivideError(AbsReal(before as real - x), AbsReal(Ema(g, cs, w, i) as real - EmaUnrounded(g, cs, w, i)),
                (SCALE - alpha) as real, g as real);
  }

  lemma ContractAlgebra(a: real, p: real, q: real)
    requires 0.0 <= a <= UNITS && 2.0 * p <= UNITS
    requires UNITS * q <= p * (UNITS - a) + UNITS * a / 2.0
    ensures 2.0 * q <= UNITS
  {
    var r := UNITS - a;
    if r > 0.0 {
      RealMulMono(2.0 * p, UNITS, r);
    }
    assert 2.0 * (p * r) <= UNITS * r;
  }

  lemma EmaErrorContracts(a: real, e: real, f: real)
    requires 0.0 <= a <= UNITS && 2.0 * Mul(a, e) <= UNITS
    requires UNITS * f <= Mul(e, UNITS - a) + UNITS / 2.0
    ensures 2.0 * Mul(a, f) <= UNITS
  {
    var r := UNITS - a;
    var gap := e * r + UNITS / 2.0 - UNITS * f;
    assert 0.0 <= gap * a by {
      if a > 0.0 {
        RealMulMono(0.0, gap, a);
      }
    }
    assert gap * a == (a * e) * r + UNITS * a / 2.0 - UNITS * (a * f);
    ContractAlgebra(a, a * e, a * f);
  }

  lemma {:induction false} EmaErrorScaled(g: Grain, cs: seq<Candle>, w: int, i: int)
    requires 1 <= w && w - 1 <= i < |cs|
    ensures 2.0 * Mul(Alpha(w) as real, EmaError(g, cs, w, i)) <= UNITS
    decreases i
  {
    if i == w - 1 {
      assert EmaError(g, cs, w, i) == 0.0;
    } else {
      EmaErrorScaled(g, cs, w, i - 1);
      EmaErrorStep(g, cs, w, i);
      AlphaRange(w);
      hide Mul, Alpha, EmaError;
      EmaErrorContracts(Alpha(w) as real, EmaError(g, cs, w, i - 1), EmaError(g, cs, w, i));
    }
  }

  lemma BoundAlgebra(a: real, e: real)
    requires a > 0.0 && 2.0 * Mul(a, e) <= UNITS
    ensures e / UNITS <= 0.5 / UNITS / (a / UNITS)
  {
    RatioMono(a * e, UNITS / 2.0, a);
    assert (a * e) / a == e;
    var bound := 0.5 / UNITS / (a / UNITS);
    assert bound * (a / UNITS) == 0.5 / UNITS;
    assert bound * a == 0.5;
    assert (UNITS / 2.0 / a) * a == UNITS / 2.0;
    assert bound == (UNITS / 2.0 / a) / UNITS by {
      assert (bound - (UNITS / 2.0 / a) / UNITS) * a == 0.0;
    }
  }

  lemma ErrorInUnits(v: real, x: real, n: real)
    requires n > 0.0
    ensures AbsReal(v / (UNITS * n) - x / (UNITS * n)) == AbsReal(v - x) / n / UNITS
  {
    var (d, c) := (v - x, UNITS * n);
    var q := d / n / UNITS;
    assert q * c == d by {
      assert (q * UNITS) * n == (d / n) * n;
    }
    RatioIs(d, c, q);
    assert v / c - x / c == d / c;
    assert AbsReal(d) / n / UNITS == AbsReal(q) by {
      RatioIs(-d, n, -(d / n));
      if d < 0.0 {
        RatioMono(d, 0.0, n);
      } else {
        RatioMono(0.0, d, n);
      }
    }
  }

  /** Rounding each step never accumulates: for closes of any number of decimals, at every index of a series of
      any length, the error is at most half a unit divided by alpha. */
  lemma EmaRoundingNeverAccumulates(g: Grain, cs: seq<Candle>, w: int, i: int)
    requires 1 <= w < 4 * SCALE && w - 1 <= i < |cs|
    ensures Alpha(w) > 0
    ensures AbsReal(OnGrid(g, Ema(g, cs, w, i)) - EmaUnrounded(g, cs, w, i) / (UNITS * g as real))
         <= 0.5 / UNITS / OnGrid(1, Alpha(w))
  {
    AlphaRange(w);
    EmaErrorScaled(g, cs, w, i);
    hide Alpha, Ema, EmaUnrounded, Mul;
    BoundAlgebra(Alpha(w) as real, EmaError(g, cs, w, i));
    ErrorInUnits(Ema(g, cs, w, i) as real, EmaUnrounded(g, cs, w, i), g as real);
  }

  // ---------------------------------------------------------------- price hull

  predicate ClosesWithin(cs: seq<Candle>, start: int, stop: int, lo: int, hi: int) {
    forall j | start <= j <= stop && 0 <= j < |cs| :: lo <= cs[j].close <= hi
  }

  lemma {:induction false} SumHull(cs: seq<Candle>, start: int, stop: int, lo: int, hi: int)
    requires 0 <= start <= stop <= |cs| && ClosesWithin(cs, start, stop - 1, lo, hi)
    ensures lo * (stop - start) <= SumClose(cs, start, stop) <= hi * (stop - start)
    decreases stop
  {
    if start == stop {
    } else {
      SumHull(cs, start, stop - 1, lo, hi);
      assert lo * (stop - start) == lo * (stop - 1 - start) + lo;
      assert hi * (stop - start) == hi * (stop - 1 - start) + hi;
    }
  }

  /** A ready simple average lies between any whole units that bound the closes it averages. */
  lemma SmaHull(g: Grain, cs: seq<Candle>, end: int, w: int, lo: int, hi: int)
    requires 1 <= w && w - 1 <= end < |cs| && ClosesWithin(cs, end + 1 - w, end, lo * g, hi * g)
    ensures lo * g <= Sma(g, cs, end, w).value <= hi * g
  {
    SumHull(cs, end + 1 - w, end + 1, lo * g, hi * g);
    RoundToHull(g, SumClose(cs, end + 1 - w, end + 1), w, lo, hi);
  }

  /** A ready exponential average lies between any whole units that bound all closes seen so far. */
  lemma {:induction false} EmaHull(g: Grain, cs: seq<Candle>, w: int, i: int, lo: int, hi: int)
    requires 1 <= w && w - 1 <= i < |cs| && ClosesWithin(cs, 0, i, lo * g, hi * g)
    ensures lo * g <= Ema(g, cs, w, i) <= hi * g
    decreases i
  {
    if i == w - 1 {
      SmaHull(g, cs, i, w, lo, hi);
    } else {
      EmaHull(g, cs, w, i - 1, lo, hi);
      AlphaRange(w);
      EmaNextHull(g, cs[i].close, Ema(g, cs, w, i - 1), Alpha(w), lo, hi);
    }
  }

  lemma EmaNextHull(g: Grain, close: int, previous: int, alpha: int, lo: int, hi: int)
    requires lo * g <= close <= hi * g && lo * g <= previous <= hi * g && 0 <= alpha <= SCALE
    ensures lo * g <= EmaNext(g, close, previous, alpha) <= hi * g
  {
    var (rest, low, high) := (SCALE - alpha, lo * g, hi * g);
    MulMono(low, close, alpha);
    MulMono(close, high, alpha);
    MulMono(low, previous, rest);
    MulMono(previous, high, rest);
    assert low * alpha + low * rest == low * SCALE;
    assert high * alpha + high * rest == high * SCALE;
    RoundToHull(g, close * alpha + previous * rest, SCALE, lo, hi);
  }
}
