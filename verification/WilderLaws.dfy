/** Laws of the directional movement index and of the average true range, with every rounding included. */
module WilderLaws {
  import opened Candles
  import opened Decimals
  import opened Indicators

  predicate ClosesInRange(cs: seq<Candle>) {
    forall i | 0 <= i < |cs| :: CloseInRange(cs[i])
  }

  // ---------------------------------------------------------------- smoothed movement

  lemma MovementBounds(previous: Candle, current: Candle)
    requires CloseInRange(previous) && CloseInRange(current)
    ensures var m := DirectionalMovement(previous, current);
      0 <= m.plus && 0 <= m.minus && m.plus + m.minus <= m.trueRange
  {
  }

  /** The windows in which a smoothing step never drops more than there is: two candles or more, or any window
      for prices in whole units. */
  predicate KeepsSign(g: Grain, w: int) {
    2 <= w || (g == 1 && w == 1)
  }

  lemma DecayNonNegative(g: Grain, x: int, w: int)
    requires KeepsSign(g, w) && 0 <= x
    ensures 0 <= Decay(g, x, w)
  {
    MulPositive(g, w);
    var q := RoundPos(x, g * w);
    if w == 1 {
      RoundPosExact(x, 1);
    } else {
      RoundToError(g, x, w);
      DroppedAtMost(g, q, x, w);
    }
  }

  lemma DroppedAtMost(g: Grain, q: int, x: int, w: int)
    requires 2 <= w && 0 <= x && 2 * ((g * q) * w) - 2 * x <= g * w
    ensures g * q <= x
  {
    var part := g * q;
    assert part == q * g && 2 * part + (w - 2) * part == part * w;
    if q <= 0 {
      MulMono(q, 0, g);
    } else {
      MulMono(1, q, g);
      MulMono(g, part, w);
      MulMono(0, w - 2, part);
    }
  }

  /** Where smoothing keeps signs, no smoothed line is ever negative. */
  lemma {:induction false} LinesNonNegative(g: Grain, line: Line, cs: seq<Candle>, w: int, i: int)
    requires KeepsSign(g, w) && 0 <= i < |cs| && ClosesInRange(cs)
    ensures 0 <= Smoothed(g, line, cs, w, i)
    decreases i
  {
    if i == 0 {
    } else {
      LinesNonNegative(g, line, cs, w, i - 1);
      MovementBounds(cs[i - 1], cs[i]);
      DecayNonNegative(g, Smoothed(g, line, cs, w, i - 1), w);
      hide Decay, DirectionalMovement;
    }
  }

  lemma AccumulateMono(a: int, b: int, x: int, y: int, w: int, i: int)
    requires 1 <= w && 0 <= a <= b && 0 <= x <= y
    ensures 0 <= Accumulate(1, a, x, w, i) <= Accumulate(1, b, y, w, i)
  {
    DecayMono(a, b, w);
  }

  /** For prices in whole units each smoothed movement stays between zero and the smoothed range. */
  lemma {:induction false} SmoothedBounds(cs: seq<Candle>, w: int, i: int)
    requires 1 <= w && 0 <= i < |cs| && ClosesInRange(cs)
    ensures 0 <= Smoothed(1, Plus, cs, w, i) <= Smoothed(1, TrueRange, cs, w, i)
    ensures 0 <= Smoothed(1, Minus, cs, w, i) <= Smoothed(1, TrueRange, cs, w, i)
    decreases i
  {
    if i == 0 {
    } else {
      SmoothedBounds(cs, w, i - 1);
      MovementBounds(cs[i - 1], cs[i]);
      var m := DirectionalMovement(cs[i - 1], cs[i]);
      var range := Smoothed(1, TrueRange, cs, w, i - 1);
      AccumulateMono(Smoothed(1, Plus, cs, w, i - 1), range, m.plus, m.trueRange, w, i);
      AccumulateMono(Smoothed(1, Minus, cs, w, i - 1), range, m.minus, m.trueRange, w, i);
    }
  }

  /** While the first window is being added up nothing is rounded: the movements stay within the range, each and
      together. */
  lemma {:induction false} AddedUpBounds(g: Grain, cs: seq<Candle>, w: int, i: int)
    requires 1 <= w && 0 <= i < |cs| && i <= w && ClosesInRange(cs)
    ensures 0 <= Smoothed(g, Plus, cs, w, i) && 0 <= Smoothed(g, Minus, cs, w, i)
    ensures Smoothed(g, Plus, cs, w, i) + Smoothed(g, Minus, cs, w, i) <= Smoothed(g, TrueRange, cs, w, i)
    decreases i
  {
    if i == 0 {
    } else {
      AddedUpBounds(g, cs, w, i - 1);
      MovementBounds(cs[i - 1], cs[i]);
      hide Decay, DirectionalMovement;
    }
  }

  /** A smoothing step cannot leave a bound that both the old value and the new part respect. */
  lemma Contracts(x: int, y: int, w: int, part: int, bound: int)
    requires 1 <= w && y * w == x * (w - 1) + part && x <= bound && part <= bound
    ensures y <= bound
  {
    MulMono(x, bound, w - 1);
    assert bound * (w - 1) + bound == bound * w;
    if y > bound {
      MulMono(bound + 1, y, w);
    }
  }

  lemma DecaySum(e: int, q: int, qw: int, w: int, gw: int)
    requires 1 <= w && qw == q * w && 2 * e <= 3 * gw && 2 * e - 2 * qw <= 3 * gw
    ensures 2 * (e - q) <= 3 * gw
  {
    assert (2 * (e - q)) * w == (2 * e) * (w - 1) + (2 * e - 2 * qw);
    Contracts(2 * e, 2 * (e - q), w, 2 * e - 2 * qw, 3 * gw);
  }

  /** What a smoothing step drops is a w-th part, up to half a unit. */
  lemma DecayError(g: Grain, p: int, w: int)
    requires 1 <= w
    ensures -(g * w) <= 2 * ((p - Decay(g, p, w)) * w) - 2 * p <= g * w
  {
    RoundToError(g, p, w);
    assert p - Decay(g, p, w) == RoundTo(g, p, w);
  }

  lemma DecayDrift(g: Grain, p: int, n: int, t: int, w: int)
    requires 1 <= w && 2 * (p + n - t) <= 3 * (g * w)
    ensures 2 * (Decay(g, p, w) + Decay(g, n, w) - Decay(g, t, w)) <= 3 * (g * w)
  {
    hide Decay;
    DecayError(g, p, w);
    DecayError(g, n, w);
    DecayError(g, t, w);
    var (d, e, f) := (p - Decay(g, p, w), n - Decay(g, n, w), t - Decay(g, t, w));
    assert (d + e - f) * w == d * w + e * w - f * w;
    DecaySum(p + n - t, d + e - f, d * w + e * w - f * w, w, g * w);
  }

  /** The sum of the smoothed movements exceeds the smoothed range by one and a half units per candle of the
      window at most, however long the series is and however many decimals the prices have. */
  lemma {:induction false} SmoothedSumBound(g: Grain, cs: seq<Candle>, w: int, i: int)
    requires 1 <= w && 0 <= i < |cs| && ClosesInRange(cs)
    ensures 2 * (Smoothed(g, Plus, cs, w, i) + Smoothed(g, Minus, cs, w, i) - Smoothed(g, TrueRange, cs, w, i))
         <= 3 * (g * w)
    decreases i
  {
    MulPositive(g, w);
    if i == 0 {
    } else {
      SmoothedSumBound(g, cs, w, i - 1);
      MovementBounds(cs[i - 1], cs[i]);
      hide Decay, DirectionalMovement;
      DecayDrift(g, Smoothed(g, Plus, cs, w, i - 1), Smoothed(g, Minus, cs, w, i - 1),
                 Smoothed(g, TrueRange, cs, w, i - 1), w);
    }
  }

  // ---------------------------------------------------------------- index values

  lemma DivRange(a: int, b: int)
    requires 0 <= a <= b && 0 < b
    ensures 0 <= Div(a, b) <= SCALE
  {
    MulMono(0, a, SCALE);
    MulMono(a, b, SCALE);
    RoundPosHull(a * SCALE, b, 0, SCALE);
  }

  lemma DivNonNegative(a: int, b: int)
    requires 0 <= a && 0 < b
    ensures 0 <= Div(a, b)
  {
    RoundPosExact(0, b);
    RoundPosMono(0 * b, a * SCALE, b);
  }

  /** DX lies in [0, 100] whenever no total is negative, even if a movement exceeds the range. */
  lemma DirectionalIndexRange(range: int, plus: int, minus: int)
    requires 0 <= range && 0 <= plus && 0 <= minus
    ensures 0 <= DirectionalIndex(range, plus, minus) <= 100 * SCALE
  {
    if range != 0 {
      DivNonNegative(plus, range);
      DivNonNegative(minus, range);
      var plusDI, minusDI := Div(plus, range) * 100, Div(minus, range) * 100;
      hide Div;
      if plusDI + minusDI != 0 {
        DivRange(Abs(plusDI - minusDI), plusDI + minusDI);
      }
    }
  }

  lemma DxInRange(g: Grain, cs: seq<Candle>, w: int, i: int)
    requires KeepsSign(g, w) && 0 <= i < |cs| && ClosesInRange(cs)
    ensures 0 <= Dx(g, cs, w, i) <= 100 * SCALE
  {
    LinesNonNegative(g, TrueRange, cs, w, i);
    LinesNonNegative(g, Plus, cs, w, i);
    LinesNonNegative(g, Minus, cs, w, i);
    hide Smoothed;
    DirectionalIndexRange(Smoothed(g, TrueRange, cs, w, i), Smoothed(g, Plus, cs, w, i), Smoothed(g, Minus, cs, w, i));
  }

  lemma {:induction false} SumOfDxInRange(g: Grain, cs: seq<Candle>, w: int, lo: int, hi: int)
    requires KeepsSign(g, w) && 0 <= lo <= hi <= |cs| && ClosesInRange(cs)
    ensures 0 <= Sum(DxRange(g, cs, w, lo, hi)) <= (hi - lo) * (100 * SCALE)
    decreases hi
  {
    hide Dx;
    if lo == hi {
    } else {
      SumOfDxInRange(g, cs, w, lo, hi - 1);
      DxInRange(g, cs, w, hi - 1);
      var shorter, all := DxRange(g, cs, w, lo, hi - 1), DxRange(g, cs, w, lo, hi);
      assert all == shorter + [Dx(g, cs, w, hi - 1)];
      assert all[..|all| - 1] == shorter;
    }
  }

  lemma BlendHull(average: int, next: int, w: int, lo: int, hi: int)
    requires 1 <= w && lo <= average <= hi && lo <= next <= hi
    ensures lo <= Blend(1, average, next, w) <= hi
  {
    MulMono(lo, average, w - 1);
    MulMono(average, hi, w - 1);
    assert lo * (w - 1) + lo == lo * w && hi * (w - 1) + hi == hi * w;
    RoundToHull(1, average * (w - 1) + next, w, lo, hi);
  }

  /** Every ready ADX value lies in [0, 100], for prices of any number of decimals in a window of two candles or
      more, and for prices in whole units in any window. */
  lemma {:induction false} AdxInRange(g: Grain, cs: seq<Candle>, w: int, i: int)
    requires KeepsSign(g, w) && 2 * w - 1 <= i < |cs| && ClosesInRange(cs)
    ensures 0 <= Adx(g, cs, w, i) <= 100 * SCALE
    decreases i
  {
    if i == 2 * w - 1 {
      SumOfDxInRange(g, cs, w, w, 2 * w);
      RoundPosHull(Sum(DxRange(g, cs, w, w, 2 * w)), w, 0, 100 * SCALE);
    } else {
      AdxInRange(g, cs, w, i - 1);
      DxInRange(g, cs, w, i);
      BlendHull(Adx(g, cs, w, i - 1), Dx(g, cs, w, i), w, 0, 100 * SCALE);
    }
  }

  /** The two directional indicators add up to 100 at most, but for one unit of each quotient and for what the
      smoothed movements exceed the smoothed range by. */
  lemma IndicatorSum(range: int, plus: int, minus: int)
    requires 0 < range
    ensures (Div(plus, range) + Div(minus, range) - SCALE - 1) * range <= (plus + minus - range) * SCALE
    ensures plus + minus <= range ==> Div(plus, range) * 100 + Div(minus, range) * 100 <= 100 * SCALE + 100
  {
    RoundPosError(plus * SCALE, range);
    RoundPosError(minus * SCALE, range);
    var (d, e) := (Div(plus, range), Div(minus, range));
    hide Div, RoundPos;
    assert (d + e - SCALE - 1) * range == d * range + e * range - SCALE * range - range;
    assert (plus + minus - range) * SCALE == plus * SCALE + minus * SCALE - range * SCALE;
    if plus + minus <= range {
      MulMono(plus + minus - range, 0, SCALE);
      if d + e - SCALE - 1 > 0 {
        MulMono(1, d + e - SCALE - 1, range);
      }
    }
  }

  lemma IndicatorExcess(range: int, plus: int, minus: int, bound: int)
    requires 0 < range && 2 * (plus + minus - range) <= 3 * bound
    ensures 2 * (Div(plus, range) + Div(minus, range) - SCALE - 1) * range <= 3 * bound * SCALE
  {
    hide Div;
    IndicatorSum(range, plus, minus);
    var excess := Div(plus, range) + Div(minus, range) - SCALE - 1;
    DoubleProduct(excess, range);
    MulMono(2 * (plus + minus - range), 3 * bound, SCALE);
  }

  lemma DoubleProduct(x: int, y: int)
    ensures 2 * x * y == 2 * (x * y)
  {
  }

  /** The invariant of the smoothing loop. At every step, for prices of any number of decimals, the sum of the
      movements and that of the indicators are bounded, and where smoothing keeps signs DX lies in [0, 100].
      During the first window the movements stay within the range together. */
  lemma WilderInvariant(g: Grain, cs: seq<Candle>, w: int, i: int)
    requires 1 <= w && 0 <= i < |cs| && ClosesInRange(cs)
    ensures var (range, plus, minus) :=
        (Smoothed(g, TrueRange, cs, w, i), Smoothed(g, Plus, cs, w, i), Smoothed(g, Minus, cs, w, i));
      && 2 * (plus + minus - range) <= 3 * (g * w)
      && (range > 0 ==> 2 * (Div(plus, range) + Div(minus, range) - SCALE - 1) * range <= 3 * (g * w) * SCALE)
      && (KeepsSign(g, w) ==> 0 <= range && 0 <= plus && 0 <= minus && 0 <= Dx(g, cs, w, i) <= 100 * SCALE)
      && (i <= w ==> 0 <= plus && 0 <= minus && plus + minus <= range)
      && (i <= w && range > 0 ==> Div(plus, range) * 100 + Div(minus, range) * 100 <= 100 * SCALE + 100)
  {
    hide Smoothed, Dx, Div, ClosesInRange;
    var (range, plus, minus) :=
      (Smoothed(g, TrueRange, cs, w, i), Smoothed(g, Plus, cs, w, i), Smoothed(g, Minus, cs, w, i));
    SmoothedSumBound(g, cs, w, i);
    if KeepsSign(g, w) {
      LinesNonNegative(g, TrueRange, cs, w, i);
      LinesNonNegative(g, Plus, cs, w, i);
      LinesNonNegative(g, Minus, cs, w, i);
      DxInRange(g, cs, w, i);
    }
    if i <= w {
      AddedUpBounds(g, cs, w, i);
    }
    if range > 0 {
      IndicatorSum(range, plus, minus);
      IndicatorExcess(range, plus, minus, g * w);
    }
  }

  /** For prices in whole units the guard against a zero range hides nothing, and both indicators lie in
      [0, 100] as well. */
  lemma WholeUnitInvariant(cs: seq<Candle>, w: int, i: int)
    requires 1 <= w && 0 <= i < |cs| && ClosesInRange(cs)
    ensures var (range, plus, minus) :=
        (Smoothed(1, TrueRange, cs, w, i), Smoothed(1, Plus, cs, w, i), Smoothed(1, Minus, cs, w, i));
      && 0 <= plus <= range && 0 <= minus <= range
      && (range == 0 ==> plus == 0 && minus == 0)
      && (range != 0 ==> 0 <= Div(plus, range) * 100 <= 100 * SCALE && 0 <= Div(minus, range) * 100 <= 100 * SCALE)
  {
    SmoothedBounds(cs, w, i);
    hide Smoothed, Div;
    if Smoothed(1, TrueRange, cs, w, i) != 0 {
      DivRange(Smoothed(1, Plus, cs, w, i), Smoothed(1, TrueRange, cs, w, i));
      DivRange(Smoothed(1, Minus, cs, w, i), Smoothed(1, TrueRange, cs, w, i));
    }
  }

  // ---------------------------------------------------------------- two forms of one smoothing

  /** A running total and a running average that agree up to rounding. */
  predicate SameSmoothing(g: Grain, total: int, average: int, w: int) {
    -((g * w) * (w + 1)) <= 2 * (total - w * average) <= (g * w) * (w + 1)
  }

  lemma BlendIdentity(t: int, x: int, w: int, q: int, wa: int, wr: int, k: int)
    requires k * w == wa * (w - 1)
    ensures (2 * (t - q + x - wr)) * w
         == (2 * (t - wa)) * (w - 1) + (2 * t - 2 * (q * w) - (2 * wr - 2 * (k + x)) * w)
  {
    assert (t - q + x - wr) * w == t * w - q * w + x * w - wr * w;
    assert (t - wa) * (w - 1) == t * w - t - wa * (w - 1);
    assert (wr - k - x) * w == wr * w - k * w - x * w;
  }

  lemma ContractsBoth(x: int, y: int, w: int, part: int, bound: int)
    requires 1 <= w && y * w == x * (w - 1) + part && -bound <= x <= bound && -bound <= part <= bound
    ensures -bound <= y <= bound
  {
    Contracts(x, y, w, part, bound);
    assert (-y) * w == (-x) * (w - 1) + -part;
    Contracts(-x, -y, w, -part, bound);
  }

  lemma BlendSum(t: int, x: int, w: int, q: int, qw: int, wa: int, wr: int, k: int, gw: int, gww: int)
    requires 1 <= w && k * w == wa * (w - 1) && qw == q * w && gww == gw * w
    requires -(gww + gw) <= 2 * (t - wa) <= gww + gw
    requires -gw <= 2 * qw - 2 * t <= gw
    requires -gw <= 2 * wr - 2 * (k + x) <= gw
    ensures -(gww + gw) <= 2 * (t - q + x - wr) <= gww + gw
  {
    BlendIdentity(t, x, w, q, wa, wr, k);
    var h := 2 * wr - 2 * (k + x);
    var hw := h * w;
    assert -gww <= hw <= gww by {
      MulMono(h, gw, w);
      MulMono(-gw, h, w);
    }
    ContractsBoth(2 * (t - wa), 2 * (t - q + x - wr), w, 2 * t - 2 * qw - hw, gww + gw);
  }

  lemma BlendError(g: Grain, average: int, next: int, w: int)
    requires 1 <= w
    ensures -(g * w) <= 2 * (Blend(g, average, next, w) * w) - 2 * (average * (w - 1) + next) <= g * w
  {
    RoundToError(g, average * (w - 1) + next, w);
  }

  lemma BlendDrift(g: Grain, total: int, average: int, next: int, w: int)
    requires 1 <= w && SameSmoothing(g, total, average, w)
    ensures SameSmoothing(g, Decay(g, total, w) + next, Blend(g, average, next, w), w)
  {
    hide Decay, Blend;
    var k, q, r := average * (w - 1), total - Decay(g, total, w), Blend(g, average, next, w);
    DecayError(g, total, w);
    BlendError(g, average, next, w);
    BlendProducts(average, w, k, r, g * w);
    BlendSum(total, next, w, q, q * w, w * average, w * r, k, g * w, (g * w) * w);
  }

  lemma BlendProducts(a: int, w: int, k: int, r: int, gw: int)
    requires k == a * (w - 1)
    ensures k * w == (w * a) * (w - 1) && r * w == w * r && gw * (w + 1) == gw * w + gw
  {
  }

  lemma TotalAndAtrStep(g: Grain, cs: seq<Candle>, w: int, i: int)
    requires 1 <= w < i < |cs|
    ensures Smoothed(g, TrueRange, cs, w, i)
         == Decay(g, Smoothed(g, TrueRange, cs, w, i - 1), w) + Raw(TrueRange, cs, i)
    ensures Atr(g, cs, w, i) == Blend(g, Atr(g, cs, w, i - 1), Raw(TrueRange, cs, i), w)
  {
    hide Decay, Blend, Raw;
  }

  lemma FirstAverage(g: Grain, total: int, w: int)
    requires 1 <= w
    ensures SameSmoothing(g, total, RoundTo(g, total, w), w)
  {
    RoundToError(g, total, w);
    MulPositive(g, w);
    hide RoundTo;
    var (gw, average) := (g * w, RoundTo(g, total, w));
    assert gw * (w + 1) == gw * w + gw && average * w == w * average;
    MulMono(0, gw, w);
  }

  /** The running total of the ADX loop and the running average of the ATR loop are one smoothing: at every
      index of a series of any length, the total and w times the average differ by rounding only, by at most
      w(w+1)/2 units. */
  lemma {:induction false} RangeTotalIsWindowTimesAtr(g: Grain, cs: seq<Candle>, w: int, i: int)
    requires 1 <= w <= i < |cs|
    ensures SameSmoothing(g, Smoothed(g, TrueRange, cs, w, i), Atr(g, cs, w, i), w)
    decreases i
  {
    if i == w {
      FirstAverage(g, Smoothed(g, TrueRange, cs, w, w), w);
      hide RoundTo, SameSmoothing, Smoothed;
    } else {
      RangeTotalIsWindowTimesAtr(g, cs, w, i - 1);
      TotalAndAtrStep(g, cs, w, i);
      hide SameSmoothing, Atr, Smoothed, Blend, Decay;
      BlendDrift(g, Smoothed(g, TrueRange, cs, w, i - 1), Atr(g, cs, w, i - 1), Raw(TrueRange, cs, i), w);
    }
  }

  // ---------------------------------------------------------------- where no smoothing step rounds

  /** A total that divides by the window into whole units. */
  predicate Whole(g: Grain, total: int, w: int)
    requires 1 <= w
  {
    MulPositive(g, w);
    total % (g * w) == 0
  }

  /** No smoothing step up to i has to round. */
  predicate SmoothsExactly(g: Grain, line: Line, cs: seq<Candle>, w: int, i: int)
    requires 1 <= w && 0 <= i < |cs|
  {
    forall j | w <= j < i :: Whole(g, Smoothed(g, line, cs, w, j), w)
  }

  /** The units of a w-th part. */
  lemma WholeParts(g: Grain, total: int, w: int) returns (k: int)
    requires 1 <= w && Whole(g, total, w)
    ensures total == (k * g) * w && RoundTo(g, total, w) == k * g
  {
    MulPositive(g, w);
    k := total / (g * w);
    assert total == k * (g * w);
    assert k * (g * w) == (k * g) * w;
    RoundToExact(g, k, w);
  }

  lemma DividesExactly(g: Grain, total: int, w: int)
    requires 1 <= w
    ensures total == w * RoundTo(g, total, w) <==> Whole(g, total, w)
  {
    MulPositive(g, w);
    if Whole(g, total, w) {
      var k := WholeParts(g, total, w);
      assert (k * g) * w == w * (k * g);
    } else {
      var q := RoundPos(total, g * w);
      assert w * (g * q) == (g * w) * q;
      hide RoundPos;
      if total == (g * w) * q {
        MultipleHasNoRest(q, g * w);
      }
    }
  }

  lemma MultipleHasNoRest(q: int, w: int)
    requires 1 <= w
    ensures (w * q) % w == 0
  {
    QuotientUnique(w * q, w, q);
  }

  /** A whole total that is w times the average is smoothed like the average, up to the last rounding. */
  lemma ExactStep(g: Grain, total: int, average: int, next: int, w: int)
    requires 1 <= w && Whole(g, total, w) && total == w * average
    ensures Blend(g, average, next, w) == RoundTo(g, Decay(g, total, w) + next, w)
  {
    DividesExactly(g, total, w);
    hide Whole, RoundTo;
    var part := RoundTo(g, total, w);
    assert part == average by {
      assert w * part == w * average;
      SameFactor(part, average, w);
    }
    assert average * (w - 1) == w * average - average;
  }

  lemma SameFactor(x: int, y: int, w: int)
    requires 1 <= w && w * x == w * y
    ensures x == y
  {
    QuotientUnique(w * x, w, x);
    QuotientUnique(w * y, w, y);
  }

  /** The two smoothing loops agree exactly up to an index, if and only if every range total so far divides by
      the window into whole units. */
  lemma {:induction false} SmoothingsAgreeIff(g: Grain, cs: seq<Candle>, w: int, i: int)
    requires 1 <= w <= i < |cs|
    ensures (forall j | w <= j <= i :: Smoothed(g, TrueRange, cs, w, j) == w * Atr(g, cs, w, j))
       <==> (forall j | w <= j <= i :: Whole(g, Smoothed(g, TrueRange, cs, w, j), w))
    decreases i
  {
    var total := Smoothed(g, TrueRange, cs, w, i);
    DividesExactly(g, total, w);
    if i == w {
      assert Atr(g, cs, w, i) == RoundTo(g, total, w);
      hide Atr, Smoothed, RoundTo, Whole;
    } else {
      SmoothingsAgreeIff(g, cs, w, i - 1);
      TotalAndAtrStep(g, cs, w, i);
      hide Atr, Smoothed, RoundTo, Decay, Blend, Whole;
      var before, average := Smoothed(g, TrueRange, cs, w, i - 1), Atr(g, cs, w, i - 1);
      if before == w * average && Whole(g, before, w) {
        ExactStep(g, before, average, Raw(TrueRange, cs, i), w);
      }
    }
  }

  lemma ExactDecay(g: Grain, p: int, n: int, t: int, w: int)
    requires 1 <= w && Whole(g, p, w) && Whole(g, n, w) && Whole(g, t, w) && p + n <= t
    ensures Decay(g, p, w) + Decay(g, n, w) <= Decay(g, t, w)
  {
    hide Whole;
    var a := WholeParts(g, p, w);
    var b := WholeParts(g, n, w);
    var c := WholeParts(g, t, w);
    hide RoundTo;
    WholeSum(a * g, b * g, c * g, w);
  }

  lemma WholeSum(a: int, b: int, c: int, w: int)
    requires 1 <= w && a * w + b * w <= c * w
    ensures a * w - a + b * w - b <= c * w - c
  {
    if a + b > c {
      MulMono(c + 1, a + b, w);
      assert (c + 1) * w == c * w + w && (a + b) * w == a * w + b * w;
    } else {
      MulMono(a + b, c, w - 1);
      assert (a + b) * (w - 1) == a * w - a + b * w - b && c * (w - 1) == c * w - c;
    }
  }

  /** Where no smoothing step rounds, the smoothed movements never exceed the smoothed range together. */
  lemma {:induction false} ExactSumWithinRange(g: Grain, cs: seq<Candle>, w: int, i: int)
    requires 1 <= w && 0 <= i < |cs| && ClosesInRange(cs)
    requires forall line: Line :: SmoothsExactly(g, line, cs, w, i)
    ensures Smoothed(g, Plus, cs, w, i) + Smoothed(g, Minus, cs, w, i) <= Smoothed(g, TrueRange, cs, w, i)
    decreases i
  {
    if i <= w {
      AddedUpBounds(g, cs, w, i);
    } else {
      var before := i - 1;
      forall line: Line ensures SmoothsExactly(g, line, cs, w, before) {
        assert SmoothsExactly(g, line, cs, w, i);
      }
      assert SmoothsExactly(g, Plus, cs, w, i) && SmoothsExactly(g, Minus, cs, w, i);
      assert SmoothsExactly(g, TrueRange, cs, w, i);
      ExactSumWithinRange(g, cs, w, i - 1);
      MovementBounds(cs[i - 1], cs[i]);
      hide Decay, DirectionalMovement, SmoothsExactly, Whole;
      ExactDecay(g, Smoothed(g, Plus, cs, w, i - 1), Smoothed(g, Minus, cs, w, i - 1),
                 Smoothed(g, TrueRange, cs, w, i - 1), w);
    }
  }
}
