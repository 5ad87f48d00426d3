/** The indicators once more, computed on decimals as the program writes them, and the proof that the arithmetic on
    parts gives the same values. */
module DecimalReference {
  import opened Candles
  import opened Decimals
  import opened Indicators

  // ---------------------------------------------------------------- decimals and parts

  lemma PartsAdd(g: Grain, a: int, b: int)
    ensures OnGrid(g, a) + OnGrid(g, b) == OnGrid(g, a + b) && OnGrid(g, a) - OnGrid(g, b) == OnGrid(g, a - b)
    ensures OnGrid(g, 0) == 0.0
  {
    var part := UNITS * g as real;
    assert a as real / part + b as real / part == (a as real + b as real) / part;
    assert a as real / part - b as real / part == (a as real - b as real) / part;
  }

  lemma PartsOrder(g: Grain, a: int, b: int)
    ensures OnGrid(g, a) < OnGrid(g, b) <==> a < b
    ensures OnGrid(g, a) == OnGrid(g, b) <==> a == b
  {
    PartsOf(g, a);
    PartsOf(g, b);
    var part := UNITS * g as real;
    hide OnGrid;
    RealMulMono(OnGrid(g, a), OnGrid(g, b), part);
    RealMulMono(OnGrid(g, b), OnGrid(g, a), part);
  }

  lemma PartsTimes(g: Grain, a: int, n: int)
    ensures OnGrid(g, a) * n as real == OnGrid(g, a * n)
  {
    CastProduct(a, n);
    var part := UNITS * g as real;
    assert (a as real / part) * n as real == (a as real * n as real) / part;
  }

  lemma RoundNegates(x: real)
    ensures Round16(-x) == -Round16(x)
  {
    assert RoundReal(-(x * UNITS)) == -RoundReal(x * UNITS);
    assert (-x) * UNITS == -(x * UNITS);
  }

  /** The quotient of two prices, of any sign. */
  lemma QuoOfParts(g: Grain, a: int, b: int)
    requires b != 0
    ensures OnGrid(g, b) != 0.0 && Quo(OnGrid(g, a), OnGrid(g, b)) == OnGrid(1, Div(a, b))
  {
    PartsOrder(g, b, 0);
    PartsAdd(g, a, 0);
    PartsAdd(g, 0, a);
    PartsAdd(g, 0, b);
    if b > 0 {
      QuoOnGrid(g, a, b);
    } else {
      QuoOnGrid(g, -a, -b);
      assert OnGrid(g, -a) == -OnGrid(g, a) && OnGrid(g, -b) == -OnGrid(g, b);
      assert -(a * SCALE) == -a * SCALE;
      SameRatio(OnGrid(g, a), OnGrid(g, b));
    }
  }

  lemma SameRatio(x: real, y: real)
    requires y != 0.0
    ensures Quo(-x, -y) == Quo(x, y)
  {
    RatioIs(-x, -y, x / y);
  }

  // ---------------------------------------------------------------- averages

  /** The sum of w closes that ends with the close at end. */
  ghost function CloseTotal(g: Grain, cs: seq<Candle>, end: int, w: int): real
    requires 0 <= w && w - 1 <= end < |cs|
    decreases w
  {
    if w == 0 then 0.0 else CloseTotal(g, cs, end, w - 1) + OnGrid(g, cs[end + 1 - w].close)
  }

  ghost function MeanDecimal(g: Grain, cs: seq<Candle>, end: int, w: int): real
    requires 1 <= w && w - 1 <= end < |cs|
  {
    Quo(CloseTotal(g, cs, end, w), w as real)
  }

  ghost function EmaDecimal(g: Grain, cs: seq<Candle>, w: int, i: int): real
    requires 1 <= w && w - 1 <= i < |cs|
    decreases i
  {
    if i == w - 1 then MeanDecimal(g, cs, i, w)
    else Weighted(OnGrid(g, cs[i].close), EmaDecimal(g, cs, w, i - 1), Quo(2.0, (w + 1) as real))
  }

  /** The newest value with its weight and the old average with the rest, rounded. */
  function Weighted(next: real, average: real, weight: real): real {
    Round16(Mul(next, weight) + Mul(average, 1.0 - weight))
  }

  lemma WeightedIsDecimal(g: Grain, close: int, previous: int, alpha: int)
    ensures OnGrid(g, EmaNext(g, close, previous, alpha))
         == Weighted(OnGrid(g, close), OnGrid(g, previous), OnGrid(1, alpha))
  {
    hide OnGrid, Round16, RoundTo, Mul;
    RestWeight(alpha);
    RoundedProducts(g, close, alpha, previous, SCALE - alpha);
  }

  lemma RoundedProducts(g: Grain, a: int, s: int, b: int, t: int)
    ensures Round16(Mul(OnGrid(g, a), OnGrid(1, s)) + Mul(OnGrid(g, b), OnGrid(1, t)))
         == OnGrid(g, RoundTo(g, a * s + b * t, SCALE))
  {
    RoundProductOnGrid(g, a, s, b, t);
  }

  lemma RestWeight(alpha: int)
    ensures OnGrid(1, SCALE - alpha) == 1.0 - OnGrid(1, alpha)
  {
    assert OnGrid(1, SCALE) == 1.0;
    PartsAdd(1, SCALE, alpha);
  }

  lemma {:induction false} TotalIsDecimal(g: Grain, cs: seq<Candle>, end: int, w: int)
    requires 0 <= w && w - 1 <= end < |cs|
    ensures CloseTotal(g, cs, end, w) == OnGrid(g, SumClose(cs, end + 1 - w, end + 1))
    decreases w
  {
    if w == 0 {
      PartsAdd(g, 0, 0);
    } else {
      TotalIsDecimal(g, cs, end, w - 1);
      SumFromFront(cs, end + 1 - w, end + 1);
      PartsAdd(g, SumClose(cs, end + 2 - w, end + 1), cs[end + 1 - w].close);
      hide OnGrid, SumClose;
    }
  }

  lemma {:induction false} SumFromFront(cs: seq<Candle>, lo: int, hi: int)
    requires 0 <= lo < hi <= |cs|
    ensures SumClose(cs, lo, hi) == cs[lo].close + SumClose(cs, lo + 1, hi)
    decreases hi
  {
    if hi == lo + 1 {
      assert SumClose(cs, lo, lo) == 0;
    } else {
      SumFromFront(cs, lo, hi - 1);
    }
  }

  /** The simple average is the decimal mean of the last w closes. */
  lemma SmaIsDecimal(g: Grain, cs: seq<Candle>, end: int, w: int)
    requires 1 <= w && end < |cs|
    ensures Sma(g, cs, end, w).Some? <==> w - 1 <= end
    ensures w - 1 <= end ==> OnGrid(g, Sma(g, cs, end, w).value) == MeanDecimal(g, cs, end, w)
  {
    if w - 1 <= end {
      TotalIsDecimal(g, cs, end, w);
      QuoByInteger(g, SumClose(cs, end + 1 - w, end + 1), w);
      hide OnGrid, RoundTo, Quo, SumClose;
    }
  }

  /** The slope is the decimal change of the mean, relative to the earlier one. */
  lemma SlopeIsDecimal(g: Grain, cs: seq<Candle>, end: int, w: int)
    requires 1 <= w && end < |cs|
    ensures Slope(g, cs, end, w).Some? <==> w <= end && MeanDecimal(g, cs, end - 1, w) != 0.0
    ensures Slope(g, cs, end, w).Some? ==>
      OnGrid(1, Slope(g, cs, end, w).value)
        == Quo(MeanDecimal(g, cs, end, w) - MeanDecimal(g, cs, end - 1, w), MeanDecimal(g, cs, end - 1, w))
  {
    SmaIsDecimal(g, cs, end, w);
    SmaIsDecimal(g, cs, end - 1, w);
    if w <= end {
      var (now, before) := (Sma(g, cs, end, w).value, Sma(g, cs, end - 1, w).value);
      PartsOrder(g, before, 0);
      PartsAdd(g, now, before);
      if before != 0 {
        QuoOfParts(g, now - before, before);
      }
    }
    hide OnGrid, Sma, MeanDecimal, Quo, Div;
  }

  lemma WeightIsDecimal(w: int)
    requires 1 <= w
    ensures Quo(2.0, (w + 1) as real) == OnGrid(1, Alpha(w))
  {
    QuoByInteger(1, 2 * SCALE, w + 1);
    RoundToUnit(2 * SCALE, w + 1);
    assert OnGrid(1, 2 * SCALE) == 2.0;
    hide OnGrid, Quo, RoundPos;
  }

  /** The exponential average is the decimal one, rounding included. */
  lemma {:induction false} EmaIsDecimal(g: Grain, cs: seq<Candle>, w: int, i: int)
    requires 1 <= w && w - 1 <= i < |cs|
    ensures OnGrid(g, Ema(g, cs, w, i)) == EmaDecimal(g, cs, w, i)
    decreases i
  {
    hide OnGrid, Alpha, Quo, Weighted, EmaNext, MeanDecimal;
    if i == w - 1 {
      SmaIsDecimal(g, cs, i, w);
    } else {
      EmaIsDecimal(g, cs, w, i - 1);
      WeightIsDecimal(w);
      WeightedIsDecimal(g, cs[i].close, Ema(g, cs, w, i - 1), Alpha(w));
    }
  }

  // ---------------------------------------------------------------- directional movement

  datatype MovementDecimal = MovementDecimal(trueRange: real, plus: real, minus: real)

  function Larger(x: real, y: real): real {
    if x < y then y else x
  }

  /** The range of a candle and of the gap before it, and the larger of its two moves, if it is larger. */
  function MoveDecimal(g: Grain, previous: Candle, current: Candle): MovementDecimal {
    var (high, low, close) := (OnGrid(g, current.high), OnGrid(g, current.low), OnGrid(g, previous.close));
    var (up, down) := (high - OnGrid(g, previous.high), OnGrid(g, previous.low) - low);
    MovementDecimal(Larger(high - low, Larger(AbsReal(high - close), AbsReal(low - close))),
                    if up > down && up > 0.0 then up else 0.0, if down > up && down > 0.0 then down else 0.0)
  }

  lemma DistanceIsDecimal(g: Grain, x: int, y: int)
    ensures OnGrid(g, x) - OnGrid(g, y) == OnGrid(g, x - y)
    ensures AbsReal(OnGrid(g, x) - OnGrid(g, y)) == OnGrid(g, Abs(x - y))
  {
    PartsAdd(g, x, y);
    PartsAdd(g, 0, x - y);
    PartsOrder(g, x - y, 0);
    hide OnGrid;
  }

  lemma LargerIsDecimal(g: Grain, x: int, y: int)
    ensures Larger(OnGrid(g, x), OnGrid(g, y)) == OnGrid(g, Max(x, y))
  {
    PartsOrder(g, x, y);
    hide OnGrid;
  }

  lemma MoveIsDecimal(g: Grain, previous: Candle, current: Candle)
    ensures var (m, d) := (DirectionalMovement(previous, current), MoveDecimal(g, previous, current));
      OnGrid(g, m.trueRange) == d.trueRange && OnGrid(g, m.plus) == d.plus && OnGrid(g, m.minus) == d.minus
  {
    hide OnGrid, AbsReal, Abs, Max, Larger;
    var (high, low, close) := (current.high, current.low, previous.close);
    DistanceIsDecimal(g, high, low);
    DistanceIsDecimal(g, high, close);
    DistanceIsDecimal(g, low, close);
    LargerIsDecimal(g, Abs(high - close), Abs(low - close));
    LargerIsDecimal(g, high - low, Max(Abs(high - close), Abs(low - close)));
    var (up, down) := (high - previous.high, previous.low - low);
    DistanceIsDecimal(g, high, previous.high);
    DistanceIsDecimal(g, previous.low, low);
    PartsOrder(g, up, down);
    PartsOrder(g, down, up);
    PartsOrder(g, 0, up);
    PartsOrder(g, 0, down);
    PartsAdd(g, 0, 0);
  }

  ghost function RawDecimal(g: Grain, line: Line, cs: seq<Candle>, i: int): real
    requires 1 <= i < |cs|
  {
    var d := MoveDecimal(g, cs[i - 1], cs[i]);
    match line
    case TrueRange => d.trueRange
    case Plus => d.plus
    case Minus => d.minus
  }

  /** Wilder's running total: w movements are added up, after that each step drops a w-th part and adds one. */
  ghost function TotalDecimal(g: Grain, line: Line, cs: seq<Candle>, w: int, i: int): real
    requires 1 <= w && 0 <= i < |cs|
    decreases i
  {
    if i == 0 then 0.0
    else
      var total := TotalDecimal(g, line, cs, w, i - 1);
      if i <= w then total + RawDecimal(g, line, cs, i)
      else total - Quo(total, w as real) + RawDecimal(g, line, cs, i)
  }

  lemma RawIsDecimal(g: Grain, line: Line, cs: seq<Candle>, i: int)
    requires 1 <= i < |cs|
    ensures OnGrid(g, Raw(line, cs, i)) == RawDecimal(g, line, cs, i)
  {
    MoveIsDecimal(g, cs[i - 1], cs[i]);
    hide OnGrid, DirectionalMovement, MoveDecimal;
  }

  lemma {:induction false} SmoothedIsDecimal(g: Grain, line: Line, cs: seq<Candle>, w: int, i: int)
    requires 1 <= w && 0 <= i < |cs|
    ensures OnGrid(g, Smoothed(g, line, cs, w, i)) == TotalDecimal(g, line, cs, w, i)
    decreases i
  {
    hide OnGrid, RoundTo, Quo, Raw, RawDecimal;
    if i == 0 {
      PartsAdd(g, 0, 0);
    } else {
      SmoothedIsDecimal(g, line, cs, w, i - 1);
      RawIsDecimal(g, line, cs, i);
      var (total, raw) := (Smoothed(g, line, cs, w, i - 1), Raw(line, cs, i));
      var part := RoundTo(g, total, w);
      QuoByInteger(g, total, w);
      PartsAdd(g, total, part);
      PartsAdd(g, total, raw);
      PartsAdd(g, total - part, raw);
    }
  }

  /** The directional index of three totals, with both indicators taken times a hundred. */
  function IndexDecimal(range: real, plus: real, minus: real): real {
    if range == 0.0 then 0.0
    else
      var (p, m) := (Quo(plus, range) * 100.0, Quo(minus, range) * 100.0);
      if p + m == 0.0 then 0.0 else Quo(AbsReal(p - m), p + m) * 100.0
  }

  lemma HundredTimes(x: int)
    ensures OnGrid(1, x) * 100.0 == OnGrid(1, x * 100)
  {
  }

  lemma IndexIsDecimal(g: Grain, range: int, plus: int, minus: int)
    ensures OnGrid(1, DirectionalIndex(range, plus, minus))
         == IndexDecimal(OnGrid(g, range), OnGrid(g, plus), OnGrid(g, minus))
  {
    hide OnGrid, Quo, Div, AbsReal, Abs;
    PartsOrder(g, range, 0);
    PartsAdd(g, 0, 0);
    PartsAdd(1, 0, 0);
    if range != 0 {
      QuoOfParts(g, plus, range);
      QuoOfParts(g, minus, range);
      HundredTimes(Div(plus, range));
      HundredTimes(Div(minus, range));
      var (p, m) := (Div(plus, range) * 100, Div(minus, range) * 100);
      PartsAdd(1, p, m);
      DistanceIsDecimal(1, p, m);
      PartsOrder(1, p + m, 0);
      if p + m != 0 {
        QuoOfParts(1, Abs(p - m), p + m);
        HundredTimes(Div(Abs(p - m), p + m));
      }
    }
  }

  ghost function DxDecimal(g: Grain, cs: seq<Candle>, w: int, i: int): real
    requires 1 <= w && 0 <= i < |cs|
  {
    IndexDecimal(TotalDecimal(g, TrueRange, cs, w, i), TotalDecimal(g, Plus, cs, w, i),
                 TotalDecimal(g, Minus, cs, w, i))
  }

  /** The sum of the directional indices from lo up to hi. */
  ghost function DxTotal(g: Grain, cs: seq<Candle>, w: int, lo: int, hi: int): real
    requires 1 <= w && 0 <= lo <= hi <= |cs|
    decreases hi
  {
    if lo == hi then 0.0 else DxTotal(g, cs, w, lo, hi - 1) + DxDecimal(g, cs, w, hi - 1)
  }

  /** The seed is the mean of the first w indices; then each value counts w - 1 times the one before it and once
      the new index. */
  ghost function AdxDecimal(g: Grain, cs: seq<Candle>, w: int, i: int): real
    requires 1 <= w && 2 * w - 1 <= i < |cs|
    decreases i
  {
    if i == 2 * w - 1 then Quo(DxTotal(g, cs, w, w, 2 * w), w as real)
    else Blended(AdxDecimal(g, cs, w, i - 1), DxDecimal(g, cs, w, i), w)
  }

  lemma DxIsDecimal(g: Grain, cs: seq<Candle>, w: int, i: int)
    requires 1 <= w && 0 <= i < |cs|
    ensures OnGrid(1, Dx(g, cs, w, i)) == DxDecimal(g, cs, w, i)
  {
    hide OnGrid, Smoothed, TotalDecimal, DirectionalIndex, IndexDecimal;
    SmoothedIsDecimal(g, TrueRange, cs, w, i);
    SmoothedIsDecimal(g, Plus, cs, w, i);
    SmoothedIsDecimal(g, Minus, cs, w, i);
    IndexIsDecimal(g, Smoothed(g, TrueRange, cs, w, i), Smoothed(g, Plus, cs, w, i), Smoothed(g, Minus, cs, w, i));
  }

  lemma {:induction false} DxTotalIsDecimal(g: Grain, cs: seq<Candle>, w: int, lo: int, hi: int)
    requires 1 <= w && 0 <= lo <= hi <= |cs|
    ensures OnGrid(1, Sum(DxRange(g, cs, w, lo, hi))) == DxTotal(g, cs, w, lo, hi)
    decreases hi
  {
    hide Dx, DxDecimal, OnGrid;
    if lo == hi {
      PartsAdd(1, 0, 0);
    } else {
      DxTotalIsDecimal(g, cs, w, lo, hi - 1);
      DxIsDecimal(g, cs, w, hi - 1);
      var shorter, all := DxRange(g, cs, w, lo, hi - 1), DxRange(g, cs, w, lo, hi);
      assert all[..|all| - 1] == shorter;
      PartsAdd(1, Sum(shorter), Dx(g, cs, w, hi - 1));
    }
  }

  /** The average of w - 1 times the old average and once the new value. */
  function Blended(average: real, next: real, w: int): real
    requires 1 <= w
  {
    Quo(average * (w - 1) as real + next, w as real)
  }

  lemma BlendIsDecimal(g: Grain, average: int, next: int, w: int)
    requires 1 <= w
    ensures OnGrid(g, Blend(g, average, next, w)) == Blended(OnGrid(g, average), OnGrid(g, next), w)
  {
    hide OnGrid, Quo, RoundTo;
    PartsTimes(g, average, w - 1);
    PartsAdd(g, average * (w - 1), next);
    var total := average * (w - 1) + next;
    QuoByInteger(g, total, w);
  }

  /** The ADX is the decimal one, every rounding included. */
  lemma {:induction false} AdxIsDecimal(g: Grain, cs: seq<Candle>, w: int, i: int)
    requires 1 <= w && 2 * w - 1 <= i < |cs|
    ensures OnGrid(1, Adx(g, cs, w, i)) == AdxDecimal(g, cs, w, i)
    decreases i
  {
    hide OnGrid, Quo, Blend, Blended, Dx, DxDecimal, DxRange, Sum, DxTotal, RoundPos;
    if i == 2 * w - 1 {
      var sum := Sum(DxRange(g, cs, w, w, 2 * w));
      DxTotalIsDecimal(g, cs, w, w, 2 * w);
      QuoByInteger(1, sum, w);
      RoundToUnit(sum, w);
    } else {
      AdxIsDecimal(g, cs, w, i - 1);
      DxIsDecimal(g, cs, w, i);
      BlendIsDecimal(1, Adx(g, cs, w, i - 1), Dx(g, cs, w, i), w);
    }
  }

  ghost function AtrDecimal(g: Grain, cs: seq<Candle>, w: int, i: int): real
    requires 1 <= w && w <= i < |cs|
    decreases i
  {
    if i == w then Quo(TotalDecimal(g, TrueRange, cs, w, w), w as real)
    else Blended(AtrDecimal(g, cs, w, i - 1), RawDecimal(g, TrueRange, cs, i), w)
  }

  /** The average true range is the decimal one. */
  lemma {:induction false} AtrIsDecimal(g: Grain, cs: seq<Candle>, w: int, i: int)
    requires 1 <= w && w <= i < |cs|
    ensures OnGrid(g, Atr(g, cs, w, i)) == AtrDecimal(g, cs, w, i)
    decreases i
  {
    hide OnGrid, Quo, Blend, Blended, Raw, RawDecimal, Smoothed, TotalDecimal, RoundTo;
    if i == w {
      SmoothedIsDecimal(g, TrueRange, cs, w, w);
      QuoByInteger(g, Smoothed(g, TrueRange, cs, w, w), w);
    } else {
      AtrIsDecimal(g, cs, w, i - 1);
      RawIsDecimal(g, TrueRange, cs, i);
      BlendIsDecimal(g, Atr(g, cs, w, i - 1), Raw(TrueRange, cs, i), w);
    }
  }

  /** A candle that moves as far up as down makes neither movement, and never both. */
  lemma TiesMoveNeither(previous: Candle, current: Candle)
    ensures var m := DirectionalMovement(previous, current);
      && (current.high - previous.high == previous.low - current.low ==> m.plus == 0 && m.minus == 0)
      && (m.plus == 0 || m.minus == 0)
  {
  }
}
