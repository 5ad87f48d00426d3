/** The loops of the trend features, proved to compute the quantities of `Indicators`. */
module TrendSeries {
  import opened Candles
  import opened Decimals
  import opened Indicators
  import opened Wrappers

  method ValidateFeatureCandles(cs: seq<Candle>) returns (ok: bool)
    ensures ok <==> Contiguous(cs)
  {
    var problems := 0;
    for index := 0 to |cs|
      invariant problems >= 0
      invariant problems == 0 <==>
        && (forall i | 0 <= i < index :: ValidCandle(cs[i]) && cs[i].series == cs[0].series && cs[i].closed)
        && (forall i | 0 < i < index :: Follows(cs[i - 1], cs[i]))
    {
      if !ValidCandle(cs[index]) {
        return false;
      }
      if cs[index].series != cs[0].series {
        problems := problems + 1;
      }
      if !cs[index].closed {
        problems := problems + 1;
      }
      if index == 0 {
        continue;
      }
      if cs[index].openTime <= cs[index - 1].openTime {
        problems := problems + 1;
      }
      if cs[index].openTime != cs[index - 1].closeTime {
        problems := problems + 1;
      }
      assert Follows(cs[index - 1], cs[index]) <==>
             cs[index - 1].openTime < cs[index].openTime && cs[index].openTime == cs[index - 1].closeTime;
    }
    return problems == 0;
  }

  method SimpleMovingAverage(g: Grain, cs: seq<Candle>, end: int, w: int) returns (average: Option<int>)
    requires 1 <= w && end < |cs|
    ensures average == Sma(g, cs, end, w)
  {
    if end + 1 < w {
      return None;
    }
    var total := 0;
    for k := end + 1 - w to end + 1
      invariant total == SumClose(cs, end + 1 - w, k)
    {
      total := total + cs[k].close;
    }
    return Some(RoundTo(g, total, w));
  }

  method MovingAverageSlope(g: Grain, cs: seq<Candle>, end: int, w: int) returns (slope: Option<int>)
    requires 1 <= w && end < |cs|
    ensures slope == Slope(g, cs, end, w)
  {
    var current := SimpleMovingAverage(g, cs, end, w);
    var previous := SimpleMovingAverage(g, cs, end - 1, w);
    if current.None? || previous.None? || previous.value == 0 {
      return None;
    }
    return Some(Div(current.value - previous.value, previous.value));
  }

  lemma EmaStep(g: Grain, cs: seq<Candle>, w: int, i: int)
    requires 1 <= w && w - 1 <= i < |cs|
    ensures i == w - 1 ==> Sma(g, cs, i, w) == Some(Ema(g, cs, w, i))
    ensures i >= w ==> Ema(g, cs, w, i) == EmaNext(g, cs[i].close, Ema(g, cs, w, i - 1), Alpha(w))
  {
    hide EmaNext, Alpha;
  }

  method ExponentialMovingAverageSeries(g: Grain, cs: seq<Candle>, w: int)
    returns (values: array<int>, ready: array<bool>)
    requires 1 <= w
    ensures fresh(values) && fresh(ready) && values.Length == ready.Length == |cs|
    ensures forall i | 0 <= i < |cs| ::
      ready[i] == (w - 1 <= i) && values[i] == if w - 1 <= i then Ema(g, cs, w, i) else 0
  {
    values := new int[|cs|](_ => 0);
    ready := new bool[|cs|](_ => false);
    hide Alpha, EmaNext, Ema, Sma;
    var alpha := Alpha(w);
    for index := 0 to |cs|
      invariant forall i | 0 <= i < index ::
        ready[i] == (w - 1 <= i) && values[i] == if w - 1 <= i then Ema(g, cs, w, i) else 0
      invariant forall i | index <= i < |cs| :: !ready[i] && values[i] == 0
    {
      if index + 1 < w {
        continue;
      } else if index + 1 == w {
        var seed := SimpleMovingAverage(g, cs, index, w);
        EmaStep(g, cs, w, index);
        values[index], ready[index] := seed.value, true;
      } else {
        EmaStep(g, cs, w, index);
        values[index] := EmaNext(g, cs[index].close, values[index - 1], alpha);
        ready[index] := true;
      }
    }
  }

  method AverageDecimals(xs: seq<int>) returns (average: int)
    ensures average == if xs == [] then 0 else RoundQuot(Sum(xs), |xs|)
  {
    if |xs| == 0 {
      return 0;
    }
    var total := 0;
    for k := 0 to |xs|
      invariant total == Sum(xs[..k])
    {
      assert xs[..k + 1][..k] == xs[..k];
      total := total + xs[k];
    }
    assert xs[..|xs|] == xs;
    return RoundQuot(total, |xs|);
  }

  /** What the loop variables hold when candle n is next. */
  ghost predicate AdxLoop(g: Grain, cs: seq<Candle>, w: int, n: int, tr: int, plus: int, minus: int, dxs: seq<int>,
                          adx: int)
    requires 1 <= w < |cs| && 1 <= n <= |cs|
  {
    && tr == Smoothed(g, TrueRange, cs, w, n - 1)
    && plus == Smoothed(g, Plus, cs, w, n - 1)
    && minus == Smoothed(g, Minus, cs, w, n - 1)
    && dxs == (if n <= w then [] else DxRange(g, cs, w, w, if n < 2 * w then n else 2 * w))
    && (n < 2 * w || adx == Adx(g, cs, w, n - 1))
  }

  lemma AdxStep(g: Grain, cs: seq<Candle>, w: int, n: int, tr: int, plus: int, minus: int, dxs: seq<int>, adx: int)
    requires 1 <= w < |cs| && 1 <= n < |cs| && AdxLoop(g, cs, w, n, tr, plus, minus, dxs, adx)
    ensures var m := DirectionalMovement(cs[n - 1], cs[n]);
      var (tr', plus', minus') := (
        Accumulate(g, tr, m.trueRange, w, n), Accumulate(g, plus, m.plus, w, n), Accumulate(g, minus, m.minus, w, n));
      var dx := DirectionalIndex(tr', plus', minus');
      if n < w then AdxLoop(g, cs, w, n + 1, tr', plus', minus', dxs, adx)
      else if |dxs| + 1 < w then n < 2 * w - 1 && AdxLoop(g, cs, w, n + 1, tr', plus', minus', dxs + [dx], adx)
      else if |dxs| + 1 == w then
        n == 2 * w - 1 && Adx(g, cs, w, n) == RoundQuot(Sum(dxs + [dx]), w)
        && AdxLoop(g, cs, w, n + 1, tr', plus', minus', dxs + [dx], Adx(g, cs, w, n))
      else
        |dxs| == w && 2 * w <= n && Adx(g, cs, w, n) == Blend(1, adx, dx, w)
        && AdxLoop(g, cs, w, n + 1, tr', plus', minus', dxs, Adx(g, cs, w, n))
  {
    hide RoundQuot, Accumulate, Blend, DirectionalIndex, DirectionalMovement, Sum;
  }

  lemma AdxStart(g: Grain, cs: seq<Candle>, w: int)
    requires 1 <= w < |cs|
    ensures AdxLoop(g, cs, w, 1, 0, 0, 0, [], 0)
  {
  }

  method AverageDirectionalIndexSeries(g: Grain, cs: seq<Candle>, w: int)
    returns (values: array<int>, ready: array<bool>)
    requires 1 <= w
    ensures fresh(values) && fresh(ready) && values.Length == ready.Length == |cs|
    ensures forall i | 0 <= i < |cs| ::
      ready[i] == (2 * w - 1 <= i) && values[i] == if 2 * w - 1 <= i then Adx(g, cs, w, i) else 0
  {
    hide AdxLoop, DirectionalMovement, Accumulate, Blend, DirectionalIndex, Adx, RoundQuot, Sum;
    values := new int[|cs|](_ => 0);
    ready := new bool[|cs|](_ => false);
    if |cs| <= w {
      return;
    }
    var smoothedTR, smoothedPlus, smoothedMinus := 0, 0, 0;
    var dxValues: seq<int> := [];
    var previousADX := 0;
    AdxStart(g, cs, w);
    for index := 1 to |cs|
      invariant AdxLoop(g, cs, w, index, smoothedTR, smoothedPlus, smoothedMinus, dxValues, previousADX)
      invariant forall i | 0 <= i < index ::
        ready[i] == (2 * w - 1 <= i) && values[i] == if 2 * w - 1 <= i then Adx(g, cs, w, i) else 0
      invariant forall i | index <= i < |cs| :: !ready[i] && values[i] == 0
    {
      AdxStep(g, cs, w, index, smoothedTR, smoothedPlus, smoothedMinus, dxValues, previousADX);
      var m := DirectionalMovement(cs[index - 1], cs[index]);
      smoothedTR := Accumulate(g, smoothedTR, m.trueRange, w, index);
      smoothedPlus := Accumulate(g, smoothedPlus, m.plus, w, index);
      smoothedMinus := Accumulate(g, smoothedMinus, m.minus, w, index);
      if index < w {
        continue;
      }
      var dx := DirectionalIndex(smoothedTR, smoothedPlus, smoothedMinus);
      if |dxValues| < w {
        dxValues := dxValues + [dx];
        if |dxValues| == w {
          previousADX := AverageDecimals(dxValues);
          values[index] := previousADX;
          ready[index] := true;
        }
        continue;
      }
      previousADX := Blend(1, previousADX, dx, w);
      values[index] := previousADX;
      ready[index] := true;
    }
  }

  lemma StepsGrow(step: Step, cs: seq<Candle>, start: int, end: int)
    requires 0 <= start < end < |cs|
    ensures |StepsIn(step, cs, start, end)|
         == |StepsIn(step, cs, start, end - 1)| + (if StepAt(step, cs, end) then 1 else 0)
  {
    var before := StepsIn(step, cs, start, end - 1);
    assert StepsIn(step, cs, start, end) == if StepAt(step, cs, end) then before + {end} else before;
  }

  method StructureCounts(cs: seq<Candle>, end: int, w: int) returns (counts: Option<Structure>)
    requires 1 <= w && 0 <= end < |cs|
    ensures counts == StructureAt(cs, end, w)
  {
    if end + 1 < w {
      return None;
    }
    var higherHigh, higherLow, lowerHigh, lowerLow := 0, 0, 0, 0;
    var start := end + 1 - w;
    forall step: Step ensures StepsIn(step, cs, start, start) == {} {
    }
    for index := start + 1 to end + 1
      invariant Structure(higherHigh, higherLow, lowerHigh, lowerLow) == StructureBetween(cs, start, index - 1)
    {
      forall step: Step
        ensures |StepsIn(step, cs, start, index)|
             == |StepsIn(step, cs, start, index - 1)| + (if StepAt(step, cs, index) then 1 else 0)
      {
        StepsGrow(step, cs, start, index);
      }
      var previous, current := cs[index - 1], cs[index];
      if current.high > previous.high {
        higherHigh := higherHigh + 1;
      } else if current.high < previous.high {
        lowerHigh := lowerHigh + 1;
      }
      if current.low > previous.low {
        higherLow := higherLow + 1;
      } else if current.low < previous.low {
        lowerLow := lowerLow + 1;
      }
    }
    return Some(Structure(higherHigh, higherLow, lowerHigh, lowerLow));
  }

  datatype TrendError = BadConfig | BadCandles

  function TrendRows(g: Grain, cs: seq<Candle>, c: TrendConfig): seq<TrendRow>
    requires UsableTrend(c)
  {
    seq(|cs|, i requires 0 <= i < |cs| => TrendRowAt(g, cs, c, i))
  }

  /** All trend rows of a candle sequence, or the reason there are none. */
  function TrendOutcome(g: Grain, cs: seq<Candle>, cfg: TrendConfig): Result<seq<TrendRow>, TrendError> {
    match NormalizeTrend(cfg)
    case None => Err(BadConfig)
    case Some(c) =>
      if cs == [] then Ok([]) else if !Contiguous(cs) then Err(BadCandles) else Ok(TrendRows(g, cs, c))
  }

  /** The body of the row loop, for one candle and the three precomputed columns at it. */
  method ComputeTrendRow(g: Grain, cs: seq<Candle>, c: TrendConfig, index: int,
                         ema20: int, ema20OK: bool, ema50: int, ema50OK: bool, adx: int, adxOK: bool)
    returns (row: TrendRow)
    requires UsableTrend(c) && 0 <= index < |cs|
    requires ema20OK == EmaAt(g, cs, c.ema20, index).Some? && ema20 == ValueOr(EmaAt(g, cs, c.ema20, index), 0)
    requires ema50OK == EmaAt(g, cs, c.ema50, index).Some? && ema50 == ValueOr(EmaAt(g, cs, c.ema50, index), 0)
    requires adxOK == AdxAt(g, cs, c.adx, index).Some? && adx == ValueOr(AdxAt(g, cs, c.adx, index), 0)
    ensures row == TrendRowAt(g, cs, c, index)
  {
    hide Sma, Slope, StructureAt, EmaAt, AdxAt, Note, ValueOr;
    var missing: seq<string> := [];
    var ma20 := SimpleMovingAverage(g, cs, index, c.ma20);
    missing := Note(missing, ma20.Some?, "ma20_window");
    var ma50 := SimpleMovingAverage(g, cs, index, c.ma50);
    missing := Note(missing, ma50.Some?, "ma50_window");
    var ma200 := SimpleMovingAverage(g, cs, index, c.ma200);
    missing := Note(missing, ma200.Some?, "ma200_window");
    missing := Note(missing, ema20OK, "ema20_window");
    missing := Note(missing, ema50OK, "ema50_window");
    var slope50 := MovingAverageSlope(g, cs, index, c.ma50);
    missing := Note(missing, slope50.Some?, "ma50_slope_window");
    var slope200 := MovingAverageSlope(g, cs, index, c.ma200);
    missing := Note(missing, slope200.Some?, "ma200_slope_window");
    missing := Note(missing, adxOK, "adx_window");
    var counts := StructureCounts(cs, index, c.structure);
    missing := Note(missing, counts.Some?, "structure_window");
    return TrendRow(
        cs[index].openTime, cs[index].closeTime,
        ValueOr(ma20, 0), ValueOr(ma50, 0), ValueOr(ma200, 0), ema20, ema50,
        ValueOr(slope50, 0), ValueOr(slope200, 0), adx,
        ValueOr(counts, Structure(0, 0, 0, 0)), |missing| == 0, missing);
  }

  method ComputeTrendFeatures(g: Grain, cs: seq<Candle>, cfg: TrendConfig)
    returns (r: Result<seq<TrendRow>, TrendError>)
    ensures r == TrendOutcome(g, cs, cfg)
  {
    hide TrendRowAt, NormalizeTrend, Contiguous, Ema, Adx;
    var normalized := NormalizeTrend(cfg);
    if normalized.None? {
      return Err(BadConfig);
    }
    var c := normalized.value;
    if |cs| == 0 {
      return Ok([]);
    }
    var accepted := ValidateFeatureCandles(cs);
    if !accepted {
      return Err(BadCandles);
    }
    var ema20, ema20OK := ExponentialMovingAverageSeries(g, cs, c.ema20);
    var ema50, ema50OK := ExponentialMovingAverageSeries(g, cs, c.ema50);
    var adx, adxOK := AverageDirectionalIndexSeries(g, cs, c.adx);
    var rows: seq<TrendRow> := [];
    for index := 0 to |cs|
      modifies {}
      invariant |rows| == index
      invariant forall i | 0 <= i < index :: rows[i] == TrendRowAt(g, cs, c, i)
    {
      var row := ComputeTrendRow(g, cs, c, index, ema20[index], ema20OK[index], ema50[index], ema50OK[index],
                                 adx[index], adxOK[index]);
      rows := rows + [row];
    }
    assert rows == TrendRows(g, cs, c);
    return Ok(rows);
  }
}
