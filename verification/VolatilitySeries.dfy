/** The average true range and the ready flags of the volatility features.

    The statistics themselves are floating-point numbers and are not modelled: a series stands for its ready
    flags. */
module VolatilitySeries {
  import opened Candles
  import opened Decimals
  import opened Indicators
  import opened TrendSeries
  import opened Wrappers

  datatype VolatilityConfig = VolatilityConfig(
    atr: int, rolling: int, zScore: int, bollinger: int, stdDev: real, compression: int)

  predicate UsableVolatility(c: VolatilityConfig) {
    0 < c.atr && 1 < c.rolling && 1 < c.zScore && 1 < c.bollinger && 0.0 < c.stdDev && 1 < c.compression
  }

  function NormalizeVolatility(cfg: VolatilityConfig): (r: Option<VolatilityConfig>)
    ensures r.Some? ==> UsableVolatility(r.value)
  {
    var c := VolatilityConfig(OrDefault(cfg.atr, 14), OrDefault(cfg.rolling, 20), OrDefault(cfg.zScore, 20),
                              OrDefault(cfg.bollinger, 20), if cfg.stdDev == 0.0 then 2.0 else cfg.stdDev,
                              OrDefault(cfg.compression, 20));
    if UsableVolatility(c) then Some(c) else None
  }

  // ---------------------------------------------------------------- when a value is ready

  predicate RollingReady(c: VolatilityConfig, i: int) {
    c.rolling <= i
  }

  predicate BollingerReady(c: VolatilityConfig, i: int) {
    c.bollinger - 1 <= i
  }

  /** A z-score needs a whole window of rolling volatilities. */
  predicate ZScoreReady(c: VolatilityConfig, i: int) {
    c.zScore <= i + 1 && forall j | i + 1 - c.zScore <= j <= i :: RollingReady(c, j)
  }

  /** A compression needs a whole window of Bollinger widths. */
  predicate CompressionReady(c: VolatilityConfig, i: int) {
    c.compression <= i + 1 && forall j | i + 1 - c.compression <= j <= i :: BollingerReady(c, j)
  }

  datatype VolatilityRow = VolatilityRow(
    openTime: int, closeTime: int, atr: int, atrPercentage: int, complete: bool, missing: seq<string>)

  function VolatilityMissing(g: Grain, cs: seq<Candle>, c: VolatilityConfig, i: int): seq<string>
    requires UsableVolatility(c) && 0 <= i < |cs|
  {
    var ranges := Note(Note([], AtrAt(g, cs, c.atr, i).Some?, "atr_window"),
                       RollingReady(c, i), "rolling_volatility_window");
    var bands := Note(Note(ranges, ZScoreReady(c, i), "volatility_z_score_window"),
                      BollingerReady(c, i), "bollinger_window");
    Note(bands, CompressionReady(c, i), "compression_window")
  }

  function VolatilityRowAt(g: Grain, cs: seq<Candle>, c: VolatilityConfig, i: int): VolatilityRow
    requires UsableVolatility(c) && 0 <= i < |cs| && cs[i].close > 0
  {
    var missing := VolatilityMissing(g, cs, c, i);
    VolatilityRow(cs[i].openTime, cs[i].closeTime, ValueOr(AtrAt(g, cs, c.atr, i), 0),
                  if AtrAt(g, cs, c.atr, i).Some? then Div(AtrAt(g, cs, c.atr, i).value, cs[i].close) else 0,
                  |missing| == 0, missing)
  }

  // ---------------------------------------------------------------- the loops

  lemma AtrStep(g: Grain, cs: seq<Candle>, w: int, i: int)
    requires 1 <= w && 1 <= i < |cs|
    ensures var m := DirectionalMovement(cs[i - 1], cs[i]);
      && (i <= w ==> Smoothed(g, TrueRange, cs, w, i) == Smoothed(g, TrueRange, cs, w, i - 1) + m.trueRange)
      && (i == w ==> Atr(g, cs, w, i) == RoundTo(g, Smoothed(g, TrueRange, cs, w, i), w))
      && (w < i ==> Atr(g, cs, w, i) == Blend(g, Atr(g, cs, w, i - 1), m.trueRange, w))
  {
    hide RoundTo, Blend, DirectionalMovement;
  }

  method AverageTrueRangeSeries(g: Grain, cs: seq<Candle>, w: int) returns (values: array<int>, ready: array<bool>)
    requires 1 <= w
    ensures fresh(values) && fresh(ready) && values.Length == ready.Length == |cs|
    ensures forall i | 0 <= i < |cs| ::
      ready[i] == (w <= i) && values[i] == if w <= i then Atr(g, cs, w, i) else 0
  {
    values := new int[|cs|](_ => 0);
    ready := new bool[|cs|](_ => false);
    if |cs| <= w {
      return;
    }
    var smoothedTR := 0;
    assert Smoothed(g, TrueRange, cs, w, 0) == 0;
    hide Smoothed, Atr, Blend, RoundTo, DirectionalMovement;
    for index := 1 to |cs|
      invariant index <= w + 1 ==> smoothedTR == Smoothed(g, TrueRange, cs, w, index - 1)
      invariant forall i | 0 <= i < index ::
        ready[i] == (w <= i) && values[i] == if w <= i then Atr(g, cs, w, i) else 0
      invariant forall i | index <= i < |cs| :: !ready[i] && values[i] == 0
    {
      AtrStep(g, cs, w, index);
      var m := DirectionalMovement(cs[index - 1], cs[index]);
      if index <= w {
        smoothedTR := smoothedTR + m.trueRange;
        if index == w {
          values[index] := RoundTo(g, smoothedTR, w);
          ready[index] := true;
        }
      } else {
        values[index] := Blend(g, values[index - 1], m.trueRange, w);
        ready[index] := true;
      }
    }
  }

  /** The ready flags of a series whose values exist from one index on. */
  method ReadyFrom(n: nat, first: nat) returns (ready: array<bool>)
    ensures fresh(ready) && ready.Length == n
    ensures forall i | 0 <= i < n :: ready[i] <==> first <= i
  {
    ready := new bool[n](_ => false);
    var index := first;
    while index < n
      invariant first <= index
      invariant forall i | 0 <= i < n :: ready[i] <==> first <= i < index
    {
      ready[index] := true;
      index := index + 1;
    }
  }

  /** The ready flags of a series computed over whole windows of another one. */
  method ReadyWindows(ok: array<bool>, w: int) returns (ready: array<bool>)
    requires 1 <= w
    ensures fresh(ready) && ready.Length == ok.Length
    ensures forall i | 0 <= i < ok.Length ::
      ready[i] <==> w <= i + 1 && forall j | i + 1 - w <= j <= i :: ok[j]
  {
    ready := new bool[ok.Length](_ => false);
    for index := 0 to ok.Length
      invariant forall i | 0 <= i < index ::
        ready[i] <==> w <= i + 1 && forall j | i + 1 - w <= j <= i :: ok[j]
      invariant forall i | index <= i < ok.Length :: !ready[i]
    {
      if index + 1 < w {
        continue;
      }
      var collected := 0;
      for valueIndex := index + 1 - w to index + 1
        invariant collected == valueIndex - (index + 1 - w)
        invariant forall j | index + 1 - w <= j < valueIndex :: ok[j]
      {
        if !ok[valueIndex] {
          collected := 0;
          break;
        }
        collected := collected + 1;
      }
      if collected != w {
        continue;
      }
      ready[index] := true;
    }
  }

  function VolatilityRows(g: Grain, cs: seq<Candle>, c: VolatilityConfig): seq<VolatilityRow>
    requires UsableVolatility(c) && forall i | 0 <= i < |cs| :: cs[i].close > 0
  {
    seq(|cs|, i requires 0 <= i < |cs| => VolatilityRowAt(g, cs, c, i))
  }

  function VolatilityOutcome(g: Grain, cs: seq<Candle>, cfg: VolatilityConfig): Result<seq<VolatilityRow>, TrendError> {
    match NormalizeVolatility(cfg)
    case None => Err(BadConfig)
    case Some(c) =>
      if cs == [] then Ok([]) else if !Contiguous(cs) then Err(BadCandles) else Ok(VolatilityRows(g, cs, c))
  }

  method ComputeVolatilityFeatures(g: Grain, cs: seq<Candle>, cfg: VolatilityConfig)
    returns (r: Result<seq<VolatilityRow>, TrendError>)
    ensures r == VolatilityOutcome(g, cs, cfg)
  {
    hide NormalizeVolatility, Atr, Note, Div;
    var normalized := NormalizeVolatility(cfg);
    if normalized.None? {
      return Err(BadConfig);
    }
    var c := normalized.value;
    if |cs| == 0 {
      return Ok([]);
    }
    var accepted := ValidateFeatureCandles(cs);
    if !accepted {
      return Err(BadCandles);
    }
    var atr, atrOK := AverageTrueRangeSeries(g, cs, c.atr);
    var rollingOK := ReadyFrom(|cs|, c.rolling);
    var zScoreOK := ReadyWindows(rollingOK, c.zScore);
    var bollingerOK := ReadyFrom(|cs|, c.bollinger - 1);
    var compressionOK := ReadyWindows(bollingerOK, c.compression);
    forall i | 0 <= i < |cs|
      ensures zScoreOK[i] == ZScoreReady(c, i) && compressionOK[i] == CompressionReady(c, i)
    {
      if c.zScore <= i + 1 {
        assert forall j | i + 1 - c.zScore <= j <= i :: rollingOK[j] == RollingReady(c, j);
      }
      if c.compression <= i + 1 {
        assert forall j | i + 1 - c.compression <= j <= i :: bollingerOK[j] == BollingerReady(c, j);
      }
    }
    hide ZScoreReady, CompressionReady;
    var rows: seq<VolatilityRow> := [];
    for index := 0 to |cs|
      modifies {}
      invariant |rows| == index
      invariant forall i | 0 <= i < index :: rows[i] == VolatilityRowAt(g, cs, c, i)
    {
      var missing: seq<string> := [];
      var percentage := 0;
      if atrOK[index] {
        percentage := Div(atr[index], cs[index].close);
      }
      missing := Note(missing, atrOK[index], "atr_window");
      missing := Note(missing, rollingOK[index], "rolling_volatility_window");
      missing := Note(missing, zScoreOK[index], "volatility_z_score_window");
      missing := Note(missing, bollingerOK[index], "bollinger_window");
      missing := Note(missing, compressionOK[index], "compression_window");
      assert missing == VolatilityMissing(g, cs, c, index);
      rows := rows + [VolatilityRow(cs[index].openTime, cs[index].closeTime, atr[index], percentage,
                                    |missing| == 0, missing)];
    }
    assert rows == VolatilityRows(g, cs, c);
    return Ok(rows);
  }
}
