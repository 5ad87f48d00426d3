/** What the feature calculations accept, and what each field of a row holds, in decimals. */
module RowsByValue {
  import opened Candles
  import opened DecimalReference
  import opened Decimals
  import opened Indicators
  import opened RowLaws
  import opened TrendSeries
  import opened VolatilitySeries
  import opened Wrappers

  // ---------------------------------------------------------------- accepted input

  /** The minutes of every interval name. */
  const MINUTES_OF: map<string, int> := map[
    "1" := 1, "1m" := 1, "3" := 3, "3m" := 3, "5" := 5, "5m" := 5, "15" := 15, "15m" := 15, "30" := 30, "30m" := 30,
    "60" := 60, "1h" := 60, "120" := 120, "2h" := 120, "240" := 240, "4h" := 240, "360" := 360, "6h" := 360,
    "720" := 720, "12h" := 720, "d" := 1440, "1d" := 1440]

  lemma IntervalTable(interval: string)
    ensures IntervalDuration(interval)
         == if interval in MINUTES_OF then Some(MINUTES_OF[interval] * 60_000_000_000) else None
  {
  }

  /** A candle of a known interval that opens and closes at set times an interval apart, with positive prices that
      its high and low enclose. */
  predicate SoundCandle(c: Candle) {
    && c.series.exchange != "" && c.series.category != "" && c.series.symbol != ""
    && c.series.interval in MINUTES_OF
    && c.openTime != 0 && c.closeTime != 0
    && c.closeTime - c.openTime == MINUTES_OF[c.series.interval] * 60_000_000_000
    && c.low > 0 && c.low <= c.open && c.low <= c.close && c.open <= c.high && c.close <= c.high
  }

  lemma SoundCandleIff(c: Candle)
    ensures ValidCandle(c) <==> SoundCandle(c)
  {
    IntervalTable(c.series.interval);
    hide IntervalDuration;
  }

  /** A series is accepted exactly when its candles are sound, closed and of one series, and each opens where the
      one before closed. */
  lemma AcceptedSeriesIff(cs: seq<Candle>)
    ensures Contiguous(cs) <==>
      && (forall i | 0 <= i < |cs| :: SoundCandle(cs[i]) && cs[i].closed && cs[i].series == cs[0].series)
      && (forall i | 0 < i < |cs| :: cs[i].openTime == cs[i - 1].closeTime)
  {
    forall i | 0 <= i < |cs| ensures ValidCandle(cs[i]) <==> SoundCandle(cs[i]) {
      SoundCandleIff(cs[i]);
    }
    hide ValidCandle;
    if forall i | 0 <= i < |cs| :: SoundCandle(cs[i]) {
      forall i | 0 < i < |cs| && cs[i].openTime == cs[i - 1].closeTime ensures Follows(cs[i - 1], cs[i]) {
        assert SoundCandle(cs[i - 1]);
      }
    }
  }

  /** The windows of a configuration: a zero asks for the default. */
  function Windows(cfg: TrendConfig): TrendConfig {
    TrendConfig(
      if cfg.ma20 == 0 then 20 else cfg.ma20, if cfg.ma50 == 0 then 50 else cfg.ma50,
      if cfg.ma200 == 0 then 200 else cfg.ma200, if cfg.ema20 == 0 then 20 else cfg.ema20,
      if cfg.ema50 == 0 then 50 else cfg.ema50, if cfg.adx == 0 then 14 else cfg.adx,
      if cfg.structure == 0 then 20 else cfg.structure)
  }

  /** Rows are computed exactly for windows that are not negative, a structure window that is not one, and no
      candles or an accepted series. */
  lemma TrendAcceptsIff(g: Grain, cs: seq<Candle>, cfg: TrendConfig)
    ensures TrendOutcome(g, cs, cfg).Ok? <==>
      && cfg.ma20 >= 0 && cfg.ma50 >= 0 && cfg.ma200 >= 0 && cfg.ema20 >= 0 && cfg.ema50 >= 0 && cfg.adx >= 0
      && cfg.structure >= 0 && cfg.structure != 1 && (cs == [] || Contiguous(cs))
    ensures TrendOutcome(g, cs, cfg).Ok? ==>
      NormalizeTrend(cfg) == Some(Windows(cfg)) && |TrendOutcome(g, cs, cfg).value| == |cs|
    ensures TrendOutcome(g, cs, cfg).Err? ==>
      (TrendOutcome(g, cs, cfg).error == BadConfig <==> NormalizeTrend(cfg).None?)
  {
    hide Contiguous, TrendRowAt;
  }

  // ---------------------------------------------------------------- trend rows

  function Absent(missing: bool, name: string): seq<string> {
    if missing then [name] else []
  }

  /** The value of a window that is full at i, or zero. */
  ghost function MeanOrZero(g: Grain, cs: seq<Candle>, i: int, w: int): real
    requires 1 <= w && 0 <= i < |cs|
  {
    if i >= w - 1 then MeanDecimal(g, cs, i, w) else 0.0
  }

  ghost function EmaOrZero(g: Grain, cs: seq<Candle>, i: int, w: int): real
    requires 1 <= w && 0 <= i < |cs|
  {
    if i >= w - 1 then EmaDecimal(g, cs, w, i) else 0.0
  }

  ghost predicate HasSlope(g: Grain, cs: seq<Candle>, i: int, w: int)
    requires 1 <= w && 0 <= i < |cs|
  {
    i >= w && MeanDecimal(g, cs, i - 1, w) != 0.0
  }

  ghost function SlopeOrZero(g: Grain, cs: seq<Candle>, i: int, w: int): real
    requires 1 <= w && 0 <= i < |cs|
  {
    if HasSlope(g, cs, i, w) then
      Quo(MeanDecimal(g, cs, i, w) - MeanDecimal(g, cs, i - 1, w), MeanDecimal(g, cs, i - 1, w))
    else 0.0
  }

  lemma ZeroIsZero(g: Grain)
    ensures OnGrid(g, 0) == 0.0
  {
    PartsAdd(g, 0, 0);
  }

  lemma MeanField(g: Grain, cs: seq<Candle>, i: int, w: int)
    requires 1 <= w && 0 <= i < |cs|
    ensures OnGrid(g, ValueOr(Sma(g, cs, i, w), 0)) == MeanOrZero(g, cs, i, w)
    ensures Sma(g, cs, i, w).Some? <==> i >= w - 1
  {
    SmaIsDecimal(g, cs, i, w);
    ZeroIsZero(g);
    hide Sma, OnGrid, MeanDecimal;
  }

  lemma EmaField(g: Grain, cs: seq<Candle>, i: int, w: int)
    requires 1 <= w && 0 <= i < |cs|
    ensures OnGrid(g, ValueOr(EmaAt(g, cs, w, i), 0)) == EmaOrZero(g, cs, i, w)
    ensures EmaAt(g, cs, w, i).Some? <==> i >= w - 1
  {
    if i >= w - 1 {
      EmaIsDecimal(g, cs, w, i);
    }
    ZeroIsZero(g);
    hide Ema, EmaDecimal, OnGrid;
  }

  lemma SlopeField(g: Grain, cs: seq<Candle>, i: int, w: int)
    requires 1 <= w && 0 <= i < |cs|
    ensures OnGrid(1, ValueOr(Slope(g, cs, i, w), 0)) == SlopeOrZero(g, cs, i, w)
    ensures Slope(g, cs, i, w).Some? <==> HasSlope(g, cs, i, w)
  {
    SlopeIsDecimal(g, cs, i, w);
    ZeroIsZero(1);
    hide Slope, OnGrid, MeanDecimal, Quo;
  }

  lemma AdxField(g: Grain, cs: seq<Candle>, i: int, w: int)
    requires 1 <= w && 0 <= i < |cs|
    ensures OnGrid(1, ValueOr(AdxAt(g, cs, w, i), 0)) == if i >= 2 * w - 1 then AdxDecimal(g, cs, w, i) else 0.0
    ensures AdxAt(g, cs, w, i).Some? <==> i >= 2 * w - 1
  {
    if i >= 2 * w - 1 {
      AdxIsDecimal(g, cs, w, i);
    }
    ZeroIsZero(1);
    hide Adx, AdxDecimal, OnGrid;
  }

  predicate HighRises(cs: seq<Candle>, j: int)
    requires 0 < j < |cs|
  {
    cs[j].high > cs[j - 1].high
  }

  predicate LowRises(cs: seq<Candle>, j: int)
    requires 0 < j < |cs|
  {
    cs[j].low > cs[j - 1].low
  }

  predicate HighFalls(cs: seq<Candle>, j: int)
    requires 0 < j < |cs|
  {
    cs[j].high < cs[j - 1].high
  }

  predicate LowFalls(cs: seq<Candle>, j: int)
    requires 0 < j < |cs|
  {
    cs[j].low < cs[j - 1].low
  }

  /** How often, in the w candles that end with the one at i, a high or a low is above or below the one before. */
  ghost function StepCounts(cs: seq<Candle>, i: int, w: int): Structure
    requires 1 <= w && 0 <= i < |cs|
  {
    if i < w - 1 then Structure(0, 0, 0, 0)
    else
      Structure(|set j | i + 1 - w < j <= i && HighRises(cs, j)|,
                |set j | i + 1 - w < j <= i && LowRises(cs, j)|,
                |set j | i + 1 - w < j <= i && HighFalls(cs, j)|,
                |set j | i + 1 - w < j <= i && LowFalls(cs, j)|)
  }

  lemma StructureField(cs: seq<Candle>, i: int, w: int)
    requires 1 <= w && 0 <= i < |cs|
    ensures ValueOr(StructureAt(cs, i, w), Structure(0, 0, 0, 0)) == StepCounts(cs, i, w)
    ensures StructureAt(cs, i, w).Some? <==> i >= w - 1
  {
    if i >= w - 1 {
      var start := i + 1 - w;
      assert StepsIn(HigherHigh, cs, start, i) == set j | start < j <= i && HighRises(cs, j);
      assert StepsIn(HigherLow, cs, start, i) == set j | start < j <= i && LowRises(cs, j);
      assert StepsIn(LowerHigh, cs, start, i) == set j | start < j <= i && HighFalls(cs, j);
      assert StepsIn(LowerLow, cs, start, i) == set j | start < j <= i && LowFalls(cs, j);
    }
  }

  lemma NoteAppends(missing: seq<string>, present: bool, name: string)
    ensures Note(missing, present, name) == missing + Absent(!present, name)
  {
  }

  lemma FirstNote(present: bool, name: string)
    ensures Note([], present, name) == Absent(!present, name)
  {
  }

  lemma NineNotes(a: bool, b: bool, c: bool, d: bool, e: bool, f: bool, g: bool, h: bool, i: bool)
    ensures
      Note(Note(Note(Note(Note(Note(Note(Note(Note([], a, "ma20_window"), b, "ma50_window"), c, "ma200_window"),
        d, "ema20_window"), e, "ema50_window"), f, "ma50_slope_window"), g, "ma200_slope_window"), h, "adx_window"),
        i, "structure_window")
      == Absent(!a, "ma20_window") + Absent(!b, "ma50_window") + Absent(!c, "ma200_window")
         + Absent(!d, "ema20_window") + Absent(!e, "ema50_window") + Absent(!f, "ma50_slope_window")
         + Absent(!g, "ma200_slope_window") + Absent(!h, "adx_window") + Absent(!i, "structure_window")
  {
    hide Note, Absent;
    FirstNote(a, "ma20_window");
    var n2 := Absent(!a, "ma20_window");
    NoteAppends(n2, b, "ma50_window");
    var n3 := n2 + Absent(!b, "ma50_window");
    NoteAppends(n3, c, "ma200_window");
    var n4 := n3 + Absent(!c, "ma200_window");
    NoteAppends(n4, d, "ema20_window");
    var n5 := n4 + Absent(!d, "ema20_window");
    NoteAppends(n5, e, "ema50_window");
    var n6 := n5 + Absent(!e, "ema50_window");
    NoteAppends(n6, f, "ma50_slope_window");
    var n7 := n6 + Absent(!f, "ma50_slope_window");
    NoteAppends(n7, g, "ma200_slope_window");
    var n8 := n7 + Absent(!g, "ma200_slope_window");
    NoteAppends(n8, h, "adx_window");
    NoteAppends(n8 + Absent(!h, "adx_window"), i, "structure_window");
  }

  /** What is missing from the row at i, in order. */
  ghost function MissingFrom(g: Grain, cs: seq<Candle>, c: TrendConfig, i: int): seq<string>
    requires UsableTrend(c) && 0 <= i < |cs|
  {
    Absent(i < c.ma20 - 1, "ma20_window") + Absent(i < c.ma50 - 1, "ma50_window")
    + Absent(i < c.ma200 - 1, "ma200_window") + Absent(i < c.ema20 - 1, "ema20_window")
    + Absent(i < c.ema50 - 1, "ema50_window") + Absent(!HasSlope(g, cs, i, c.ma50), "ma50_slope_window")
    + Absent(!HasSlope(g, cs, i, c.ma200), "ma200_slope_window") + Absent(i < 2 * c.adx - 1, "adx_window")
    + Absent(i < c.structure - 1, "structure_window")
  }

  /** Each field of the row at i, in decimals. */
  ghost predicate RowHolds(g: Grain, cs: seq<Candle>, c: TrendConfig, i: int, row: TrendRow)
    requires UsableTrend(c) && 0 <= i < |cs|
  {
    && row.openTime == cs[i].openTime && row.closeTime == cs[i].closeTime
    && OnGrid(g, row.ma20) == MeanOrZero(g, cs, i, c.ma20)
    && OnGrid(g, row.ma50) == MeanOrZero(g, cs, i, c.ma50)
    && OnGrid(g, row.ma200) == MeanOrZero(g, cs, i, c.ma200)
    && OnGrid(g, row.ema20) == EmaOrZero(g, cs, i, c.ema20)
    && OnGrid(g, row.ema50) == EmaOrZero(g, cs, i, c.ema50)
    && OnGrid(1, row.ma50Slope) == SlopeOrZero(g, cs, i, c.ma50)
    && OnGrid(1, row.ma200Slope) == SlopeOrZero(g, cs, i, c.ma200)
    && OnGrid(1, row.adx) == (if i >= 2 * c.adx - 1 then AdxDecimal(g, cs, c.adx, i) else 0.0)
    && row.structure == StepCounts(cs, i, c.structure)
    && row.missing == MissingFrom(g, cs, c, i) && (row.complete <==> row.missing == [])
  }

  lemma RowMissing(g: Grain, cs: seq<Candle>, c: TrendConfig, i: int)
    requires UsableTrend(c) && 0 <= i < |cs|
    ensures TrendMissing(g, cs, c, i) == MissingFrom(g, cs, c, i)
  {
    hide Sma, Slope, EmaAt, AdxAt, StructureAt, OnGrid, ValueOr, HasSlope, Note, Absent;
    hide MeanOrZero, EmaOrZero, SlopeOrZero, AdxDecimal, StepCounts;
    MeanField(g, cs, i, c.ma20);
    MeanField(g, cs, i, c.ma50);
    MeanField(g, cs, i, c.ma200);
    EmaField(g, cs, i, c.ema20);
    EmaField(g, cs, i, c.ema50);
    SlopeField(g, cs, i, c.ma50);
    SlopeField(g, cs, i, c.ma200);
    AdxField(g, cs, i, c.adx);
    StructureField(cs, i, c.structure);
    NineNotes(i >= c.ma20 - 1, i >= c.ma50 - 1, i >= c.ma200 - 1, i >= c.ema20 - 1, i >= c.ema50 - 1,
              HasSlope(g, cs, i, c.ma50), HasSlope(g, cs, i, c.ma200), i >= 2 * c.adx - 1, i >= c.structure - 1);
  }

  lemma RowFields(g: Grain, cs: seq<Candle>, c: TrendConfig, i: int)
    requires UsableTrend(c) && 0 <= i < |cs|
    ensures RowHolds(g, cs, c, i, TrendRowAt(g, cs, c, i))
  {
    hide Sma, Slope, EmaAt, AdxAt, StructureAt, OnGrid, ValueOr, TrendMissing, MissingFrom;
    hide MeanOrZero, EmaOrZero, SlopeOrZero, AdxDecimal, StepCounts;
    MeanField(g, cs, i, c.ma20);
    MeanField(g, cs, i, c.ma50);
    MeanField(g, cs, i, c.ma200);
    EmaField(g, cs, i, c.ema20);
    EmaField(g, cs, i, c.ema50);
    SlopeField(g, cs, i, c.ma50);
    SlopeField(g, cs, i, c.ma200);
    AdxField(g, cs, i, c.adx);
    StructureField(cs, i, c.structure);
    RowMissing(g, cs, c, i);
  }

  /** Every row of the trend features holds, in each of its fields, the decimal value of the configured window at
      its candle. */
  lemma TrendRowByValue(g: Grain, cs: seq<Candle>, cfg: TrendConfig, i: int)
    requires TrendOutcome(g, cs, cfg).Ok? && 0 <= i < |cs|
    ensures UsableTrend(Windows(cfg)) && |TrendOutcome(g, cs, cfg).value| == |cs|
    ensures RowHolds(g, cs, Windows(cfg), i, TrendOutcome(g, cs, cfg).value[i])
  {
    TrendAcceptsIff(g, cs, cfg);
    RowFields(g, cs, Windows(cfg), i);
    hide Contiguous, TrendRowAt, RowHolds;
  }

  // ---------------------------------------------------------------- volatility rows

  /** Volatility rows are computed exactly for a window of ATR that is not negative, other windows that are neither
      negative nor one, a width that is not negative, and no candles or an accepted series. A zero asks for the
      default. */
  lemma VolatilityAcceptsIff(g: Grain, cs: seq<Candle>, cfg: VolatilityConfig)
    ensures VolatilityOutcome(g, cs, cfg).Ok? <==>
      && cfg.atr >= 0 && cfg.rolling >= 0 && cfg.rolling != 1 && cfg.zScore >= 0 && cfg.zScore != 1
      && cfg.bollinger >= 0 && cfg.bollinger != 1 && cfg.compression >= 0 && cfg.compression != 1
      && cfg.stdDev >= 0.0 && (cs == [] || Contiguous(cs))
    ensures VolatilityOutcome(g, cs, cfg).Ok? ==>
      && |VolatilityOutcome(g, cs, cfg).value| == |cs|
      && var c := NormalizeVolatility(cfg).value;
         && c.atr == (if cfg.atr == 0 then 14 else cfg.atr)
         && c.rolling == (if cfg.rolling == 0 then 20 else cfg.rolling)
         && c.zScore == (if cfg.zScore == 0 then 20 else cfg.zScore)
         && c.bollinger == (if cfg.bollinger == 0 then 20 else cfg.bollinger)
         && c.compression == (if cfg.compression == 0 then 20 else cfg.compression)
         && c.stdDev == (if cfg.stdDev == 0.0 then 2.0 else cfg.stdDev)
         && forall i | 0 <= i < |cs| ::
           cs[i].close > 0 && VolatilityOutcome(g, cs, cfg).value[i] == VolatilityRowAt(g, cs, c, i)
  {
    if Contiguous(cs) {
      forall i | 0 <= i < |cs| ensures cs[i].close > 0 {
        assert ValidCandle(cs[i]);
      }
    }
    hide Contiguous, VolatilityRowAt;
  }

  /** The values and the missing ones of the volatility row at i. */
  lemma VolatilityRowByValue(g: Grain, cs: seq<Candle>, c: VolatilityConfig, i: int)
    requires UsableVolatility(c) && 0 <= i < |cs| && cs[i].close > 0
    ensures var row := VolatilityRowAt(g, cs, c, i);
      && row.openTime == cs[i].openTime && row.closeTime == cs[i].closeTime
      && OnGrid(g, cs[i].close) != 0.0
      && OnGrid(g, row.atr) == (if i >= c.atr then AtrDecimal(g, cs, c.atr, i) else 0.0)
      && OnGrid(1, row.atrPercentage)
           == (if i >= c.atr then Quo(AtrDecimal(g, cs, c.atr, i), OnGrid(g, cs[i].close)) else 0.0)
      && row.missing ==
           Absent(i < c.atr, "atr_window") + Absent(i < c.rolling, "rolling_volatility_window")
           + Absent(i < c.rolling + c.zScore - 1, "volatility_z_score_window")
           + Absent(i < c.bollinger - 1, "bollinger_window")
           + Absent(i < c.bollinger + c.compression - 2, "compression_window")
      && (row.complete <==> row.missing == [])
  {
    hide OnGrid, Quo, Div, Atr, AtrDecimal, Note, Absent, ZScoreReady, CompressionReady;
    ZeroIsZero(g);
    ZeroIsZero(1);
    PartsOrder(g, cs[i].close, 0);
    if i >= c.atr {
      AtrIsDecimal(g, cs, c.atr, i);
      QuoOfParts(g, Atr(g, cs, c.atr, i), cs[i].close);
    }
    WindowsReady(c, i);
    FiveNotes(i >= c.atr, i >= c.rolling, i >= c.rolling + c.zScore - 1, i >= c.bollinger - 1,
              i >= c.bollinger + c.compression - 2);
  }

  lemma FiveNotes(a: bool, b: bool, c: bool, d: bool, e: bool)
    ensures
      Note(Note(Note(Note(Note([], a, "atr_window"), b, "rolling_volatility_window"),
        c, "volatility_z_score_window"), d, "bollinger_window"), e, "compression_window")
      == Absent(!a, "atr_window") + Absent(!b, "rolling_volatility_window")
         + Absent(!c, "volatility_z_score_window") + Absent(!d, "bollinger_window") + Absent(!e, "compression_window")
  {
    hide Note, Absent;
    FirstNote(a, "atr_window");
    var n2 := Absent(!a, "atr_window");
    NoteAppends(n2, b, "rolling_volatility_window");
    var n3 := n2 + Absent(!b, "rolling_volatility_window");
    NoteAppends(n3, c, "volatility_z_score_window");
    var n4 := n3 + Absent(!c, "volatility_z_score_window");
    NoteAppends(n4, d, "bollinger_window");
    NoteAppends(n4 + Absent(!d, "bollinger_window"), e, "compression_window");
  }
}
