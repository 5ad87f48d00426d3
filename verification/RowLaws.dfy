/** Laws of whole feature rows: they never look ahead, and from which candle on they are complete. */
module RowLaws {
  import opened Candles
  import opened Decimals
  import opened Indicators
  import opened SymmetryLaws
  import opened TrendSeries
  import opened VolatilitySeries
  import opened WilderLaws
  import opened Wrappers

  // ---------------------------------------------------------------- no lookahead

  /** Two candle sequences with the same first n candles. */
  predicate AgreeUpTo(a: seq<Candle>, b: seq<Candle>, n: int) {
    0 <= n <= |a| && n <= |b| && a[..n] == b[..n]
  }

  lemma AgreeAt(a: seq<Candle>, b: seq<Candle>, n: int, i: int)
    requires AgreeUpTo(a, b, n) && 0 <= i < n
    ensures a[i] == b[i]
  {
    assert a[i] == a[..n][i];
  }

  lemma {:induction false} SumAgrees(a: seq<Candle>, b: seq<Candle>, n: int, lo: int, hi: int)
    requires AgreeUpTo(a, b, n) && 0 <= lo <= hi <= n
    ensures SumClose(a, lo, hi) == SumClose(b, lo, hi)
    decreases hi
  {
    if lo == hi {
    } else {
      AgreeAt(a, b, n, hi - 1);
      SumAgrees(a, b, n, lo, hi - 1);
    }
  }

  lemma AverageAgrees(g: Grain, a: seq<Candle>, b: seq<Candle>, n: int, end: int, w: int)
    requires AgreeUpTo(a, b, n) && 1 <= w && end < n
    ensures Sma(g, a, end, w) == Sma(g, b, end, w) && Slope(g, a, end, w) == Slope(g, b, end, w)
  {
    hide RoundTo, Div;
    if w <= end + 1 {
      SumAgrees(a, b, n, end + 1 - w, end + 1);
    }
    if w <= end {
      SumAgrees(a, b, n, end - w, end);
    }
  }

  lemma {:induction false} EmaAgrees(g: Grain, a: seq<Candle>, b: seq<Candle>, n: int, w: int, i: int)
    requires AgreeUpTo(a, b, n) && 1 <= w && w - 1 <= i < n
    ensures Ema(g, a, w, i) == Ema(g, b, w, i)
    decreases i
  {
    hide EmaNext, Alpha, Sma;
    AgreeAt(a, b, n, i);
    if i == w - 1 {
      AverageAgrees(g, a, b, n, i, w);
    } else {
      EmaAgrees(g, a, b, n, w, i - 1);
    }
  }

  lemma RawAgrees(line: Line, a: seq<Candle>, b: seq<Candle>, n: int, i: int)
    requires AgreeUpTo(a, b, n) && 1 <= i < n
    ensures Raw(line, a, i) == Raw(line, b, i)
  {
    AgreeAt(a, b, n, i - 1);
    AgreeAt(a, b, n, i);
  }

  lemma {:induction false} SmoothedAgrees(g: Grain, line: Line, a: seq<Candle>, b: seq<Candle>, n: int, w: int, i: int)
    requires AgreeUpTo(a, b, n) && 1 <= w && 0 <= i < n
    ensures Smoothed(g, line, a, w, i) == Smoothed(g, line, b, w, i)
    decreases i
  {
    hide Accumulate, Raw;
    if i == 0 {
    } else {
      RawAgrees(line, a, b, n, i);
      SmoothedAgrees(g, line, a, b, n, w, i - 1);
    }
  }

  lemma AdxAgrees(g: Grain, a: seq<Candle>, b: seq<Candle>, n: int, w: int, i: int)
    requires AgreeUpTo(a, b, n) && 1 <= w && 0 <= i < n
    ensures AdxAt(g, a, w, i) == AdxAt(g, b, w, i)
  {
    forall j | w <= j <= i ensures Dx(g, a, w, j) == Dx(g, b, w, j) {
      SmoothedAgrees(g, TrueRange, a, b, n, w, j);
      SmoothedAgrees(g, Plus, a, b, n, w, j);
      SmoothedAgrees(g, Minus, a, b, n, w, j);
      hide DirectionalIndex, Smoothed;
    }
    hide Dx;
    if 2 * w - 1 <= i {
      SameDxSameAdx(g, a, g, b, w, i);
    }
  }

  lemma {:induction false} AtrAgrees(g: Grain, a: seq<Candle>, b: seq<Candle>, n: int, w: int, i: int)
    requires AgreeUpTo(a, b, n) && 1 <= w && 0 <= i < n
    ensures AtrAt(g, a, w, i) == AtrAt(g, b, w, i)
    decreases i
  {
    hide Blend, Smoothed, Raw, RoundTo;
    if i == w {
      SmoothedAgrees(g, TrueRange, a, b, n, w, w);
    } else if w < i {
      AtrAgrees(g, a, b, n, w, i - 1);
      RawAgrees(TrueRange, a, b, n, i);
    }
  }

  lemma StepsAgree(step: Step, a: seq<Candle>, b: seq<Candle>, n: int, start: int, end: int)
    requires AgreeUpTo(a, b, n) && 0 <= start <= end < n
    ensures StepsIn(step, a, start, end) == StepsIn(step, b, start, end)
  {
    forall j | start < j <= end ensures StepAt(step, a, j) == StepAt(step, b, j) {
      AgreeAt(a, b, n, j - 1);
      AgreeAt(a, b, n, j);
    }
  }

  lemma StructureAgrees(a: seq<Candle>, b: seq<Candle>, n: int, end: int, w: int)
    requires AgreeUpTo(a, b, n) && 1 <= w && 0 <= end < n
    ensures StructureAt(a, end, w) == StructureAt(b, end, w)
  {
    hide StepsIn;
    if w <= end + 1 {
      StepsAgree(HigherHigh, a, b, n, end + 1 - w, end);
      StepsAgree(HigherLow, a, b, n, end + 1 - w, end);
      StepsAgree(LowerHigh, a, b, n, end + 1 - w, end);
      StepsAgree(LowerLow, a, b, n, end + 1 - w, end);
    }
  }

  /** A trend row depends on the candles up to its own index only. */
  lemma TrendRowAgrees(g: Grain, a: seq<Candle>, b: seq<Candle>, n: int, c: TrendConfig, i: int)
    requires UsableTrend(c) && AgreeUpTo(a, b, n) && 0 <= i < n
    ensures TrendRowAt(g, a, c, i) == TrendRowAt(g, b, c, i)
  {
    AgreeAt(a, b, n, i);
    AverageAgrees(g, a, b, n, i, c.ma20);
    AverageAgrees(g, a, b, n, i, c.ma50);
    AverageAgrees(g, a, b, n, i, c.ma200);
    if c.ema20 - 1 <= i {
      EmaAgrees(g, a, b, n, c.ema20, i);
    }
    if c.ema50 - 1 <= i {
      EmaAgrees(g, a, b, n, c.ema50, i);
    }
    AdxAgrees(g, a, b, n, c.adx, i);
    StructureAgrees(a, b, n, i, c.structure);
    assert EmaAt(g, a, c.ema20, i) == EmaAt(g, b, c.ema20, i) && EmaAt(g, a, c.ema50, i) == EmaAt(g, b, c.ema50, i);
    hide Sma, Slope, EmaAt, AdxAt, StructureAt, Note;
  }

  lemma VolatilityRowAgrees(g: Grain, a: seq<Candle>, b: seq<Candle>, n: int, c: VolatilityConfig, i: int)
    requires UsableVolatility(c) && AgreeUpTo(a, b, n) && 0 <= i < n && a[i].close > 0 && b[i].close > 0
    ensures VolatilityRowAt(g, a, c, i) == VolatilityRowAt(g, b, c, i)
  {
    AgreeAt(a, b, n, i);
    AtrAgrees(g, a, b, n, c.atr, i);
    hide AtrAt, Note, ZScoreReady, CompressionReady, Div;
  }

  lemma ContiguousPrefix(cs: seq<Candle>, k: int)
    requires Contiguous(cs) && 0 <= k <= |cs|
    ensures Contiguous(cs[..k])
  {
  }

  /** No lookahead: computing the trend rows of the first k candles gives the first k trend rows, values and
      missing reasons alike, however short the first part is. */
  lemma TrendNeverLooksAhead(g: Grain, cs: seq<Candle>, cfg: TrendConfig, k: int)
    requires TrendOutcome(g, cs, cfg).Ok? && 0 <= k <= |cs|
    ensures |TrendOutcome(g, cs, cfg).value| == |cs|
    ensures TrendOutcome(g, cs[..k], cfg) == Ok(TrendOutcome(g, cs, cfg).value[..k])
  {
    hide NormalizeTrend, TrendRowAt, Contiguous;
    if cs != [] {
      ContiguousPrefix(cs, k);
      var c := NormalizeTrend(cfg).value;
      forall i | 0 <= i < k ensures TrendRowAt(g, cs[..k], c, i) == TrendRowAt(g, cs, c, i) {
        assert cs[..k][..k] == cs[..k];
        TrendRowAgrees(g, cs[..k], cs, k, c, i);
      }
      assert TrendRows(g, cs[..k], c) == TrendRows(g, cs, c)[..k];
      if k == 0 {
        assert cs[..k] == [];
      }
    }
  }

  lemma VolatilityNeverLooksAhead(g: Grain, cs: seq<Candle>, cfg: VolatilityConfig, k: int)
    requires VolatilityOutcome(g, cs, cfg).Ok? && 0 <= k <= |cs|
    ensures |VolatilityOutcome(g, cs, cfg).value| == |cs|
    ensures VolatilityOutcome(g, cs[..k], cfg) == Ok(VolatilityOutcome(g, cs, cfg).value[..k])
  {
    hide NormalizeVolatility, VolatilityRowAt;
    if cs != [] {
      ContiguousPrefix(cs, k);
      var c := NormalizeVolatility(cfg).value;
      forall i | 0 <= i < k ensures VolatilityRowAt(g, cs[..k], c, i) == VolatilityRowAt(g, cs, c, i) {
        assert cs[..k][..k] == cs[..k];
        VolatilityRowAgrees(g, cs[..k], cs, k, c, i);
      }
      assert VolatilityRows(g, cs[..k], c) == VolatilityRows(g, cs, c)[..k];
      if k == 0 {
        assert cs[..k] == [];
      }
    }
  }

  // ---------------------------------------------------------------- warm-up

  predicate PositiveCloses(cs: seq<Candle>) {
    forall i | 0 <= i < |cs| :: cs[i].close > 0
  }

  lemma {:induction false} SumPositive(cs: seq<Candle>, lo: int, hi: int)
    requires PositiveCloses(cs) && 0 <= lo <= hi <= |cs|
    ensures hi - lo <= SumClose(cs, lo, hi)
    decreases hi
  {
    if lo == hi {
    } else {
      SumPositive(cs, lo, hi - 1);
    }
  }

  /** The mean of the w closes before a candle is at least half a unit, so that it does not round to zero. */
  predicate MeanVisible(g: Grain, cs: seq<Candle>, end: int, w: int)
    requires 1 <= w <= end < |cs|
  {
    g * w <= 2 * SumClose(cs, end - w, end)
  }

  lemma RoundsToZero(g: Grain, n: int, d: int)
    requires d > 0 && n >= 0
    ensures RoundTo(g, n, d) == 0 <==> 2 * n < g * d
  {
    MulPositive(g, d);
    var q := RoundPos(n, g * d);
    RoundPosNearest(n, g * d);
    if 2 * n < g * d {
      NearestUnique(n, g * d, 0);
    } else {
      assert q != 0;
      if g * q == 0 {
        SameFactor(q, 0, g);
      }
    }
  }

  /** A slope exists exactly with enough candles and a mean that does not round to zero. */
  lemma SlopeReadyIff(g: Grain, cs: seq<Candle>, end: int, w: int)
    requires PositiveCloses(cs) && 1 <= w && end < |cs|
    ensures Slope(g, cs, end, w).Some? <==> w <= end && MeanVisible(g, cs, end, w)
  {
    if w <= end {
      SumPositive(cs, end - w, end);
      RoundsToZero(g, SumClose(cs, end - w, end), w);
    }
    hide RoundTo, Div;
  }

  /** Closes of at least half a unit. */
  predicate VisibleCloses(g: Grain, cs: seq<Candle>) {
    forall i | 0 <= i < |cs| :: g <= 2 * cs[i].close
  }

  lemma {:induction false} VisibleSum(g: Grain, cs: seq<Candle>, lo: int, hi: int)
    requires VisibleCloses(g, cs) && 0 <= lo <= hi <= |cs|
    ensures g * (hi - lo) <= 2 * SumClose(cs, lo, hi)
    decreases hi
  {
    if lo == hi {
    } else {
      VisibleSum(g, cs, lo, hi - 1);
      assert g * (hi - lo) == g * (hi - 1 - lo) + g;
    }
  }

  lemma VisibleMean(g: Grain, cs: seq<Candle>, end: int, w: int)
    requires VisibleCloses(g, cs) && 1 <= w <= end < |cs|
    ensures MeanVisible(g, cs, end, w)
  {
    VisibleSum(g, cs, end - w, end);
  }

  /** The first index with a complete trend row. */
  function TrendWarmUp(c: TrendConfig): int {
    Max(c.ma20 - 1, Max(c.ma50, Max(c.ma200, Max(c.ema20 - 1, Max(c.ema50 - 1, Max(2 * c.adx - 1, c.structure - 1))))))
  }

  lemma MissingNothing(g: Grain, cs: seq<Candle>, c: TrendConfig, i: int)
    requires UsableTrend(c) && 0 <= i < |cs|
    ensures |TrendMissing(g, cs, c, i)| == 0 <==>
      && Sma(g, cs, i, c.ma20).Some? && Sma(g, cs, i, c.ma50).Some? && Sma(g, cs, i, c.ma200).Some?
      && EmaAt(g, cs, c.ema20, i).Some? && EmaAt(g, cs, c.ema50, i).Some?
      && Slope(g, cs, i, c.ma50).Some? && Slope(g, cs, i, c.ma200).Some?
      && AdxAt(g, cs, c.adx, i).Some? && StructureAt(cs, i, c.structure).Some?
  {
    hide Sma, EmaAt, Slope, AdxAt, StructureAt;
  }

  /** For prices of any number of decimals, a trend row of accepted candles is complete exactly from the warm-up
      index on and where neither mean that a slope divides by rounds to zero. */
  lemma TrendCompleteIff(g: Grain, cs: seq<Candle>, cfg: TrendConfig, i: int)
    requires TrendOutcome(g, cs, cfg).Ok? && 0 <= i < |cs|
    ensures NormalizeTrend(cfg).Some? && |TrendOutcome(g, cs, cfg).value| == |cs|
    ensures var c := NormalizeTrend(cfg).value;
      TrendOutcome(g, cs, cfg).value[i].complete
      <==> TrendWarmUp(c) <= i && MeanVisible(g, cs, i, c.ma50) && MeanVisible(g, cs, i, c.ma200)
  {
    var c := NormalizeTrend(cfg).value;
    assert UsableTrend(c);
    assert PositiveCloses(cs) by {
      assert Contiguous(cs);
    }
    hide NormalizeTrend, Contiguous, MeanVisible;
    SlopeReadyIff(g, cs, i, c.ma50);
    SlopeReadyIff(g, cs, i, c.ma200);
    MissingNothing(g, cs, c, i);
    hide Slope, TrendMissing, Ema, Adx, StructureBetween;
    assert TrendOutcome(g, cs, cfg).value[i] == TrendRowAt(g, cs, c, i);
  }

  /** With closes of at least half a unit, so for all prices in whole units, a trend row is complete from the
      warm-up index on and never before it, so completeness once reached is never lost. */
  lemma TrendCompleteAfterWarmUp(g: Grain, cs: seq<Candle>, cfg: TrendConfig, i: int)
    requires TrendOutcome(g, cs, cfg).Ok? && 0 <= i < |cs| && VisibleCloses(g, cs)
    ensures NormalizeTrend(cfg).Some? && |TrendOutcome(g, cs, cfg).value| == |cs|
    ensures TrendOutcome(g, cs, cfg).value[i].complete <==> TrendWarmUp(NormalizeTrend(cfg).value) <= i
  {
    TrendCompleteIff(g, cs, cfg, i);
    var c := NormalizeTrend(cfg).value;
    hide NormalizeTrend, TrendOutcome, MeanVisible;
    if c.ma50 <= i && c.ma200 <= i {
      VisibleMean(g, cs, i, c.ma50);
      VisibleMean(g, cs, i, c.ma200);
    }
  }

  function VolatilityWarmUp(c: VolatilityConfig): int {
    Max(c.atr, Max(c.rolling + c.zScore - 1, c.bollinger + c.compression - 2))
  }

  lemma WindowsReady(c: VolatilityConfig, i: int)
    requires UsableVolatility(c) && 0 <= i
    ensures ZScoreReady(c, i) <==> c.rolling + c.zScore - 1 <= i
    ensures CompressionReady(c, i) <==> c.bollinger + c.compression - 2 <= i
  {
    if ZScoreReady(c, i) {
      assert RollingReady(c, i + 1 - c.zScore);
    }
    if CompressionReady(c, i) {
      assert BollingerReady(c, i + 1 - c.compression);
    }
  }

  lemma VolatilityCompleteAfterWarmUp(g: Grain, cs: seq<Candle>, cfg: VolatilityConfig, i: int)
    requires VolatilityOutcome(g, cs, cfg).Ok? && 0 <= i < |cs|
    ensures NormalizeVolatility(cfg).Some? && |VolatilityOutcome(g, cs, cfg).value| == |cs|
    ensures VolatilityOutcome(g, cs, cfg).value[i].complete <==> VolatilityWarmUp(NormalizeVolatility(cfg).value) <= i
  {
    var c := NormalizeVolatility(cfg).value;
    hide NormalizeVolatility;
    WindowsReady(c, i);
    hide ZScoreReady, CompressionReady, Atr, Div;
    assert VolatilityOutcome(g, cs, cfg).value[i] == VolatilityRowAt(g, cs, c, i);
  }
}
