/** What each technical indicator is, one recursive definition per quantity.

    Prices are whole numbers of parts of 10^-16 / g, for any grain g, so that they have any number of decimals.
    Ratios are whole numbers of units of 10^-16. Every rounding of the program is kept: each quotient here is
    rounded to whole units exactly where the program divides. */
module Indicators {
  import opened Candles
  import opened Decimals
  import opened Wrappers

  /** The decimal quotient of two prices, or of two ratios, in units. */
  function Div(a: int, b: int): int
    requires b != 0
  {
    RoundQuot(a * SCALE, b)
  }

  // ---------------------------------------------------------------- averages

  function SumClose(cs: seq<Candle>, lo: int, hi: int): int
    requires 0 <= lo <= hi <= |cs|
    decreases hi
  {
    if lo == hi then 0 else SumClose(cs, lo, hi - 1) + cs[hi - 1].close
  }

  function Sma(g: Grain, cs: seq<Candle>, end: int, w: int): Option<int>
    requires 1 <= w && end < |cs|
  {
    if end + 1 < w then None else Some(RoundTo(g, SumClose(cs, end + 1 - w, end + 1), w))
  }

  function Slope(g: Grain, cs: seq<Candle>, end: int, w: int): Option<int>
    requires 1 <= w && end < |cs|
  {
    match (Sma(g, cs, end, w), Sma(g, cs, end - 1, w))
    case (Some(current), Some(previous)) =>
      if previous == 0 then None else Some(Div(current - previous, previous))
    case _ => None
  }

  /** The weight of the newest close, 2 / (w + 1). */
  function Alpha(w: int): int
    requires 1 <= w
  {
    RoundQuot(2 * SCALE, w + 1)
  }

  /** One smoothing step, rounded to 16 places so that the value keeps its scale. */
  function EmaNext(g: Grain, close: int, previous: int, alpha: int): int {
    RoundTo(g, close * alpha + previous * (SCALE - alpha), SCALE)
  }

  function Ema(g: Grain, cs: seq<Candle>, w: int, i: int): int
    requires 1 <= w && w - 1 <= i < |cs|
    decreases i
  {
    if i == w - 1 then Sma(g, cs, i, w).value
    else EmaNext(g, cs[i].close, Ema(g, cs, w, i - 1), Alpha(w))
  }

  // ---------------------------------------------------------------- directional movement

  datatype Movement = Movement(trueRange: int, plus: int, minus: int)

  datatype Line = TrueRange | Plus | Minus

  function DirectionalMovement(previous: Candle, current: Candle): Movement {
    var trueRange := Max(current.high - current.low,
                         Max(Abs(current.high - previous.close), Abs(current.low - previous.close)));
    var up, down := current.high - previous.high, previous.low - current.low;
    Movement(trueRange, if up > down && up > 0 then up else 0, if down > up && down > 0 then down else 0)
  }

  function Raw(line: Line, cs: seq<Candle>, i: int): int
    requires 1 <= i < |cs|
  {
    var m := DirectionalMovement(cs[i - 1], cs[i]);
    match line
    case TrueRange => m.trueRange
    case Plus => m.plus
    case Minus => m.minus
  }

  /** Wilder's smoothing step: drop a w-th part, rounded. */
  function Decay(g: Grain, total: int, w: int): int
    requires 1 <= w
  {
    total - RoundTo(g, total, w)
  }

  /** Wilder's running total: the first w movements are added up, after that a w-th part is dropped first. */
  function Accumulate(g: Grain, total: int, next: int, w: int, i: int): int
    requires 1 <= w
  {
    if i <= w then total + next else Decay(g, total, w) + next
  }

  /** The average of w - 1 parts of the old average and one part of the new value. */
  function Blend(g: Grain, average: int, next: int, w: int): int
    requires 1 <= w
  {
    RoundTo(g, average * (w - 1) + next, w)
  }

  function Smoothed(g: Grain, line: Line, cs: seq<Candle>, w: int, i: int): int
    requires 1 <= w && 0 <= i < |cs|
    decreases i
  {
    if i == 0 then 0 else Accumulate(g, Smoothed(g, line, cs, w, i - 1), Raw(line, cs, i), w, i)
  }

  function DirectionalIndex(range: int, plus: int, minus: int): int {
    if range == 0 then 0
    else
      var plusDI, minusDI := Div(plus, range) * 100, Div(minus, range) * 100;
      var sum := plusDI + minusDI;
      if sum == 0 then 0 else Div(Abs(plusDI - minusDI), sum) * 100
  }

  function Dx(g: Grain, cs: seq<Candle>, w: int, i: int): int
    requires 1 <= w && 0 <= i < |cs|
  {
    DirectionalIndex(Smoothed(g, TrueRange, cs, w, i), Smoothed(g, Plus, cs, w, i), Smoothed(g, Minus, cs, w, i))
  }

  function DxRange(g: Grain, cs: seq<Candle>, w: int, lo: int, hi: int): (r: seq<int>)
    requires 1 <= w && 0 <= lo <= hi <= |cs|
    ensures |r| == hi - lo
    decreases hi
  {
    if lo == hi then [] else DxRange(g, cs, w, lo, hi - 1) + [Dx(g, cs, w, hi - 1)]
  }

  function Sum(xs: seq<int>): int {
    if xs == [] then 0 else Sum(xs[..|xs| - 1]) + xs[|xs| - 1]
  }

  function Adx(g: Grain, cs: seq<Candle>, w: int, i: int): int
    requires 1 <= w && 2 * w - 1 <= i < |cs|
    decreases i
  {
    if i == 2 * w - 1 then RoundQuot(Sum(DxRange(g, cs, w, w, 2 * w)), w)
    else Blend(1, Adx(g, cs, w, i - 1), Dx(g, cs, w, i), w)
  }

  function Atr(g: Grain, cs: seq<Candle>, w: int, i: int): int
    requires 1 <= w && w <= i < |cs|
    decreases i
  {
    if i == w then RoundTo(g, Smoothed(g, TrueRange, cs, w, w), w)
    else Blend(g, Atr(g, cs, w, i - 1), Raw(TrueRange, cs, i), w)
  }

  // ---------------------------------------------------------------- market structure

  datatype Step = HigherHigh | HigherLow | LowerHigh | LowerLow

  predicate Steps(step: Step, previous: Candle, current: Candle) {
    match step
    case HigherHigh => current.high > previous.high
    case HigherLow => current.low > previous.low
    case LowerHigh => current.high < previous.high
    case LowerLow => current.low < previous.low
  }

  predicate StepAt(step: Step, cs: seq<Candle>, j: int)
    requires 0 < j < |cs|
  {
    Steps(step, cs[j - 1], cs[j])
  }

  /** The candles in (start, end] that make the step. */
  function StepsIn(step: Step, cs: seq<Candle>, start: int, end: int): set<int>
    requires 0 <= start <= end < |cs|
  {
    set j | start < j <= end && StepAt(step, cs, j)
  }

  datatype Structure = Structure(higherHigh: int, higherLow: int, lowerHigh: int, lowerLow: int)

  function StructureBetween(cs: seq<Candle>, start: int, end: int): Structure
    requires 0 <= start <= end < |cs|
  {
    Structure(|StepsIn(HigherHigh, cs, start, end)|, |StepsIn(HigherLow, cs, start, end)|,
              |StepsIn(LowerHigh, cs, start, end)|, |StepsIn(LowerLow, cs, start, end)|)
  }

  function StructureAt(cs: seq<Candle>, end: int, w: int): Option<Structure>
    requires 1 <= w && 0 <= end < |cs|
  {
    if end + 1 < w then None else Some(StructureBetween(cs, end + 1 - w, end))
  }

  // ---------------------------------------------------------------- rows

  datatype TrendConfig = TrendConfig(
    ma20: int, ma50: int, ma200: int, ema20: int, ema50: int, adx: int, structure: int)

  function OrDefault(value: int, default: int): int {
    if value == 0 then default else value
  }

  /** Zero means the default window; a window that is still too small is refused. */
  function NormalizeTrend(cfg: TrendConfig): (r: Option<TrendConfig>)
    ensures r.Some? ==> UsableTrend(r.value)
  {
    var c := TrendConfig(OrDefault(cfg.ma20, 20), OrDefault(cfg.ma50, 50), OrDefault(cfg.ma200, 200),
                         OrDefault(cfg.ema20, 20), OrDefault(cfg.ema50, 50), OrDefault(cfg.adx, 14),
                         OrDefault(cfg.structure, 20));
    if UsableTrend(c) then Some(c) else None
  }

  predicate UsableTrend(c: TrendConfig) {
    && 0 < c.ma20 && 0 < c.ma50 && 0 < c.ma200 && 0 < c.ema20 && 0 < c.ema50 && 0 < c.adx
    && 1 < c.structure
  }

  datatype TrendRow = TrendRow(
    openTime: int, closeTime: int,
    ma20: int, ma50: int, ma200: int, ema20: int, ema50: int, ma50Slope: int, ma200Slope: int, adx: int,
    structure: Structure, complete: bool, missing: seq<string>)

  function ValueOr<T>(o: Option<T>, default: T): T {
    match o
    case Some(v) => v
    case None => default
  }

  /** The list of missing values, with one more name unless the value is present. */
  function Note(missing: seq<string>, present: bool, name: string): seq<string> {
    if present then missing else missing + [name]
  }

  function EmaAt(g: Grain, cs: seq<Candle>, w: int, i: int): Option<int>
    requires 1 <= w && 0 <= i < |cs|
  {
    if i < w - 1 then None else Some(Ema(g, cs, w, i))
  }

  function AdxAt(g: Grain, cs: seq<Candle>, w: int, i: int): Option<int>
    requires 1 <= w && 0 <= i < |cs|
  {
    if i < 2 * w - 1 then None else Some(Adx(g, cs, w, i))
  }

  function AtrAt(g: Grain, cs: seq<Candle>, w: int, i: int): Option<int>
    requires 1 <= w && 0 <= i < |cs|
  {
    if i < w then None else Some(Atr(g, cs, w, i))
  }

  function TrendMissing(g: Grain, cs: seq<Candle>, cfg: TrendConfig, i: int): seq<string>
    requires UsableTrend(cfg) && 0 <= i < |cs|
  {
    var averages := Note(Note(Note([], Sma(g, cs, i, cfg.ma20).Some?, "ma20_window"),
                              Sma(g, cs, i, cfg.ma50).Some?, "ma50_window"),
                         Sma(g, cs, i, cfg.ma200).Some?, "ma200_window");
    var emas := Note(Note(averages, EmaAt(g, cs, cfg.ema20, i).Some?, "ema20_window"),
                     EmaAt(g, cs, cfg.ema50, i).Some?, "ema50_window");
    var slopes := Note(Note(emas, Slope(g, cs, i, cfg.ma50).Some?, "ma50_slope_window"),
                       Slope(g, cs, i, cfg.ma200).Some?, "ma200_slope_window");
    Note(Note(slopes, AdxAt(g, cs, cfg.adx, i).Some?, "adx_window"),
         StructureAt(cs, i, cfg.structure).Some?, "structure_window")
  }

  function TrendRowAt(g: Grain, cs: seq<Candle>, cfg: TrendConfig, i: int): TrendRow
    requires UsableTrend(cfg) && 0 <= i < |cs|
  {
    var missing := TrendMissing(g, cs, cfg, i);
    TrendRow(cs[i].openTime, cs[i].closeTime,
             ValueOr(Sma(g, cs, i, cfg.ma20), 0), ValueOr(Sma(g, cs, i, cfg.ma50), 0),
             ValueOr(Sma(g, cs, i, cfg.ma200), 0),
             ValueOr(EmaAt(g, cs, cfg.ema20, i), 0), ValueOr(EmaAt(g, cs, cfg.ema50, i), 0),
             ValueOr(Slope(g, cs, i, cfg.ma50), 0), ValueOr(Slope(g, cs, i, cfg.ma200), 0),
             ValueOr(AdxAt(g, cs, cfg.adx, i), 0),
             ValueOr(StructureAt(cs, i, cfg.structure), Structure(0, 0, 0, 0)),
             |missing| == 0, missing)
  }
}
