/** Which changes of the price axis the ADX does not see. */
module SymmetryLaws {
  import opened Candles
  import opened Decimals
  import opened Indicators
  import opened WilderLaws

  // ---------------------------------------------------------------- reflection

  /** The candle on a price axis turned upside down: high and low change places. */
  function Reflect(c: Candle, top: int): Candle {
    c.(open := top - c.open, high := top - c.low, low := top - c.high, close := top - c.close)
  }

  function Reflected(cs: seq<Candle>, top: int): (r: seq<Candle>)
    ensures |r| == |cs| && forall i | 0 <= i < |cs| :: r[i] == Reflect(cs[i], top)
  {
    seq(|cs|, i requires 0 <= i < |cs| => Reflect(cs[i], top))
  }

  function Opposite(line: Line): Line {
    match line
    case TrueRange => TrueRange
    case Plus => Minus
    case Minus => Plus
  }

  lemma ReflectedMovement(previous: Candle, current: Candle, top: int)
    ensures var m := DirectionalMovement(previous, current);
      DirectionalMovement(Reflect(previous, top), Reflect(current, top)) == Movement(m.trueRange, m.minus, m.plus)
  {
  }

  /** Reflection exchanges the two directional movements at every smoothing step. */
  lemma {:induction false} ReflectedSmoothed(g: Grain, line: Line, cs: seq<Candle>, w: int, i: int, top: int)
    requires 1 <= w && 0 <= i < |cs|
    ensures Smoothed(g, line, Reflected(cs, top), w, i) == Smoothed(g, Opposite(line), cs, w, i)
    decreases i
  {
    hide Accumulate, DirectionalMovement;
    if i == 0 {
    } else {
      ReflectedSmoothed(g, line, cs, w, i - 1, top);
      ReflectedMovement(cs[i - 1], cs[i], top);
    }
  }

  lemma DirectionalIndexSymmetric(range: int, plus: int, minus: int)
    ensures DirectionalIndex(range, plus, minus) == DirectionalIndex(range, minus, plus)
  {
    hide Div;
  }

  lemma ReflectedDx(g: Grain, cs: seq<Candle>, w: int, i: int, top: int)
    requires 1 <= w && 0 <= i < |cs|
    ensures Dx(g, Reflected(cs, top), w, i) == Dx(g, cs, w, i)
  {
    ReflectedSmoothed(g, TrueRange, cs, w, i, top);
    ReflectedSmoothed(g, Plus, cs, w, i, top);
    ReflectedSmoothed(g, Minus, cs, w, i, top);
    DirectionalIndexSymmetric(Smoothed(g, TrueRange, cs, w, i), Smoothed(g, Plus, cs, w, i),
                              Smoothed(g, Minus, cs, w, i));
    hide Smoothed, DirectionalIndex;
  }

  /** An ADX series is determined by its directional indices. */
  lemma {:induction false} SameDxSameRange(
    g: Grain, a: seq<Candle>, h: Grain, b: seq<Candle>, w: int, lo: int, hi: int)
    requires 1 <= w && 0 <= lo <= hi <= |a| && hi <= |b|
    requires forall j | lo <= j < hi :: Dx(g, a, w, j) == Dx(h, b, w, j)
    ensures DxRange(g, a, w, lo, hi) == DxRange(h, b, w, lo, hi)
    decreases hi
  {
    hide Dx;
    if lo == hi {
    } else {
      SameDxSameRange(g, a, h, b, w, lo, hi - 1);
    }
  }

  lemma {:induction false} SameDxSameAdx(g: Grain, a: seq<Candle>, h: Grain, b: seq<Candle>, w: int, i: int)
    requires 1 <= w && 2 * w - 1 <= i < |a| && i < |b|
    requires forall j | w <= j <= i :: Dx(g, a, w, j) == Dx(h, b, w, j)
    ensures Adx(g, a, w, i) == Adx(h, b, w, i)
    decreases i
  {
    hide Dx, Blend;
    if i == 2 * w - 1 {
      SameDxSameRange(g, a, h, b, w, w, 2 * w);
    } else {
      SameDxSameAdx(g, a, h, b, w, i - 1);
    }
  }

  /** The ADX is blind to direction: turning the price axis upside down changes neither a value nor the index
      from which values are ready, for every candle sequence and with every rounding included. */
  lemma AdxIgnoresDirection(g: Grain, cs: seq<Candle>, w: int, i: int, top: int)
    requires 1 <= w && 0 <= i < |cs|
    ensures AdxAt(g, Reflected(cs, top), w, i) == AdxAt(g, cs, w, i)
  {
    forall j | w <= j <= i ensures Dx(g, Reflected(cs, top), w, j) == Dx(g, cs, w, j) {
      ReflectedDx(g, cs, w, j, top);
    }
    if 2 * w - 1 <= i {
      SameDxSameAdx(g, Reflected(cs, top), g, cs, w, i);
    }
  }

  function OppositeStep(step: Step): Step {
    match step
    case HigherHigh => LowerLow
    case HigherLow => LowerHigh
    case LowerHigh => HigherLow
    case LowerLow => HigherHigh
  }

  /** Reflection turns each structure step into the opposite one. */
  lemma ReflectedSteps(step: Step, cs: seq<Candle>, start: int, end: int, top: int)
    requires 0 <= start <= end < |cs|
    ensures StepsIn(step, Reflected(cs, top), start, end) == StepsIn(OppositeStep(step), cs, start, end)
  {
    var mirror := Reflected(cs, top);
    forall j | start < j <= end ensures StepAt(step, mirror, j) == StepAt(OppositeStep(step), cs, j) {
    }
  }

  /** So the structure counts change places instead of changing. */
  lemma StructureMirrors(cs: seq<Candle>, end: int, w: int, top: int)
    requires 1 <= w && 0 <= end < |cs|
    ensures StructureAt(cs, end, w).None? == StructureAt(Reflected(cs, top), end, w).None?
    ensures StructureAt(cs, end, w).Some? ==>
      var s := StructureAt(cs, end, w).value;
      StructureAt(Reflected(cs, top), end, w).value == Structure(s.lowerLow, s.lowerHigh, s.higherLow, s.higherHigh)
  {
    hide StepsIn;
    if w <= end + 1 {
      ReflectedSteps(HigherHigh, cs, end + 1 - w, end, top);
      ReflectedSteps(HigherLow, cs, end + 1 - w, end, top);
      ReflectedSteps(LowerHigh, cs, end + 1 - w, end, top);
      ReflectedSteps(LowerLow, cs, end + 1 - w, end, top);
    }
  }

  // ---------------------------------------------------------------- scale

  function Scale(c: Candle, k: int): Candle {
    c.(open := k * c.open, high := k * c.high, low := k * c.low, close := k * c.close)
  }

  function Scaled(cs: seq<Candle>, k: int): (r: seq<Candle>)
    ensures |r| == |cs| && forall i | 0 <= i < |cs| :: r[i] == Scale(cs[i], k)
  {
    seq(|cs|, i requires 0 <= i < |cs| => Scale(cs[i], k))
  }

  predicate ScalesBy(g: Grain, line: Line, cs: seq<Candle>, w: int, i: int, k: int)
    requires 1 <= w && 0 <= i < |cs|
  {
    Smoothed(g, line, Scaled(cs, k), w, i) == k * Smoothed(g, line, cs, w, i)
  }

  lemma ScaleOrder(x: int, y: int, k: int)
    requires k > 0
    ensures x < y <==> k * x < k * y
    ensures Max(k * x, k * y) == k * Max(x, y)
    ensures k * x - k * y == k * (x - y)
  {
    if x < y {
      MulMono(x + 1, y, k);
    } else {
      MulMono(y, x, k);
    }
  }

  lemma ScaleAbs(x: int, k: int)
    requires k > 0
    ensures Abs(k * x) == k * Abs(x)
  {
    ScaleOrder(x, 0, k);
  }

  lemma ScaledMovement(previous: Candle, current: Candle, k: int)
    requires k > 0
    ensures var m := DirectionalMovement(previous, current);
      DirectionalMovement(Scale(previous, k), Scale(current, k))
        == Movement(k * m.trueRange, k * m.plus, k * m.minus)
  {
    var p, c := previous, current;
    var (range, high, low) := (c.high - c.low, c.high - p.close, c.low - p.close);
    var up, down := c.high - p.high, p.low - c.low;
    ScaleOrder(c.high, c.low, k);
    ScaleOrder(c.high, p.close, k);
    ScaleOrder(c.low, p.close, k);
    ScaleOrder(c.high, p.high, k);
    ScaleOrder(p.low, c.low, k);
    ScaleAbs(high, k);
    ScaleAbs(low, k);
    ScaleOrder(Abs(high), Abs(low), k);
    ScaleOrder(range, Max(Abs(high), Abs(low)), k);
    ScaleOrder(up, down, k);
    ScaleOrder(down, up, k);
    ScaleOrder(0, up, k);
    ScaleOrder(0, down, k);
    hide Max, Abs;
    var s := DirectionalMovement(Scale(p, k), Scale(c, k));
    assert s.trueRange == Max(k * range, Max(Abs(k * high), Abs(k * low)));
    assert s.plus == if k * up > k * down && k * up > 0 then k * up else 0;
    assert s.minus == if k * down > k * up && k * down > 0 then k * down else 0;
  }

  lemma ExactDecayScales(g: Grain, x: int, w: int, k: int)
    requires 1 <= w && Whole(g, x, w)
    ensures Decay(g, k * x, w) == k * Decay(g, x, w)
  {
    var n := WholeParts(g, x, w);
    var part := n * g;
    assert k * x == (k * part) * w && k * part == (k * n) * g;
    RoundToExact(g, k * n, w);
    hide RoundTo;
    assert k * (x - part) == k * x - k * part;
  }

  lemma InexactDecayDoesNotScale(g: Grain, x: int, w: int)
    requires 1 <= w && !Whole(g, x, w)
    ensures Decay(g, (g * w) * x, w) != (g * w) * Decay(g, x, w)
  {
    MulPositive(g, w);
    var q := RoundTo(g, x, w);
    DividesExactly(g, x, w);
    RoundToExact(g, x, w);
    assert (x * g) * w == (g * w) * x;
    hide RoundTo, Whole;
    InexactProducts(g, x, w, q);
  }

  lemma InexactProducts(g: Grain, x: int, w: int, q: int)
    requires x != w * q
    ensures (g * w) * x - x * g != (g * w) * (x - q)
  {
    assert (g * w) * (x - q) == (g * w) * x - g * (w * q);
    if g * x == g * (w * q) {
      SameFactor(x, w * q, g);
    }
  }

  lemma AccumulateScales(g: Grain, total: int, next: int, w: int, i: int, k: int)
    requires 1 <= w
    ensures i <= w || Whole(g, total, w) ==>
      Accumulate(g, k * total, k * next, w, i) == k * Accumulate(g, total, next, w, i)
    ensures i > w && !Whole(g, total, w) ==>
      Accumulate(g, (g * w) * total, (g * w) * next, w, i) != (g * w) * Accumulate(g, total, next, w, i)
  {
    hide Decay, Whole;
    if i <= w {
      assert k * (total + next) == k * total + k * next;
    } else if Whole(g, total, w) {
      ExactDecayScales(g, total, w, k);
      assert k * (Decay(g, total, w) + next) == k * Decay(g, total, w) + k * next;
    } else {
      InexactDecayDoesNotScale(g, total, w);
      var n := g * w;
      assert n * (Decay(g, total, w) + next) == n * Decay(g, total, w) + n * next;
    }
  }

  lemma ScaledStep(g: Grain, line: Line, cs: seq<Candle>, w: int, i: int, k: int)
    requires 1 <= w && 0 < i < |cs| && k > 0
    requires ScalesBy(g, line, cs, w, i - 1, k)
    ensures i <= w || Whole(g, Smoothed(g, line, cs, w, i - 1), w) ==> ScalesBy(g, line, cs, w, i, k)
    ensures i > w && !Whole(g, Smoothed(g, line, cs, w, i - 1), w) && k == g * w ==>
      !ScalesBy(g, line, cs, w, i, k)
  {
    hide Accumulate, DirectionalMovement, Whole;
    ScaledMovement(cs[i - 1], cs[i], k);
    AccumulateScales(g, Smoothed(g, line, cs, w, i - 1), Raw(line, cs, i), w, i, k);
  }

  lemma {:induction false} ExactSmoothingScales(g: Grain, line: Line, cs: seq<Candle>, w: int, i: int, k: int)
    requires 1 <= w && 0 <= i < |cs| && k > 0 && SmoothsExactly(g, line, cs, w, i)
    ensures ScalesBy(g, line, cs, w, i, k)
    decreases i
  {
    if i == 0 {
    } else {
      ExactSmoothingScales(g, line, cs, w, i - 1, k);
      ScaledStep(g, line, cs, w, i, k);
    }
  }

  /** A smoothed movement follows a change of the price unit, for every factor and at every step, exactly when
      no smoothing step rounds. */
  lemma ScalingIsExactSmoothing(g: Grain, line: Line, cs: seq<Candle>, w: int, i: int)
    requires 1 <= w && 0 <= i < |cs|
    ensures (forall j, k | 0 <= j <= i && k > 0 :: ScalesBy(g, line, cs, w, j, k))
       <==> SmoothsExactly(g, line, cs, w, i)
  {
    if SmoothsExactly(g, line, cs, w, i) {
      forall j, k | 0 <= j <= i && k > 0 ensures ScalesBy(g, line, cs, w, j, k) {
        ExactSmoothingScales(g, line, cs, w, j, k);
      }
    } else {
      var j :| w <= j < i && !Whole(g, Smoothed(g, line, cs, w, j), w);
      MulPositive(g, w);
      var k := g * w;
      if ScalesBy(g, line, cs, w, j, k) {
        ScaledStep(g, line, cs, w, j + 1, k);
        assert !ScalesBy(g, line, cs, w, j + 1, k);
      }
    }
  }

  lemma DivScales(a: int, b: int, k: int)
    requires b != 0 && k > 0
    ensures k * b != 0 && Div(k * a, k * b) == Div(a, b)
  {
    assert k * (a * SCALE) == (k * a) * SCALE;
    if b > 0 {
      RoundPosCancel(a * SCALE, b, k);
    } else {
      RoundPosCancel(-(a * SCALE), -b, k);
      assert k * -b == -(k * b) && k * -(a * SCALE) == -(k * (a * SCALE));
    }
  }

  /** The directional index has no unit: its quotients depend on ratios only, rounding included. */
  lemma DirectionalIndexHasNoUnit(range: int, plus: int, minus: int, k: int)
    requires k > 0
    ensures DirectionalIndex(k * range, k * plus, k * minus) == DirectionalIndex(range, plus, minus)
  {
    if range != 0 {
      DivScales(plus, range, k);
      DivScales(minus, range, k);
      hide Div;
    }
  }

  lemma ExactDx(g: Grain, cs: seq<Candle>, w: int, i: int, j: int, k: int)
    requires 1 <= w && 0 <= j <= i < |cs| && k > 0
    requires forall line: Line :: SmoothsExactly(g, line, cs, w, i)
    ensures Dx(g, Scaled(cs, k), w, j) == Dx(g, cs, w, j)
  {
    forall line: Line ensures SmoothsExactly(g, line, cs, w, j) {
      assert SmoothsExactly(g, line, cs, w, i);
    }
    hide SmoothsExactly;
    forall line: Line ensures Smoothed(g, line, Scaled(cs, k), w, j) == k * Smoothed(g, line, cs, w, j) {
      ExactSmoothingScales(g, line, cs, w, j, k);
      hide Smoothed;
    }
    hide Smoothed, Dx;
    ScaledDx(g, cs, w, j, g, k);
  }

  /** Where no smoothing step rounds, the ADX has no unit. */
  lemma AdxHasNoUnit(g: Grain, cs: seq<Candle>, w: int, i: int, k: int)
    requires 1 <= w && 0 <= i < |cs| && k > 0
    requires forall line: Line :: SmoothsExactly(g, line, cs, w, i)
    ensures AdxAt(g, Scaled(cs, k), w, i) == AdxAt(g, cs, w, i)
  {
    hide SmoothsExactly, Dx;
    forall j | w <= j <= i ensures Dx(g, Scaled(cs, k), w, j) == Dx(g, cs, w, j) {
      ExactDx(g, cs, w, i, j, k);
    }
    if 2 * w - 1 <= i {
      SameDxSameAdx(g, Scaled(cs, k), g, cs, w, i);
    }
  }

  /** Where all three lines scale, the directional index stays. */
  lemma ScaledDx(g: Grain, cs: seq<Candle>, w: int, j: int, h: Grain, k: int)
    requires 1 <= w && 0 <= j < |cs| && k > 0
    requires forall line: Line :: Smoothed(h, line, Scaled(cs, k), w, j) == k * Smoothed(g, line, cs, w, j)
    ensures Dx(h, Scaled(cs, k), w, j) == Dx(g, cs, w, j)
  {
    hide Smoothed;
    DirectionalIndexHasNoUnit(Smoothed(g, TrueRange, cs, w, j), Smoothed(g, Plus, cs, w, j),
                              Smoothed(g, Minus, cs, w, j), k);
    hide DirectionalIndex;
  }

  // ---------------------------------------------------------------- grain

  /** Splitting every part into m changes no price and no line. */
  lemma {:induction false} RefinedSmoothed(g: Grain, m: Grain, line: Line, cs: seq<Candle>, w: int, i: int)
    requires 1 <= w && 0 <= i < |cs|
    ensures m * g >= 1 && Smoothed(m * g, line, Scaled(cs, m), w, i) == m * Smoothed(g, line, cs, w, i)
    decreases i
  {
    MulPositive(m, g);
    hide DirectionalMovement, Accumulate;
    if i == 0 {
    } else {
      RefinedSmoothed(g, m, line, cs, w, i - 1);
      ScaledMovement(cs[i - 1], cs[i], m);
      RefinedAccumulate(g, m, Smoothed(g, line, cs, w, i - 1), Raw(line, cs, i), w, i);
    }
  }

  lemma RefinedAccumulate(g: Grain, m: Grain, total: int, next: int, w: int, i: int)
    requires 1 <= w
    ensures m * g >= 1 && Accumulate(m * g, m * total, m * next, w, i) == m * Accumulate(g, total, next, w, i)
  {
    RoundToRefines(g, m, total, w);
    hide RoundTo;
    RefinedStep(m, total, RoundTo(g, total, w), next);
  }

  lemma RefinedStep(m: Grain, total: int, part: int, next: int)
    ensures m * total + m * next == m * (total + next)
    ensures m * total - m * part + m * next == m * (total - part + next)
  {
  }

  /** The grain in which prices are counted does not matter: the ADX of the same decimals is the same. */
  lemma AdxHasNoGrain(g: Grain, m: Grain, cs: seq<Candle>, w: int, i: int)
    requires 1 <= w && 0 <= i < |cs|
    ensures m * g >= 1 && AdxAt(m * g, Scaled(cs, m), w, i) == AdxAt(g, cs, w, i)
  {
    MulPositive(m, g);
    forall j | w <= j <= i ensures Dx(m * g, Scaled(cs, m), w, j) == Dx(g, cs, w, j) {
      forall line: Line ensures Smoothed(m * g, line, Scaled(cs, m), w, j) == m * Smoothed(g, line, cs, w, j) {
        RefinedSmoothed(g, m, line, cs, w, j);
      }
      ScaledDx(g, cs, w, j, m * g, m);
    }
    hide Dx;
    if 2 * w - 1 <= i {
      SameDxSameAdx(m * g, Scaled(cs, m), g, cs, w, i);
    }
  }
}
