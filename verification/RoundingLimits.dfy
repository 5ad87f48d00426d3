/** For which grains of prices and which windows a law of exact arithmetic survives the rounding of the loops. */
module RoundingLimits {
  import opened AverageLaws
  import opened Candles
  import opened Decimals
  import opened Indicators
  import opened RoundingWitnesses
  import opened RowLaws
  import opened TrendSeries
  import opened WilderLaws
  import opened Wrappers

  lemma AcceptedCloses(cs: seq<Candle>)
    requires Contiguous(cs)
    ensures ClosesInRange(cs)
  {
  }

  // ---------------------------------------------------------------- each movement and the range

  predicate EachWithinRange(g: Grain, cs: seq<Candle>, w: int, i: int)
    requires 1 <= w && 0 <= i < |cs|
  {
    var range := Smoothed(g, TrueRange, cs, w, i);
    0 <= Smoothed(g, Plus, cs, w, i) <= range && 0 <= Smoothed(g, Minus, cs, w, i) <= range
  }

  predicate MovementsWithinRange(g: Grain, cs: seq<Candle>, w: int, i: int)
    requires 1 <= w && 0 <= i < |cs|
  {
    Smoothed(g, Plus, cs, w, i) + Smoothed(g, Minus, cs, w, i) <= Smoothed(g, TrueRange, cs, w, i)
  }

  /** A range of half a unit per candle of the window loses a unit, the movement one part below it loses
      nothing. */
  lemma HalfUnitsLeaveTheRange(g: Grain, w: int)
    requires 2 <= g && 1 <= w
    ensures var cs := Kick(w + 2, 1, HalfUnits(g, w));
      && |cs| == w + 2 && Contiguous(cs)
      && !EachWithinRange(g, cs, w, w + 1) && !MovementsWithinRange(g, cs, w, w + 1)
  {
    hide Contiguous, Kick, Smoothed, Decay, HalfUnits;
    HalfUnitsDecay(g, w);
    DecayZero(g, w);
    KickDecays(g, 1, HalfUnits(g, w), w);
  }

  lemma EachOfWholeUnits(cs: seq<Candle>, w: int, i: int)
    requires 1 <= w && 0 <= i < |cs| && ClosesInRange(cs)
    ensures EachWithinRange(1, cs, w, i)
  {
    SmoothedBounds(cs, w, i);
  }

  /** Each smoothed movement stays between zero and the smoothed range, at every step of every accepted series,
      exactly for prices in whole units. */
  lemma EachMovementWithinRangeIff(g: Grain, w: int)
    requires 1 <= w
    ensures (forall cs, i | Contiguous(cs) && 0 <= i < |cs| :: EachWithinRange(g, cs, w, i)) <==> g == 1
  {
    hide Contiguous, EachWithinRange, Kick;
    if g == 1 {
      forall cs, i | Contiguous(cs) && 0 <= i < |cs| ensures EachWithinRange(g, cs, w, i) {
        AcceptedCloses(cs);
        EachOfWholeUnits(cs, w, i);
      }
    } else {
      HalfUnitsLeaveTheRange(g, w);
      var cs := Kick(w + 2, 1, HalfUnits(g, w));
      assert !EachWithinRange(g, cs, w, w + 1);
    }
  }

  // ---------------------------------------------------------------- both movements and the range

  /** A window of one candle forgets everything but the last movement. */
  lemma WindowOfOne(line: Line, cs: seq<Candle>, i: int)
    requires 1 <= i < |cs|
    ensures Smoothed(1, line, cs, 1, i) == Raw(line, cs, i)
  {
    hide Raw, RoundPos;
    var before := Smoothed(1, line, cs, 1, i - 1);
    RoundPosExact(before, 1);
  }

  lemma HalvesAddUp(p: int, n: int, t: int)
    requires 0 <= p && 0 <= n && p + n <= t
    ensures Decay(1, p, 2) + Decay(1, n, 2) <= Decay(1, t, 2)
  {
  }

  lemma {:induction false} ShortWindowsKeepWithinRange(cs: seq<Candle>, w: int, i: int)
    requires 1 <= w <= 2 && 0 <= i < |cs| && ClosesInRange(cs)
    ensures MovementsWithinRange(1, cs, w, i)
    decreases i
  {
    if i == 0 {
    } else {
      ShortWindowsKeepWithinRange(cs, w, i - 1);
      MovementBounds(cs[i - 1], cs[i]);
      SmoothedBounds(cs, w, i - 1);
      if w == 1 {
        WindowOfOne(Plus, cs, i);
        WindowOfOne(Minus, cs, i);
        WindowOfOne(TrueRange, cs, i);
      } else if i > w {
        HalvesAddUp(Smoothed(1, Plus, cs, w, i - 1), Smoothed(1, Minus, cs, w, i - 1),
                    Smoothed(1, TrueRange, cs, w, i - 1));
      }
      hide Decay, DirectionalMovement;
    }
  }

  /** Half a window up and half a window down: neither movement decays, their range does. */
  lemma LongWindowsLeaveTheRange(w: int)
    requires 3 <= w
    ensures var half := (w - 1) / 2;
      var cs := Swing(w + 2, half, 1, half, 2);
      Contiguous(cs) && !MovementsWithinRange(1, cs, w, w + 1)
  {
    hide Contiguous, Moves, Swing, Smoothed, Decay;
    HalfNeverDecays(w);
    var half := (w - 1) / 2;
    var cs := Swing(w + 2, half, 1, half, 2);
    SwingIsContiguous(w + 2, half, 1, half, 2);
    SwingMoves(w + 2, half, 1, half, 2);
    FirstDecay(1, cs, half, half, w);
  }

  /** The smoothed movements stay within the smoothed range together, at every step of every accepted series,
      exactly for prices in whole units in windows of one and two candles. */
  lemma MovementsWithinRangeIff(g: Grain, w: int)
    requires 1 <= w
    ensures (forall cs, i | Contiguous(cs) && 0 <= i < |cs| :: MovementsWithinRange(g, cs, w, i)) <==> g == 1 && w <= 2
  {
    hide Contiguous, MovementsWithinRange, Kick, Swing;
    if g > 1 {
      HalfUnitsLeaveTheRange(g, w);
      assert !MovementsWithinRange(g, Kick(w + 2, 1, HalfUnits(g, w)), w, w + 1);
    } else if w <= 2 {
      forall cs, i | Contiguous(cs) && 0 <= i < |cs| ensures MovementsWithinRange(g, cs, w, i) {
        AcceptedCloses(cs);
        ShortWindowsKeepWithinRange(cs, w, i);
      }
    } else {
      LongWindowsLeaveTheRange(w);
      var half := (w - 1) / 2;
      assert !MovementsWithinRange(g, Swing(w + 2, half, 1, half, 2), w, w + 1);
    }
  }

  // ---------------------------------------------------------------- the guard against a zero range

  /** Where the smoothed range is zero, so that no index is computed, there is no movement either. */
  predicate ZeroRangeHidesNothing(g: Grain, cs: seq<Candle>, w: int, i: int)
    requires 1 <= w && 0 <= i < |cs|
  {
    Smoothed(g, TrueRange, cs, w, i) == 0 ==> Smoothed(g, Plus, cs, w, i) == 0 && Smoothed(g, Minus, cs, w, i) == 0
  }

  lemma DecayKeepsPositive(g: Grain, x: int, w: int)
    requires 3 <= w && 0 < x
    ensures 0 < Decay(g, x, w)
  {
    MulPositive(g, w);
    var q := RoundPos(x, g * w);
    RoundToError(g, x, w);
    hide RoundPos;
    DroppedLess(g, q, x, w);
  }

  lemma DroppedLess(g: Grain, q: int, x: int, w: int)
    requires 3 <= w && 0 < x && 2 * ((g * q) * w) - 2 * x <= g * w
    ensures g * q < x
  {
    var part := g * q;
    assert part == q * g && 3 * part + (w - 3) * part == part * w;
    if q <= 0 {
      MulMono(q, 0, g);
    } else {
      MulMono(1, q, g);
      MulMono(g, part, w);
      MulMono(0, w - 3, part);
    }
  }

  lemma {:induction false} LongWindowsHideNothing(g: Grain, cs: seq<Candle>, w: int, i: int)
    requires 3 <= w && 0 <= i < |cs| && ClosesInRange(cs)
    ensures ZeroRangeHidesNothing(g, cs, w, i)
    decreases i
  {
    if i == 0 {
    } else {
      LongWindowsHideNothing(g, cs, w, i - 1);
      MovementBounds(cs[i - 1], cs[i]);
      LinesNonNegative(g, TrueRange, cs, w, i - 1);
      DecayZero(g, w);
      var before := Smoothed(g, TrueRange, cs, w, i - 1);
      if before > 0 {
        DecayKeepsPositive(g, before, w);
      }
      hide Decay, DirectionalMovement;
    }
  }

  lemma WholeUnitsHideNothing(cs: seq<Candle>, w: int, i: int)
    requires 1 <= w && 0 <= i < |cs| && ClosesInRange(cs)
    ensures ZeroRangeHidesNothing(1, cs, w, i)
  {
    SmoothedBounds(cs, w, i);
    hide Smoothed;
  }

  /** In a window of one the range of a whole unit is gone after a step, and one part of it is not. */
  lemma HiddenInWindowOfOne(g: Grain)
    requires 2 <= g
    ensures var cs := Kick(3, g - 1, g);
      |cs| == 3 && Contiguous(cs) && !ZeroRangeHidesNothing(g, cs, 1, 2)
  {
    DecayOf(g, g, 1, 1);
    DecayOf(g, 1, 1, if g == 2 then 1 else 0);
    hide Contiguous, Kick, Smoothed, Decay;
    KickDecays(g, g - 1, g, 1);
  }

  /** In a window of two the range of one unit is gone after a step, and the movement one part below is not. */
  lemma HiddenInWindowOfTwo(g: Grain)
    requires 2 <= g
    ensures var cs := Kick(4, 1, g);
      |cs| == 4 && Contiguous(cs) && !ZeroRangeHidesNothing(g, cs, 2, 3)
  {
    HalfUnitsDecay(g, 2);
    assert HalfUnits(g, 2) == g;
    hide Contiguous, Kick, Smoothed, Decay;
    KickDecays(g, 1, g, 2);
  }

  /** The guard against a zero range hides no movement, at any step of any accepted series, exactly for prices in
      whole units or in windows of three candles or more. */
  lemma ZeroRangeHidesNothingIff(g: Grain, w: int)
    requires 1 <= w
    ensures (forall cs, i | Contiguous(cs) && 0 <= i < |cs| :: ZeroRangeHidesNothing(g, cs, w, i)) <==> g == 1 || w >= 3
  {
    hide Contiguous, ZeroRangeHidesNothing, Kick;
    if g == 1 || w >= 3 {
      forall cs, i | Contiguous(cs) && 0 <= i < |cs| ensures ZeroRangeHidesNothing(g, cs, w, i) {
        AcceptedCloses(cs);
        if g == 1 {
          WholeUnitsHideNothing(cs, w, i);
        } else {
          LongWindowsHideNothing(g, cs, w, i);
        }
      }
    } else if w == 1 {
      HiddenInWindowOfOne(g);
      assert !ZeroRangeHidesNothing(g, Kick(3, g - 1, g), w, 2);
    } else {
      HiddenInWindowOfTwo(g);
      assert !ZeroRangeHidesNothing(g, Kick(4, 1, g), w, 3);
    }
  }

  // ---------------------------------------------------------------- the two indicators

  /** DI+ and DI- of a step add up to 100 at most. */
  predicate IndicatorsWithinHundred(g: Grain, cs: seq<Candle>, w: int, i: int)
    requires 1 <= w && 0 <= i < |cs|
  {
    var range := Smoothed(g, TrueRange, cs, w, i);
    range != 0 ==>
      Div(Smoothed(g, Plus, cs, w, i), range) * 100 + Div(Smoothed(g, Minus, cs, w, i), range) * 100 <= 100 * SCALE
  }

  lemma OneMovementOnly(cs: seq<Candle>, i: int)
    requires 1 <= i < |cs| && ClosesInRange(cs)
    ensures IndicatorsWithinHundred(1, cs, 1, i)
  {
    WindowOfOne(Plus, cs, i);
    WindowOfOne(Minus, cs, i);
    WindowOfOne(TrueRange, cs, i);
    MovementBounds(cs[i - 1], cs[i]);
    var m := DirectionalMovement(cs[i - 1], cs[i]);
    assert m.plus == 0 || m.minus == 0;
    hide Smoothed, DirectionalMovement, Div;
    if m.trueRange != 0 {
      DivRange(m.plus, m.trueRange);
      DivRange(m.minus, m.trueRange);
      DivZero(m.trueRange);
    }
  }

  lemma DivZero(d: int)
    requires d > 0
    ensures Div(0, d) == 0
  {
    RoundPosExact(0, d);
  }

  /** One part in 2^17: the quotient of the part and of the rest both end on a tie, and both round up. */
  lemma BothRoundUp()
    ensures Div(1, 0x20000) + Div(0x1ffff, 0x20000) == SCALE + 1
  {
  }

  lemma TiesExceedHundred(g: Grain, w: int)
    requires 2 <= w
    ensures var cs := Swing(w + 1, 1, 1, 0x1ffff, 2);
      Contiguous(cs) && !IndicatorsWithinHundred(g, cs, w, w)
  {
    var cs := Swing(w + 1, 1, 1, 0x1ffff, 2);
    SwingIsContiguous(w + 1, 1, 1, 0x1ffff, 2);
    SwingMoves(w + 1, 1, 1, 0x1ffff, 2);
    BothRoundUp();
    hide Moves, Swing, Smoothed, Div;
    AddedUp(g, cs, 1, 0x1ffff, w, w);
  }

  /** A range without movement that leaves a debt behind, and then a pure move up of twice the debt. */
  function Overtaking(g: Grain): seq<Candle> {
    var (x, r) := (HalfUnits(g, 1), 2 * (g - HalfUnits(g, 1)));
    Drawn(3, [Shape(1 + x, 1, 1), Shape(1 + x, 1, 1 + x), Shape(1 + x + r, 1 + x, 1 + x)])
  }

  lemma OvertakingMoves(g: Grain)
    requires 2 <= g
    ensures var (cs, x, r) := (Overtaking(g), HalfUnits(g, 1), 2 * (g - HalfUnits(g, 1)));
      && |cs| == 3 && Contiguous(cs)
      && DirectionalMovement(cs[0], cs[1]) == Movement(x, 0, 0)
      && DirectionalMovement(cs[1], cs[2]) == Movement(r, r, 0)
  {
    var (x, r) := (HalfUnits(g, 1), 2 * (g - HalfUnits(g, 1)));
    var shapes := [Shape(1 + x, 1, 1), Shape(1 + x, 1, 1 + x), Shape(1 + x + r, 1 + x, 1 + x)];
    assert forall k | 0 <= k < |shapes| :: Proper(shapes[k]);
    DrawnIsContiguous(3, shapes);
    hide Contiguous;
  }

  /** The first two steps in a window of one. */
  lemma TwoSteps(g: Grain, line: Line, cs: seq<Candle>)
    requires |cs| == 3
    ensures Smoothed(g, line, cs, 1, 2) == Decay(g, Raw(line, cs, 1), 1) + Raw(line, cs, 2)
  {
    hide Decay, Raw;
    assert Smoothed(g, line, cs, 1, 0) == 0;
    assert Smoothed(g, line, cs, 1, 1) == Raw(line, cs, 1);
  }

  lemma OvertakingLines(g: Grain)
    requires 2 <= g
    ensures var (cs, debt) := (Overtaking(g), g - HalfUnits(g, 1));
      && |cs| == 3 && Contiguous(cs) && 1 <= debt
      && Smoothed(g, TrueRange, cs, 1, 2) == debt && Smoothed(g, Plus, cs, 1, 2) == 2 * debt
      && Smoothed(g, Minus, cs, 1, 2) == 0
  {
    assert g * 1 == g && 1 <= g - HalfUnits(g, 1);
    hide Contiguous, Decay, DirectionalMovement, Overtaking, HalfUnits, Smoothed;
    OvertakingMoves(g);
    HalfUnitsDecay(g, 1);
    DecayZero(g, 1);
    TwoSteps(g, TrueRange, Overtaking(g));
    TwoSteps(g, Plus, Overtaking(g));
    TwoSteps(g, Minus, Overtaking(g));
  }

  lemma OvertakingExceedsHundred(g: Grain)
    requires 2 <= g
    ensures |Overtaking(g)| == 3 && Contiguous(Overtaking(g)) && !IndicatorsWithinHundred(g, Overtaking(g), 1, 2)
  {
    hide Contiguous, Overtaking, Smoothed, HalfUnits;
    OvertakingLines(g);
    var debt := g - HalfUnits(g, 1);
    RoundPosExact(2 * SCALE, debt);
    RoundPosExact(0, debt);
    assert 2 * debt * SCALE == (2 * SCALE) * debt;
  }

  /** At the default window and a grain of ten, a range of seven units with a movement one part below makes DI+
      115 on its own. */
  lemma DefaultWindowExceedsHundred()
    ensures var cs := Kick(16, 1, 70);
      && |cs| == 16 && Contiguous(cs) && Smoothed(10, TrueRange, cs, 14, 15) == 60
      && Div(Smoothed(10, Plus, cs, 14, 15), 60) * 100 == 115 * SCALE
  {
    hide Contiguous, Kick, Smoothed, Decay, Div;
    HalfUnitsDecay(10, 14);
    assert HalfUnits(10, 14) == 70;
    SixtyNineInSixty();
    KickDecays(10, 1, 70, 14);
  }

  lemma SixtyNineInSixty()
    ensures Div(69, 60) * 100 == 115 * SCALE
  {
    RoundPosExact(11_500_000_000_000_000, 60);
  }

  /** One unit up and one down in a window of three: one step after the window both indicators are 100. */
  lemma IndicatorsCanReachTwoHundred()
    ensures var cs := Swing(5, 1, 1, 1, 2);
      && Contiguous(cs) && Smoothed(1, TrueRange, cs, 3, 4) == 1
      && Div(Smoothed(1, Plus, cs, 3, 4), 1) * 100 + Div(Smoothed(1, Minus, cs, 3, 4), 1) * 100 == 200 * SCALE
  {
    hide Contiguous, Moves, Swing, Smoothed;
    SwingIsContiguous(5, 1, 1, 1, 2);
    SwingMoves(5, 1, 1, 1, 2);
    HalfNeverDecays(3);
    FirstDecay(1, Swing(5, 1, 1, 1, 2), 1, 1, 3);
    RoundPosExact(SCALE, 1);
  }

  /** DI+ and DI- add up to 100 at most, at every step of every accepted series that has a whole window,
      exactly for prices in whole units in a window of one candle. */
  lemma IndicatorsWithinHundredIff(g: Grain, w: int)
    requires 1 <= w
    ensures (forall cs, i | Contiguous(cs) && w <= i < |cs| :: IndicatorsWithinHundred(g, cs, w, i))
       <==> g == 1 && w == 1
  {
    hide Contiguous, IndicatorsWithinHundred, Swing, Overtaking;
    if w > 1 {
      TiesExceedHundred(g, w);
      assert !IndicatorsWithinHundred(g, Swing(w + 1, 1, 1, 0x1ffff, 2), w, w);
    } else if g > 1 {
      OvertakingExceedsHundred(g);
      assert !IndicatorsWithinHundred(g, Overtaking(g), w, 2);
    } else {
      forall cs, i | Contiguous(cs) && w <= i < |cs| ensures IndicatorsWithinHundred(g, cs, w, i) {
        AcceptedCloses(cs);
        OneMovementOnly(cs, i);
      }
    }
  }

  // ---------------------------------------------------------------- the ADX

  predicate AdxWithinHundred(g: Grain, cs: seq<Candle>, w: int, i: int)
    requires 1 <= w && 0 <= i < |cs|
  {
    AdxAt(g, cs, w, i).Some? ==> 0 <= AdxAt(g, cs, w, i).value <= 100 * SCALE
  }

  /** A movement of half a unit that leaves a debt behind, within a range that does not. */
  function Indebted(g: Grain): seq<Candle> {
    var x := HalfUnits(g, 1);
    Drawn(3, [Shape(1 + g, 1, 1), Shape(1 + g + x, 1, 1)])
  }

  lemma IndebtedMoves(g: Grain)
    requires 2 <= g
    ensures var (cs, x) := (Indebted(g), HalfUnits(g, 1));
      && |cs| == 3 && Contiguous(cs)
      && DirectionalMovement(cs[0], cs[1]) == Movement(g + x, x, 0)
      && DirectionalMovement(cs[1], cs[2]) == Movement(g + x, 0, 0)
  {
    var x := HalfUnits(g, 1);
    var shapes := [Shape(1 + g, 1, 1), Shape(1 + g + x, 1, 1)];
    assert forall k | 0 <= k < |shapes| :: Proper(shapes[k]);
    DrawnIsContiguous(3, shapes);
    hide Contiguous;
  }

  /** A unit and a half leave the same debt as the half. */
  lemma UnitAndHalfDecay(g: Grain)
    requires 2 <= g
    ensures var x := HalfUnits(g, 1);
      1 <= x < g && 2 * x <= g + 1 && Decay(g, g + x, 1) == x - g && Decay(g, x, 1) == x - g
  {
    HalfUnitsDecay(g, 1);
    var (x, d) := (HalfUnits(g, 1), g * 1);
    assert d == g && g <= 2 * x <= g + 1;
    hide Decay, HalfUnits;
    DecayOf(g, g + x, 1, 2);
  }

  lemma IndebtedLines(g: Grain)
    requires 2 <= g
    ensures var (cs, x) := (Indebted(g), HalfUnits(g, 1));
      && |cs| == 3 && Contiguous(cs) && 1 <= x < g && 2 * x <= g + 1
      && Smoothed(g, TrueRange, cs, 1, 2) == 2 * x && Smoothed(g, Plus, cs, 1, 2) == x - g
      && Smoothed(g, Minus, cs, 1, 2) == 0
  {
    hide Contiguous, Decay, DirectionalMovement, Indebted, HalfUnits, Smoothed;
    IndebtedMoves(g);
    UnitAndHalfDecay(g);
    DecayZero(g, 1);
    TwoSteps(g, TrueRange, Indebted(g));
    TwoSteps(g, Plus, Indebted(g));
    TwoSteps(g, Minus, Indebted(g));
  }

  /** A debt alone has the index -100. */
  lemma DebtIndex(range: int, debt: int)
    requires 1 <= debt && 0 < range <= 2 * SCALE * debt
    ensures DirectionalIndex(range, -debt, 0) == -100 * SCALE
  {
    RoundPosExact(0, range);
    var p := RoundPos(debt * SCALE, range);
    RoundPosNegate(debt * SCALE, range);
    assert p >= 1 by {
      RoundPosNearest(debt * SCALE, range);
      if p <= 0 {
        MulMono(p, 0, range);
      }
    }
    assert -debt * SCALE == -(debt * SCALE);
    assert Div(-debt, range) == -p && Div(0, range) == 0;
    var sum := -(p * 100);
    RoundPosExact(-SCALE, p * 100);
    assert Div(p * 100, sum) == RoundPos(-((p * 100) * SCALE), p * 100);
    assert -((p * 100) * SCALE) == -SCALE * (p * 100);
    hide RoundPos, Div;
  }

  /** In a window of one, for every grain but whole units, an accepted series has an ADX of -100. */
  lemma AdxCanBeNegative(g: Grain)
    requires 2 <= g
    ensures |Indebted(g)| == 3 && Contiguous(Indebted(g)) && AdxAt(g, Indebted(g), 1, 2) == Some(-100 * SCALE)
  {
    hide Contiguous, Indebted, Smoothed, HalfUnits;
    IndebtedLines(g);
    var x := HalfUnits(g, 1);
    DebtIndex(2 * x, g - x);
    hide DirectionalIndex;
    var cs := Indebted(g);
    assert Dx(g, cs, 1, 2) == -100 * SCALE;
    RoundPosExact(-100 * SCALE, 1);
    hide Dx;
    assert Adx(g, cs, 1, 2) == Blend(1, Adx(g, cs, 1, 1), Dx(g, cs, 1, 2), 1);
  }

  /** Every ready ADX of every accepted series lies in [0, 100], exactly for prices in whole units or in windows
      of two candles or more. */
  lemma AdxWithinHundredIff(g: Grain, w: int)
    requires 1 <= w
    ensures (forall cs, i | Contiguous(cs) && 0 <= i < |cs| :: AdxWithinHundred(g, cs, w, i)) <==> g == 1 || w >= 2
  {
    hide Contiguous, Adx, Indebted;
    if g == 1 || w >= 2 {
      forall cs, i | Contiguous(cs) && 0 <= i < |cs| ensures AdxWithinHundred(g, cs, w, i) {
        AcceptedCloses(cs);
        if 2 * w - 1 <= i {
          AdxInRange(g, cs, w, i);
        }
      }
    } else {
      AdxCanBeNegative(g);
      assert !AdxWithinHundred(g, Indebted(g), w, 2);
    }
  }

  // ---------------------------------------------------------------- two forms of one smoothing

  /** The range total of the ADX loop is exactly w times the average true range. */
  predicate FormsAgree(g: Grain, cs: seq<Candle>, w: int, i: int)
    requires 1 <= w <= i < |cs|
  {
    Smoothed(g, TrueRange, cs, w, i) == w * Atr(g, cs, w, i)
  }

  lemma WindowOfOneAgrees(cs: seq<Candle>, i: int)
    requires 1 <= i < |cs|
    ensures FormsAgree(1, cs, 1, i)
  {
    SmoothingsAgreeIff(1, cs, 1, i);
    hide Smoothed, Atr;
  }

  /** A single move of one part is no whole unit per candle of the window. */
  lemma OnePartSeparatesTheForms(g: Grain, w: int)
    requires 1 <= w && 2 <= g * w
    ensures var cs := Kick(w + 2, 0, 1);
      |cs| == w + 2 && Contiguous(cs) && Smoothed(g, TrueRange, cs, w, w) == 1 && !FormsAgree(g, cs, w, w)
  {
    hide Contiguous, Kick, Smoothed, Decay, RoundTo;
    KickDecays(g, 0, 1, w);
    DividesExactly(g, 1, w);
    PartIsNotWhole(g, w);
    var cs := Kick(w + 2, 0, 1);
    assert Atr(g, cs, w, w) == RoundTo(g, 1, w);
  }

  lemma PartIsNotWhole(g: Grain, w: int)
    requires 1 <= w && 2 <= g * w
    ensures !Whole(g, 1, w)
  {
    QuotientUnique(1, g * w, 0);
  }

  /** The two smoothing loops agree exactly, at every index of every accepted series, exactly for prices in whole
      units in a window of one candle. */
  lemma FormsAgreeIff(g: Grain, w: int)
    requires 1 <= w
    ensures (forall cs, i | Contiguous(cs) && w <= i < |cs| :: FormsAgree(g, cs, w, i)) <==> g == 1 && w == 1
  {
    hide Contiguous, FormsAgree, Kick;
    if g == 1 && w == 1 {
      forall cs, i | Contiguous(cs) && w <= i < |cs| ensures FormsAgree(g, cs, w, i) {
        WindowOfOneAgrees(cs, i);
      }
    } else {
      assert 2 <= g * w by {
        MulMono(1, g, w);
        MulMono(1, w, g);
        assert w * g == g * w;
      }
      OnePartSeparatesTheForms(g, w);
      assert !FormsAgree(g, Kick(w + 2, 0, 1), w, w);
    }
  }

  // ---------------------------------------------------------------- one price for ever

  /** A price of one part that never moves. */
  function Still(n: nat): (cs: seq<Candle>)
    ensures |cs| == n
  {
    Drawn(n, [Shape(1, 1, 1)])
  }

  lemma {:induction false} StillSum(n: nat, lo: int, hi: int)
    requires 0 <= lo <= hi <= n
    ensures Contiguous(Still(n)) && SumClose(Still(n), lo, hi) == hi - lo
    decreases hi
  {
    DrawnIsContiguous(n, [Shape(1, 1, 1)]);
    hide Contiguous;
    if lo == hi {
    } else {
      StillSum(n, lo, hi - 1);
    }
  }

  /** The exponential average at i lies between any bounds of the closes so far. */
  ghost predicate InHull(g: Grain, cs: seq<Candle>, w: int, i: int)
    requires 1 <= w && w - 1 <= i < |cs|
  {
    forall lo, hi | ClosesWithin(cs, 0, i, lo, hi) :: lo <= Ema(g, cs, w, i) <= hi
  }

  /** The mean of one part is no part: it is a whole unit or nothing. */
  lemma OnePartLeavesTheHull(g: Grain, w: int)
    requires 2 <= g && 1 <= w
    ensures Contiguous(Still(w)) && !InHull(g, Still(w), w, w - 1)
  {
    var cs := Still(w);
    StillSum(w, 0, w);
    hide Contiguous;
    MulPositive(g, w);
    var q := RoundPos(w, g * w);
    assert Ema(g, cs, w, w - 1) == g * q;
    assert ClosesWithin(cs, 0, w - 1, 1, 1);
    hide Ema, RoundPos;
    if q <= 0 {
      MulMono(q, 0, g);
    } else {
      MulMono(1, q, g);
    }
    assert g * q == q * g;
  }

  lemma WholeUnitsInHull(cs: seq<Candle>, w: int, i: int)
    requires 1 <= w && w - 1 <= i < |cs|
    ensures InHull(1, cs, w, i)
  {
    hide Ema;
    forall lo, hi | ClosesWithin(cs, 0, i, lo, hi) ensures lo <= Ema(1, cs, w, i) <= hi {
      EmaHull(1, cs, w, i, lo, hi);
    }
  }

  /** Every exponential average of every accepted series lies between the lowest and the highest close so far,
      exactly for prices in whole units. */
  lemma EmaInHullIff(g: Grain, w: int)
    requires 1 <= w
    ensures (forall cs, i | Contiguous(cs) && w - 1 <= i < |cs| :: InHull(g, cs, w, i)) <==> g == 1
  {
    hide Contiguous, InHull, Still;
    if g == 1 {
      forall cs, i | Contiguous(cs) && w - 1 <= i < |cs| ensures InHull(g, cs, w, i) {
        WholeUnitsInHull(cs, w, i);
      }
    } else {
      OnePartLeavesTheHull(g, w);
      assert !InHull(g, Still(w), w, w - 1);
    }
  }

  // ---------------------------------------------------------------- warm-up

  /** The row at i is complete exactly from the warm-up index on. */
  predicate CompleteFromWarmUp(g: Grain, cs: seq<Candle>, cfg: TrendConfig, i: int)
    requires NormalizeTrend(cfg).Some? && TrendOutcome(g, cs, cfg).Ok? && 0 <= i < |TrendOutcome(g, cs, cfg).value|
  {
    TrendOutcome(g, cs, cfg).value[i].complete <==> TrendWarmUp(NormalizeTrend(cfg).value) <= i
  }

  lemma AcceptedOutcome(g: Grain, cs: seq<Candle>, cfg: TrendConfig)
    requires NormalizeTrend(cfg).Some? && Contiguous(cs)
    ensures TrendOutcome(g, cs, cfg).Ok? && |TrendOutcome(g, cs, cfg).value| == |cs|
  {
    hide Contiguous, NormalizeTrend, TrendRowAt;
  }

  /** With a price of less than half a unit that never moves, no row is ever complete. */
  lemma StillNeverCompletes(g: Grain, cfg: TrendConfig, n: nat, i: int)
    requires 3 <= g && NormalizeTrend(cfg).Some? && 0 <= i < n
    ensures Contiguous(Still(n)) && TrendOutcome(g, Still(n), cfg).Ok?
    ensures |TrendOutcome(g, Still(n), cfg).value| == n && !TrendOutcome(g, Still(n), cfg).value[i].complete
  {
    var c := NormalizeTrend(cfg).value;
    assert UsableTrend(c);
    hide NormalizeTrend, Contiguous, TrendOutcome, MeanVisible, Still;
    StillSum(n, 0, 0);
    AcceptedOutcome(g, Still(n), cfg);
    TrendCompleteIff(g, Still(n), cfg, i);
    if TrendWarmUp(c) <= i {
      StillMeanInvisible(g, n, i, c.ma50);
    }
  }

  lemma StillMeanInvisible(g: Grain, n: nat, end: int, w: int)
    requires 3 <= g && 1 <= w <= end < n
    ensures Contiguous(Still(n)) && !MeanVisible(g, Still(n), end, w)
  {
    hide Contiguous;
    StillSum(n, end - w, end);
    MulMono(3, g, w);
  }

  lemma FirstComplete(cfg: TrendConfig) returns (last: int)
    requires NormalizeTrend(cfg).Some?
    ensures 0 <= last == TrendWarmUp(NormalizeTrend(cfg).value)
  {
    last := TrendWarmUp(NormalizeTrend(cfg).value);
    assert UsableTrend(NormalizeTrend(cfg).value);
    hide NormalizeTrend;
  }

  lemma PartsAreVisible(g: Grain, cs: seq<Candle>)
    requires g <= 2 && Contiguous(cs)
    ensures VisibleCloses(g, cs)
  {
  }

  /** The rows of every accepted series are complete exactly from the warm-up index on, if and only if no price
      can be below half a unit. */
  lemma CompleteFromWarmUpIff(g: Grain, cfg: TrendConfig)
    requires NormalizeTrend(cfg).Some?
    ensures (forall cs, i | TrendOutcome(g, cs, cfg).Ok? && 0 <= i < |TrendOutcome(g, cs, cfg).value| ::
               CompleteFromWarmUp(g, cs, cfg, i))
       <==> g <= 2
  {
    hide NormalizeTrend, TrendRowAt, Contiguous;
    if g <= 2 {
      forall cs, i | TrendOutcome(g, cs, cfg).Ok? && 0 <= i < |TrendOutcome(g, cs, cfg).value|
        ensures CompleteFromWarmUp(g, cs, cfg, i)
      {
        assert cs != [] && Contiguous(cs) && i < |cs|;
        PartsAreVisible(g, cs);
        hide TrendOutcome;
        TrendCompleteAfterWarmUp(g, cs, cfg, i);
      }
    } else {
      hide TrendOutcome;
      var last := FirstComplete(cfg);
      StillNeverCompletes(g, cfg, last + 1, last);
      assert !CompleteFromWarmUp(g, Still(last + 1), cfg, last);
    }
  }
}
