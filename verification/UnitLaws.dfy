/** For which grains of prices and which windows the ADX does not see the unit of the prices. */
module UnitLaws {
  import opened Candles
  import opened Decimals
  import opened Indicators
  import opened RoundingLimits
  import opened RoundingWitnesses
  import opened SymmetryLaws
  import opened WilderLaws

  // ---------------------------------------------------------------- a total that decays without rounding

  function Pow(b: int, n: nat): int {
    if n == 0 then 1 else b * Pow(b, n - 1)
  }

  lemma {:induction false} PowPositive(b: int, n: nat)
    requires 1 <= b
    ensures 1 <= Pow(b, n)
  {
    if n == 0 {
    } else {
      PowPositive(b, n - 1);
      MulMono(1, b, Pow(b, n - 1));
    }
  }

  /** What is left of w^w after t smoothing steps. */
  function Fading(w: int, t: int): int
    requires 2 <= w && 0 <= t <= w
  {
    Pow(w, w - t) * Pow(w - 1, t)
  }

  lemma FadingStep(w: int, t: int) returns (part: int)
    requires 2 <= w && 0 <= t < w
    ensures 1 <= part && Fading(w, t) == part * w && Fading(w, t + 1) == part * (w - 1)
  {
    part := Pow(w, w - t - 1) * Pow(w - 1, t);
    PowPositive(w, w - t - 1);
    PowPositive(w - 1, t);
    MulMono(1, Pow(w, w - t - 1), Pow(w - 1, t));
    FadingProducts(Pow(w, w - t - 1), Pow(w - 1, t), w);
  }

  lemma FadingProducts(a: int, b: int, w: int)
    ensures (w * a) * b == (a * b) * w && a * ((w - 1) * b) == (a * b) * (w - 1)
  {
  }

  lemma WholeDecay(g: Grain, part: int, w: int)
    requires 1 <= w
    ensures Decay(g, g * (part * w), w) == g * (part * (w - 1))
  {
    RoundToExact(g, part, w);
    assert g * (part * w) == (part * g) * w;
    assert g * (part * (w - 1)) == (part * g) * w - part * g;
  }

  lemma FadingDecays(g: Grain, w: int, t: int)
    requires 2 <= w && 0 <= t < w
    ensures Decay(g, g * Fading(w, t), w) == g * Fading(w, t + 1) && 1 <= Fading(w, t)
  {
    hide Decay, Fading;
    var part := FadingStep(w, t);
    WholeDecay(g, part, w);
    MulMono(1, part, w);
  }

  lemma TwoFadingDecay(g: Grain, w: int, t: int, s: int)
    requires 2 <= w && 0 <= t < w && 0 <= s < w
    ensures Decay(g, g * Fading(w, t) + g * Fading(w, s), w) == g * Fading(w, t + 1) + g * Fading(w, s + 1)
  {
    hide Decay, Fading;
    var a := FadingStep(w, t);
    var b := FadingStep(w, s);
    WholeDecay(g, a + b, w);
    assert (a + b) * w == a * w + b * w && (a + b) * (w - 1) == a * (w - 1) + b * (w - 1);
    Distributes(g, a * w, b * w);
    Distributes(g, a * (w - 1), b * (w - 1));
  }

  lemma Distributes(g: int, x: int, y: int)
    ensures g * (x + y) == g * x + g * y
  {
  }

  lemma FadingRatioAlgebra(first: int, part: int, w: int, m: int)
    requires 2 <= w && 0 <= m && 0 <= part && first * (w - 1) >= (part * w) * (w - 1 + m)
    ensures first * (w - 1) >= (part * (w - 1)) * (w + m)
  {
    assert (part * w) * (w - 1 + m) - (part * (w - 1)) * (w + m) == part * m;
    MulMono(0, part, m);
  }

  /** Each step takes a w-th part away, so m steps take away at least what m steps of simple interest would. */
  lemma {:induction false} FadingFalls(w: int, t: int, m: int)
    requires 2 <= w && 0 <= t && 0 <= m && t + m <= w
    ensures Fading(w, t) * (w - 1) >= Fading(w, t + m) * (w - 1 + m)
    decreases m
  {
    hide Fading;
    if m == 0 {
    } else {
      FadingFalls(w, t, m - 1);
      var part := FadingStep(w, t + m - 1);
      FadingRatioAlgebra(Fading(w, t), part, w, m - 1);
    }
  }

  lemma FadingHalfway(w: int, t: int)
    requires 2 <= w && 0 <= t && t + w / 2 < w
    ensures 2 * Fading(w, t) >= 3 * Fading(w, t + w / 2) > 0
  {
    hide Fading;
    FadingFalls(w, t, w / 2);
    FadingDecays(1, w, t + w / 2);
    HalfwayAlgebra(Fading(w, t), Fading(w, t + w / 2), w - 1, w / 2);
  }

  lemma HalfwayAlgebra(a: int, b: int, n: int, half: int)
    requires 1 <= n <= 2 * half && 0 <= b && b * (n + half) <= a * n
    ensures 3 * b <= 2 * a
  {
    HalfwayProducts(a, b, n, half);
    MulMono(n, 2 * half, b);
    CancelFactor(3 * b, 2 * a, n);
  }

  lemma HalfwayProducts(a: int, b: int, n: int, half: int)
    ensures b * (n + half) == n * b + b * half
    ensures (2 * half) * b == 2 * (b * half)
    ensures (3 * b) * n == 3 * (n * b)
    ensures (2 * a) * n == 2 * (a * n)
  {
  }

  lemma CancelFactor(x: int, y: int, c: int)
    requires 0 < c && x * c <= y * c
    ensures x <= y
  {
    assert (y + 1) * c == y * c + c;
    if y < x {
      MulMono(y + 1, x, c);
    }
  }

  // ---------------------------------------------------------------- one part down, and one up half a window later

  /** The candle of the move up: half a window after the first one. */
  function Late(w: int): int {
    w + w / 2
  }

  function DownThenUp(w: int): seq<Candle>
    requires 2 <= w
  {
    Swing(2 * w, 1, Late(w), 1, 1)
  }

  lemma PartStep(g: Grain, w: int, i: int)
    requires 1 <= w && 3 <= g * w
    ensures Accumulate(g, 1, 0, w, i) == 1 && Accumulate(g, 0, 0, w, i) == 0 && Accumulate(g, 0, 1, w, i) == 1
  {
    PartNeverDecays(g, w);
    DecayZero(g, w);
    hide Decay;
  }

  lemma {:induction false} UnscaledLines(g: Grain, cs: seq<Candle>, w: int, i: int)
    requires 2 <= w && 3 <= g * w && 1 <= i < |cs| && Moves(cs, 1, Late(w), 1, 1)
    ensures Smoothed(g, Minus, cs, w, i) == 1
    ensures Smoothed(g, Plus, cs, w, i) == if i < Late(w) then 0 else 1
    ensures i < Late(w) ==> Smoothed(g, TrueRange, cs, w, i) == 1
    decreases i
  {
    hide Smoothed, Moves, Late, Accumulate, DirectionalMovement, Raw, Fading, MinusLine, PlusLine;
    FirstLines(g, w);
    NothingYet(g, cs, w);
    SwingStep(g, Minus, cs, 1, Late(w), 1, 1, w, i);
    SwingStep(g, Plus, cs, 1, Late(w), 1, 1, w, i);
    SwingStep(g, TrueRange, cs, 1, Late(w), 1, 1, w, i);
    PartStep(g, w, i);
    if i == 1 {
    } else {
      UnscaledLines(g, cs, w, i - 1);
    }
  }

  lemma NothingYet(g: Grain, cs: seq<Candle>, w: int)
    requires 1 <= w && 0 < |cs|
    ensures Smoothed(g, TrueRange, cs, w, 0) == 0
    ensures Smoothed(g, Plus, cs, w, 0) == 0
    ensures Smoothed(g, Minus, cs, w, 0) == 0
  {
  }

  /** The minus line of the scaled series: whole until the first window is full, fading after it. */
  function MinusLine(g: Grain, w: int, i: int): int
    requires 2 <= w && 1 <= i < 2 * w
  {
    g * Fading(w, if i <= w then 0 else i - w)
  }

  function PlusLine(g: Grain, w: int, i: int): int
    requires 2 <= w && 1 <= i < 2 * w
  {
    if i < Late(w) then 0 else g * Fading(w, i - Late(w))
  }

  lemma LinesFade(g: Grain, w: int, i: int)
    requires 2 <= w && 1 < i < 2 * w
    ensures var next := if i == Late(w) then g * Fading(w, 0) else 0;
      && MinusLine(g, w, i) == Accumulate(g, MinusLine(g, w, i - 1), 0, w, i)
      && PlusLine(g, w, i) == Accumulate(g, PlusLine(g, w, i - 1), next, w, i)
      && MinusLine(g, w, i) + PlusLine(g, w, i)
           == Accumulate(g, MinusLine(g, w, i - 1) + PlusLine(g, w, i - 1), next, w, i)
  {
    hide Fading, Decay;
    DecayZero(g, w);
    if i > w {
      FadingDecays(g, w, i - 1 - w);
      if i > Late(w) {
        FadingDecays(g, w, i - 1 - Late(w));
        TwoFadingDecay(g, w, i - 1 - w, i - 1 - Late(w));
      }
    }
  }

  lemma {:induction false} ScaledLines(g: Grain, cs: seq<Candle>, w: int, i: int)
    requires 2 <= w && 1 <= i < |cs| <= 2 * w && Moves(cs, g * Fading(w, 0), Late(w), g * Fading(w, 0), 1)
    ensures Smoothed(g, Minus, cs, w, i) == MinusLine(g, w, i)
    ensures Smoothed(g, Plus, cs, w, i) == PlusLine(g, w, i)
    ensures Smoothed(g, TrueRange, cs, w, i) == MinusLine(g, w, i) + PlusLine(g, w, i)
    decreases i
  {
    hide Fading, Smoothed, Moves, MinusLine, PlusLine, Late, Accumulate, DirectionalMovement, Raw;
    NothingYet(g, cs, w);
    FirstLines(g, w);
    var k := g * Fading(w, 0);
    SwingStep(g, Minus, cs, k, Late(w), k, 1, w, i);
    SwingStep(g, Plus, cs, k, Late(w), k, 1, w, i);
    SwingStep(g, TrueRange, cs, k, Late(w), k, 1, w, i);
    if i == 1 {
      FirstAdded(g, k, w);
    } else {
      ScaledLines(g, cs, w, i - 1);
      LinesFade(g, w, i);
    }
  }

  lemma FirstAdded(g: Grain, x: int, w: int)
    requires 1 <= w
    ensures Accumulate(g, 0, x, w, 1) == x && Accumulate(g, 0, 0, w, 1) == 0
  {
  }

  lemma FirstLines(g: Grain, w: int)
    requires 2 <= w
    ensures MinusLine(g, w, 1) == g * Fading(w, 0) && PlusLine(g, w, 1) == 0 && 1 < Late(w)
  {
  }

  // ---------------------------------------------------------------- directional indices

  lemma BalancedIndex(range: int, x: int)
    ensures DirectionalIndex(range, x, x) == 0
  {
    hide Div;
    if range != 0 && Div(x, range) * 100 + Div(x, range) * 100 != 0 {
      var sum := Div(x, range) * 100 + Div(x, range) * 100;
      RoundPosExact(0, Abs(sum));
      assert RoundQuot(0 * SCALE, sum) == 0;
      DivIs(0, sum);
    }
  }

  lemma DivIs(a: int, b: int)
    requires b != 0
    ensures Div(a, b) == RoundQuot(a * SCALE, b)
  {
  }

  lemma OneSidedIndex(x: int)
    requires 1 <= x
    ensures DirectionalIndex(x, 0, x) == 100 * SCALE
  {
    RoundPosExact(SCALE, x);
    RoundPosExact(0, x);
    assert Div(x, x) == SCALE && Div(0, x) == 0;
    RoundPosExact(SCALE, 100 * SCALE);
    assert Div(100 * SCALE, 100 * SCALE) == SCALE;
    hide Div;
  }

  lemma DivAtLeast(a: int, b: int, q: int)
    requires b > 0 && q * b <= a * SCALE
    ensures q <= Div(a, b)
  {
    RoundPosExact(q, b);
    RoundPosMono(q * b, a * SCALE, b);
  }

  lemma DivAtMost(a: int, b: int, q: int)
    requires b > 0 && a * SCALE <= q * b
    ensures Div(a, b) <= q
  {
    RoundPosExact(q, b);
    RoundPosMono(a * SCALE, q * b, b);
  }

  /** An index that is tilted by half is visible: it is at least one unit, times a hundred. */
  lemma TiltedIndex(a: int, b: int)
    requires 0 < b && 3 * b <= 2 * a
    ensures DirectionalIndex(b + a, a, b) >= 100
  {
    var fifth := SCALE / 5;
    assert SCALE == 5 * fifth;
    DivAtLeast(a, b + a, 3 * fifth);
    DivAtMost(a, b + a, SCALE);
    DivAtLeast(b, b + a, 0);
    DivAtMost(b, b + a, 2 * fifth);
    hide Div;
    var (p, m) := (Div(a, b + a) * 100, Div(b, b + a) * 100);
    DivAtLeast(Abs(p - m), p + m, 1);
  }

  // ---------------------------------------------------------------- the seed

  /** Indices of h up to the middle and within bounds from there on. */
  lemma {:induction false} TwoPartSum(
    g: Grain, cs: seq<Candle>, w: int, mid: int, hi: int, h: int, least: int, most: int)
    requires 1 <= w <= mid <= hi <= |cs|
    requires forall j | w <= j < mid :: Dx(g, cs, w, j) == h
    requires forall j | mid <= j < hi :: least <= Dx(g, cs, w, j) <= most
    ensures (mid - w) * h + (hi - mid) * least <= Sum(DxRange(g, cs, w, w, hi)) <= (mid - w) * h + (hi - mid) * most
    decreases hi
  {
    hide Dx, DxRange, Sum;
    if hi == w {
      NoIndices(g, cs, w);
      assert mid == w;
    } else {
      OneMoreIndex(g, cs, w, hi);
      if hi == mid {
        TwoPartSum(g, cs, w, mid - 1, hi - 1, h, least, most);
        OneMoreTime(mid - w, h);
      } else {
        TwoPartSum(g, cs, w, mid, hi - 1, h, least, most);
        OneMoreTime(hi - mid, least);
        OneMoreTime(hi - mid, most);
      }
    }
  }

  lemma NoIndices(g: Grain, cs: seq<Candle>, w: int)
    requires 1 <= w <= |cs|
    ensures Sum(DxRange(g, cs, w, w, w)) == 0
  {
  }

  lemma OneMoreIndex(g: Grain, cs: seq<Candle>, w: int, hi: int)
    requires 1 <= w < hi <= |cs|
    ensures Sum(DxRange(g, cs, w, w, hi)) == Sum(DxRange(g, cs, w, w, hi - 1)) + Dx(g, cs, w, hi - 1)
  {
    hide Dx;
    var shorter, all := DxRange(g, cs, w, w, hi - 1), DxRange(g, cs, w, w, hi);
    assert all == shorter + [Dx(g, cs, w, hi - 1)];
    assert all[..|all| - 1] == shorter;
  }

  lemma OneMoreTime(n: int, x: int)
    ensures n * x == (n - 1) * x + x
  {
  }

  lemma Seed(g: Grain, cs: seq<Candle>, w: int)
    requires 1 <= w && 2 * w <= |cs|
    ensures Adx(g, cs, w, 2 * w - 1) == RoundQuot(Sum(DxRange(g, cs, w, w, 2 * w)), w)
  {
    hide DxRange, Sum, RoundQuot;
  }

  lemma SeedsDiffer(sum: int, other: int, w: int)
    requires 1 <= w && 0 <= sum && sum + w <= other
    ensures RoundQuot(sum, w) < RoundQuot(other, w)
  {
    var q := RoundPos(sum, w);
    RoundPosNearest(sum, w);
    assert (q + 1) * w == q * w + w;
    NearestUnique(sum + w, w, q + 1);
    RoundPosMono(sum + w, other, w);
  }

  /** The seed sees the later half of the window: 0 unscaled, at least 100 a candle scaled. */
  lemma UnscaledSeed(g: Grain, w: int)
    requires 2 <= w && 3 <= g * w
    ensures |DownThenUp(w)| == 2 * w
    ensures Adx(g, DownThenUp(w), w, 2 * w - 1) == RoundQuot((w / 2) * (100 * SCALE), w)
  {
    var cs := DownThenUp(w);
    SwingMoves(2 * w, 1, Late(w), 1, 1);
    hide Moves, Swing, DownThenUp;
    forall j | w <= j < 2 * w ensures Dx(g, cs, w, j) == if j < Late(w) then 100 * SCALE else 0 {
      UnscaledLines(g, cs, w, j);
      hide Smoothed, DirectionalIndex;
      OneSidedIndex(1);
      BalancedIndex(Smoothed(g, TrueRange, cs, w, j), 1);
    }
    hide Dx, DxRange, Sum, Adx, RoundQuot;
    Seed(g, cs, w);
    TwoPartSum(g, cs, w, Late(w), 2 * w, 100 * SCALE, 0, 0);
  }

  lemma ScaledIndex(g: Grain, cs: seq<Candle>, w: int, j: int)
    requires 2 <= w <= j < |cs| <= 2 * w && Moves(cs, g * Fading(w, 0), Late(w), g * Fading(w, 0), 1)
    ensures if j < Late(w) then Dx(g, cs, w, j) == 100 * SCALE else 100 <= Dx(g, cs, w, j)
  {
    hide Smoothed, DirectionalIndex, Fading, Moves;
    ScaledLines(g, cs, w, j);
    if j < Late(w) {
      FadingDecays(g, w, j - w);
      MulPositive(g, Fading(w, j - w));
      OneSidedIndex(MinusLine(g, w, j));
    } else {
      FadingHalfway(w, j - Late(w));
      assert j - Late(w) + w / 2 == j - w;
      var (a, b) := (Fading(w, j - Late(w)), Fading(w, j - w));
      MulPositive(g, b);
      MulMono(3 * b, 2 * a, g);
      assert (3 * b) * g == 3 * (g * b) && (2 * a) * g == 2 * (g * a);
      TiltedIndex(PlusLine(g, w, j), MinusLine(g, w, j));
    }
  }

  lemma ScaledIndices(g: Grain, w: int, cs: seq<Candle>)
    requires 2 <= w && |cs| == 2 * w && Moves(cs, g * Fading(w, 0), Late(w), g * Fading(w, 0), 1)
    requires ClosesInRange(cs)
    ensures forall j | w <= j < Late(w) :: Dx(g, cs, w, j) == 100 * SCALE
    ensures forall j | Late(w) <= j < 2 * w :: 100 <= Dx(g, cs, w, j) <= 100 * SCALE
    ensures w <= Late(w) <= 2 * w
  {
    hide Dx, Fading, Moves, ClosesInRange;
    forall j | w <= j < 2 * w
      ensures if j < Late(w) then Dx(g, cs, w, j) == 100 * SCALE else 100 <= Dx(g, cs, w, j) <= 100 * SCALE
    {
      ScaledIndex(g, cs, w, j);
      DxInRange(g, cs, w, j);
    }
  }

  lemma ScaledSeed(g: Grain, w: int, cs: seq<Candle>)
    requires 2 <= w && |cs| == 2 * w && Moves(cs, g * Fading(w, 0), Late(w), g * Fading(w, 0), 1)
    requires ClosesInRange(cs)
    ensures RoundQuot((w / 2) * (100 * SCALE), w) < Adx(g, cs, w, 2 * w - 1)
  {
    hide Dx, Fading, Moves, ClosesInRange, DxRange, Sum, Adx, RoundQuot;
    ScaledIndices(g, w, cs);
    Seed(g, cs, w);
    TwoPartSum(g, cs, w, Late(w), 2 * w, 100 * SCALE, 100, 100 * SCALE);
    var sum := (w / 2) * (100 * SCALE);
    assert Late(w) - w == w / 2;
    SeedsDiffer(sum, Sum(DxRange(g, cs, w, w, 2 * w)), w);
  }

  // ---------------------------------------------------------------- the law

  /** Multiplying all prices by k / m leaves the ADX at i as it is: the prices times k, counted in parts that are
      m times smaller. */
  predicate AdxKeepsUnder(g: Grain, cs: seq<Candle>, k: int, m: Grain, w: int, i: int)
    requires 1 <= w && 0 <= i < |cs|
  {
    MulPositive(m, g);
    AdxAt(m * g, Scaled(cs, k), w, i) == AdxAt(g, cs, w, i)
  }

  lemma ScaledCloses(cs: seq<Candle>, k: int)
    requires ClosesInRange(cs) && k > 0
    ensures ClosesInRange(Scaled(cs, k))
  {
    forall i | 0 <= i < |cs| ensures CloseInRange(Scaled(cs, k)[i]) {
      assert CloseInRange(cs[i]);
      MulMono(cs[i].low, cs[i].close, k);
      MulMono(cs[i].close, cs[i].high, k);
    }
  }

  lemma LongWindowsSeeTheUnit(g: Grain, w: int)
    requires 2 <= w && 3 <= g * w
    ensures Contiguous(DownThenUp(w)) && |DownThenUp(w)| == 2 * w
    ensures g * Fading(w, 0) > 0 && !AdxKeepsUnder(g, DownThenUp(w), g * Fading(w, 0), 1, w, 2 * w - 1)
  {
    hide Fading, Contiguous, Moves, Adx, RoundQuot;
    var cs, k := DownThenUp(w), g * Fading(w, 0);
    SwingIsContiguous(2 * w, 1, Late(w), 1, 1);
    FadingDecays(g, w, 0);
    MulPositive(g, Fading(w, 0));
    ScaledSwingMoves(2 * w, 1, Late(w), 1, 1, k);
    AcceptedCloses(cs);
    ScaledCloses(cs, k);
    hide Swing, ClosesInRange, DownThenUp;
    UnscaledSeed(g, w);
    ScaledSeed(g, w, Scaled(cs, k));
  }

  /** In a window of two one unit up is gone after one step, and two units are not. */
  function OneUp(): seq<Candle> {
    Swing(4, 1, 1, 0, 2)
  }

  lemma SpikeLines(cs: seq<Candle>, k: int)
    requires |cs| == 4 && 1 <= k <= 2 && Moves(cs, k, 1, 0, 2)
    ensures Dx(1, cs, 2, 2) == 100 * SCALE && Dx(1, cs, 2, 3) == if k == 1 then 0 else 100 * SCALE
  {
    hide Moves, Smoothed, DirectionalIndex, Decay;
    AddedUp(1, cs, k, 0, 2, 2);
    FirstDecay(1, cs, k, 0, 2);
    SmallDecay();
    OneSidedIndex(k);
    OneSidedIndex(1);
    DirectionalIndexSymmetric(k, k, 0);
    DirectionalIndexSymmetric(1, 1, 0);
    BalancedIndex(0, 0);
  }

  lemma SmallDecay()
    ensures Decay(1, 0, 2) == 0 && Decay(1, 1, 2) == 0 && Decay(1, 2, 2) == 1
  {
  }

  lemma SeedOfTwo(cs: seq<Candle>)
    requires |cs| == 4
    ensures Adx(1, cs, 2, 3) == RoundQuot(Dx(1, cs, 2, 2) + Dx(1, cs, 2, 3), 2)
  {
    hide Dx, RoundQuot, DxRange, Sum;
    NoIndices(1, cs, 2);
    OneMoreIndex(1, cs, 2, 3);
    OneMoreIndex(1, cs, 2, 4);
  }

  /** Doubling every price moves this ADX from 50 to 100. */
  lemma AdxCanSeeTheUnit()
    ensures Contiguous(OneUp()) && |OneUp()| == 4
    ensures Adx(1, OneUp(), 2, 3) == 50 * SCALE && Adx(1, Scaled(OneUp(), 2), 2, 3) == 100 * SCALE
  {
    hide Contiguous, Moves, Adx, Dx;
    var cs := OneUp();
    SwingIsContiguous(4, 1, 1, 0, 2);
    SwingMoves(4, 1, 1, 0, 2);
    ScaledSwingMoves(4, 1, 1, 0, 2, 2);
    hide Swing;
    SpikeLines(cs, 1);
    SpikeLines(Scaled(cs, 2), 2);
    SeedOfTwo(cs);
    SeedOfTwo(Scaled(cs, 2));
  }

  /** In a window of one, for every grain but whole units, making parts into units moves an ADX from -100 into its
      range. */
  lemma DebtsSeeTheUnit(g: Grain)
    requires 2 <= g
    ensures |Indebted(g)| == 3 && Contiguous(Indebted(g)) && !AdxKeepsUnder(g, Indebted(g), g, 1, 1, 2)
  {
    hide Contiguous, Indebted, Adx, ClosesInRange, Scaled;
    AdxCanBeNegative(g);
    AcceptedCloses(Indebted(g));
    AdxHasNoGrain(1, g, Indebted(g), 1, 2);
    AdxInRange(1, Indebted(g), 1, 2);
  }

  lemma WindowOfOneKeeps(cs: seq<Candle>, k: int, i: int)
    requires k > 0 && 0 <= i < |cs|
    ensures AdxKeepsUnder(1, cs, k, 1, 1, i)
  {
    hide Adx, Smoothed;
    forall line: Line ensures SmoothsExactly(1, line, cs, 1, i) {
    }
    AdxHasNoUnit(1, cs, 1, i, k);
  }

  /** For every grain and window but whole units in a window of one, some whole factor changes the ADX of an
      accepted series. */
  lemma WholeFactorSeen(g: Grain, w: int) returns (cs: seq<Candle>, k: int, i: int)
    requires 1 <= w && !(g == 1 && w == 1)
    ensures Contiguous(cs) && k > 0 && 0 <= i < |cs| && !AdxKeepsUnder(g, cs, k, 1, w, i)
  {
    hide Contiguous, Fading, DownThenUp, OneUp, Adx, Indebted;
    if w == 1 {
      DebtsSeeTheUnit(g);
      cs, k, i := Indebted(g), g, 2;
    } else if g == 1 && w == 2 {
      AdxCanSeeTheUnit();
      cs, k, i := OneUp(), 2, 3;
    } else {
      MulMono(2, w, g);
      MulMono(1, g, w);
      assert w * g == g * w;
      LongWindowsSeeTheUnit(g, w);
      cs, k, i := DownThenUp(w), g * Fading(w, 0), 2 * w - 1;
    }
  }

  /** Multiplying all prices by a whole number leaves the ADX as it is, for every accepted series, factor and
      index, exactly for prices in whole units in a window of one candle. */
  lemma AdxHasNoUnitIff(g: Grain, w: int)
    requires 1 <= w
    ensures (forall cs, k, i | Contiguous(cs) && k > 0 && 0 <= i < |cs| :: AdxKeepsUnder(g, cs, k, 1, w, i))
       <==> g == 1 && w == 1
  {
    hide Contiguous, AdxKeepsUnder;
    if g == 1 && w == 1 {
      forall cs, k, i | Contiguous(cs) && k > 0 && 0 <= i < |cs| ensures AdxKeepsUnder(g, cs, k, 1, w, i) {
        WindowOfOneKeeps(cs, k, i);
      }
    } else {
      var cs, k, i := WholeFactorSeen(g, w);
      assert !AdxKeepsUnder(g, cs, k, 1, w, i);
    }
  }

  /** Over all factors, fractions included, no grain and no window keeps the ADX: for whole units in a window of
      one the factor is a half. */
  lemma EveryWindowSeesTheUnit(g: Grain, w: int) returns (cs: seq<Candle>, k: int, m: Grain, i: int)
    requires 1 <= w
    ensures Contiguous(cs) && k > 0 && 0 <= i < |cs| && !AdxKeepsUnder(g, cs, k, m, w, i)
  {
    hide Contiguous, Adx, Indebted;
    m := 1;
    if g == 1 && w == 1 {
      AdxCanBeNegative(2);
      cs, k, m, i := Indebted(2), 1, 2, 2;
      AcceptedCloses(cs);
      AdxInRange(1, cs, 1, 2);
      AdxHasNoGrain(1, 1, cs, 1, 2);
      assert Scaled(cs, 1) == cs;
    } else {
      cs, k, i := WholeFactorSeen(g, w);
    }
  }
}
