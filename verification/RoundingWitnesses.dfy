/** Accepted candle series that are quiet but for a few moves, and what the smoothing loops make of them. */
module RoundingWitnesses {
  import opened Candles
  import opened Decimals
  import opened Indicators
  import opened SymmetryLaws
  import opened Times

  // ---------------------------------------------------------------- the series

  function SwingBar(p: nat, u: int, q: nat, v: int, j: int): Candle {
    var price := p + q + 1;
    Candle(Series("bybit", "spot", "BTCUSDT", "60"), (j + 1) * HOUR, (j + 2) * HOUR,
           price, if j == u then price + p else price, if j == v then price - q else price, price, true)
  }

  /** Hourly candles that are quiet but for a move of p up in candle u and a move of q down in candle v. */
  function Swing(n: nat, p: nat, u: int, q: nat, v: int): (r: seq<Candle>)
    ensures |r| == n && forall j | 0 <= j < n :: r[j] == SwingBar(p, u, q, v, j)
  {
    seq(n, j requires 0 <= j < n => SwingBar(p, u, q, v, j))
  }

  lemma SwingIsContiguous(n: nat, p: nat, u: int, q: nat, v: int)
    ensures Contiguous(Swing(n, p, u, q, v))
  {
    forall j | 0 <= j < n ensures ValidCandle(SwingBar(p, u, q, v, j)) {
    }
    hide ValidCandle;
  }

  function Move(p: int, u: int, q: int, v: int, j: int): Movement {
    if j == u then Movement(p, p, 0) else if j == v then Movement(q, 0, q) else Movement(0, 0, 0)
  }

  /** The only movements of the series are p up at u and q down at v. */
  predicate Moves(cs: seq<Candle>, p: int, u: int, q: int, v: int) {
    forall j | 1 <= j < |cs| :: DirectionalMovement(cs[j - 1], cs[j]) == Move(p, u, q, v, j)
  }

  lemma SwingMoves(n: nat, p: nat, u: int, q: nat, v: int)
    requires u != v
    ensures Moves(Swing(n, p, u, q, v), p, u, q, v)
  {
  }

  lemma ScaledSwingMoves(n: nat, p: nat, u: int, q: nat, v: int, k: int)
    requires u != v && k > 0
    ensures Moves(Scaled(Swing(n, p, u, q, v), k), k * p, u, k * q, v)
  {
    var cs := Swing(n, p, u, q, v);
    SwingMoves(n, p, u, q, v);
    hide DirectionalMovement, Swing;
    forall j | 1 <= j < n
      ensures DirectionalMovement(Scaled(cs, k)[j - 1], Scaled(cs, k)[j]) == Move(k * p, u, k * q, v, j)
    {
      ScaledMovement(cs[j - 1], cs[j], k);
      assert DirectionalMovement(cs[j - 1], cs[j]) == Move(p, u, q, v, j);
      assert k * 0 == 0;
    }
  }

  function Along(line: Line, m: Movement): int {
    match line
    case TrueRange => m.trueRange
    case Plus => m.plus
    case Minus => m.minus
  }

  lemma SwingStep(g: Grain, line: Line, cs: seq<Candle>, p: int, u: int, q: int, v: int, w: int, i: int)
    requires 1 <= w && 1 <= i < |cs| && Moves(cs, p, u, q, v)
    ensures Smoothed(g, line, cs, w, i)
         == Accumulate(g, Smoothed(g, line, cs, w, i - 1), Along(line, Move(p, u, q, v, i)), w, i)
  {
    hide DirectionalMovement, Accumulate;
    assert DirectionalMovement(cs[i - 1], cs[i]) == Move(p, u, q, v, i);
  }

  /** A move of p up and then one of q down, added up within the first window. */
  lemma {:induction false} AddedUp(g: Grain, cs: seq<Candle>, p: int, q: int, w: int, i: int)
    requires 2 <= i <= w && i < |cs| && Moves(cs, p, 1, q, 2)
    ensures Smoothed(g, TrueRange, cs, w, i) == p + q
    ensures Smoothed(g, Plus, cs, w, i) == p
    ensures Smoothed(g, Minus, cs, w, i) == q
    decreases i
  {
    hide Moves;
    forall line: Line
      ensures Smoothed(g, line, cs, w, 0) == 0
      ensures Smoothed(g, line, cs, w, 1) == Along(line, Move(p, 1, q, 2, 1))
      ensures Smoothed(g, line, cs, w, i) == Smoothed(g, line, cs, w, i - 1) + Along(line, Move(p, 1, q, 2, i))
    {
      SwingStep(g, line, cs, p, 1, q, 2, w, 1);
      SwingStep(g, line, cs, p, 1, q, 2, w, i);
    }
    hide Smoothed;
    if i == 2 {
    } else {
      AddedUp(g, cs, p, q, w, i - 1);
    }
  }

  /** The two moves and the step after the first window. */
  lemma FirstDecay(g: Grain, cs: seq<Candle>, p: int, q: int, w: int)
    requires 2 <= w && w + 1 < |cs| && Moves(cs, p, 1, q, 2)
    ensures Smoothed(g, TrueRange, cs, w, w + 1) == Decay(g, p + q, w)
    ensures Smoothed(g, Plus, cs, w, w + 1) == Decay(g, p, w)
    ensures Smoothed(g, Minus, cs, w, w + 1) == Decay(g, q, w)
  {
    hide Smoothed, Decay, Moves, DirectionalMovement;
    AddedUp(g, cs, p, q, w, w);
    SwingStep(g, TrueRange, cs, p, 1, q, 2, w, w + 1);
    SwingStep(g, Plus, cs, p, 1, q, 2, w, w + 1);
    SwingStep(g, Minus, cs, p, 1, q, 2, w, w + 1);
  }

  // ---------------------------------------------------------------- series drawn bar by bar

  datatype Shape = Shape(high: int, low: int, close: int)

  /** A bar whose prices are positive and in order. */
  predicate Proper(s: Shape) {
    0 < s.low <= s.close <= s.high
  }

  function DrawnBar(shapes: seq<Shape>, j: int): Candle
    requires shapes != [] && 0 <= j
  {
    var s := if j < |shapes| then shapes[j] else shapes[|shapes| - 1];
    Candle(Series("bybit", "spot", "BTCUSDT", "60"), (j + 1) * HOUR, (j + 2) * HOUR,
           s.close, s.high, s.low, s.close, true)
  }

  /** The bars one after the other, and the last one again for the rest. */
  function Drawn(n: nat, shapes: seq<Shape>): (r: seq<Candle>)
    requires shapes != []
    ensures |r| == n && forall j | 0 <= j < n :: r[j] == DrawnBar(shapes, j)
  {
    seq(n, j requires 0 <= j < n => DrawnBar(shapes, j))
  }

  lemma DrawnIsContiguous(n: nat, shapes: seq<Shape>)
    requires shapes != [] && forall k | 0 <= k < |shapes| :: Proper(shapes[k])
    ensures Contiguous(Drawn(n, shapes))
  {
    forall j | 0 <= j < n ensures ValidCandle(DrawnBar(shapes, j)) {
    }
    hide ValidCandle, Proper;
  }

  /** A wick of h, then a bar that rises x above its close, then nothing: the movement is h smaller than the
      range. */
  function Kick(n: nat, h: nat, x: nat): seq<Candle> {
    Drawn(n, [Shape(1 + h, 1, 1), Shape(1 + x, 1, 1), Shape(1, 1, 1)])
  }

  lemma KickMoves(n: nat, h: nat, x: nat)
    requires h <= x
    ensures var cs := Kick(n, h, x);
      |cs| == n && Contiguous(cs)
      && forall j | 1 <= j < n ::
        DirectionalMovement(cs[j - 1], cs[j]) == if j == 1 then Movement(x, x - h, 0) else Movement(0, 0, 0)
  {
    var shapes := [Shape(1 + h, 1, 1), Shape(1 + x, 1, 1), Shape(1, 1, 1)];
    assert forall k | 0 <= k < |shapes| :: Proper(shapes[k]);
    DrawnIsContiguous(n, shapes);
    hide Contiguous;
  }

  /** The whole move, until the first window is over. */
  lemma {:induction false} KickAddedUp(g: Grain, cs: seq<Candle>, h: int, x: int, w: int, i: int)
    requires 1 <= i <= w && i < |cs|
    requires forall j | 1 <= j < |cs| ::
      DirectionalMovement(cs[j - 1], cs[j]) == if j == 1 then Movement(x, x - h, 0) else Movement(0, 0, 0)
    ensures Smoothed(g, TrueRange, cs, w, i) == x
    ensures Smoothed(g, Plus, cs, w, i) == x - h
    ensures Smoothed(g, Minus, cs, w, i) == 0
    decreases i
  {
    hide DirectionalMovement, Decay;
    assert DirectionalMovement(cs[i - 1], cs[i]) == if i == 1 then Movement(x, x - h, 0) else Movement(0, 0, 0);
    if i == 1 {
      assert forall line: Line :: Smoothed(g, line, cs, w, 0) == 0;
    } else {
      KickAddedUp(g, cs, h, x, w, i - 1);
    }
  }

  /** One step later. */
  lemma KickDecays(g: Grain, h: nat, x: nat, w: int)
    requires 1 <= w && h <= x
    ensures var cs := Kick(w + 2, h, x);
      && |cs| == w + 2 && Contiguous(cs)
      && Smoothed(g, TrueRange, cs, w, w) == x
      && Smoothed(g, TrueRange, cs, w, w + 1) == Decay(g, x, w)
      && Smoothed(g, Plus, cs, w, w + 1) == Decay(g, x - h, w)
      && Smoothed(g, Minus, cs, w, w + 1) == Decay(g, 0, w)
  {
    var cs := Kick(w + 2, h, x);
    KickMoves(w + 2, h, x);
    hide Kick, Contiguous, DirectionalMovement, Decay;
    KickAddedUp(g, cs, h, x, w, w);
    assert DirectionalMovement(cs[w], cs[w + 1]) == Movement(0, 0, 0);
  }

  // ---------------------------------------------------------------- small totals

  lemma DecayOf(g: Grain, x: int, w: int, dropped: int)
    requires 1 <= w && 0 <= x && (2 * dropped - 1) * (g * w) <= 2 * x < (2 * dropped + 1) * (g * w)
    ensures Decay(g, x, w) == x - g * dropped
  {
    MulPositive(g, w);
    var d := g * w;
    assert (2 * dropped - 1) * d == 2 * (dropped * d) - d && (2 * dropped + 1) * d == 2 * (dropped * d) + d;
    NearestUnique(x, d, dropped);
  }

  lemma DecayZero(g: Grain, w: int)
    requires 1 <= w
    ensures Decay(g, 0, w) == 0
  {
    MulPositive(g, w);
    DecayOf(g, 0, w, 0);
  }

  /** Half a unit per candle of the window, in parts. */
  function HalfUnits(g: Grain, w: int): int {
    (g * w + 1) / 2
  }

  /** What is half a unit per candle loses a unit, and the part below it nothing. */
  lemma HalfUnitsDecay(g: Grain, w: int)
    requires 1 <= w
    ensures var x := HalfUnits(g, w);
      1 <= x && Decay(g, x, w) == x - g && Decay(g, x - 1, w) == x - 1
  {
    MulPositive(g, w);
    var x := HalfUnits(g, w);
    DecayOf(g, x, w, 1);
    DecayOf(g, x - 1, w, 0);
  }

  /** Half the movement is too small to decay, the whole range is not. */
  lemma HalfNeverDecays(w: int)
    requires 3 <= w
    ensures var half := (w - 1) / 2;
      1 <= half && Decay(1, half, w) == half && Decay(1, 2 * half, w) == 2 * half - 1
  {
    var half := (w - 1) / 2;
    DecayOf(1, half, w, 0);
    DecayOf(1, 2 * half, w, 1);
  }

  lemma PartNeverDecays(g: Grain, w: int)
    requires 1 <= w && 3 <= g * w
    ensures Decay(g, 1, w) == 1
  {
    DecayOf(g, 1, w, 0);
  }
}
