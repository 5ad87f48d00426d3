/** The decimal arithmetic the program computes with.

    Addition, subtraction and multiplication of decimals are exact. A quotient is rounded to 16 places,
    and a tie goes away from zero. Two views are given: `Round16` and `Quo` on arbitrary real numbers, and
    `RoundTo` on integers, for values that are whole numbers of 10^-16 / g. The grain g is any whole number, so
    that values of any number of decimals have one. `QuoOnGrid`, `QuoByInteger` and `RoundProductOnGrid` say
    that the two views agree. */
module Decimals {
  const SCALE: int := 10_000_000_000_000_000
  const UNITS: real := 10_000_000_000_000_000.0

  function Abs(x: int): int {
    if x < 0 then -x else x
  }

  function Max(x: int, y: int): int {
    if x > y then x else y
  }

  function AbsReal(x: real): real {
    if x < 0.0 then -x else x
  }

  // ---------------------------------------------------------------- integers

  function RoundPos(n: int, d: int): int
    requires d > 0
  {
    if n >= 0 then (2 * n + d) / (2 * d) else -((d - 2 * n) / (2 * d))
  }

  /** The integer nearest to n / d, ties away from zero. */
  function RoundQuot(n: int, d: int): int
    requires d != 0
  {
    if d > 0 then RoundPos(n, d) else RoundPos(-n, -d)
  }

  lemma MulMono(a: int, b: int, c: int)
    requires a <= b && 0 <= c
    ensures a * c <= b * c
  {
  }

  lemma QuotientBounds(a: int, b: int)
    requires b > 0
    ensures b * (a / b) <= a < b * (a / b) + b
  {
  }

  lemma QuotientUnique(a: int, b: int, q: int)
    requires b > 0
    requires b * q <= a < b * q + b
    ensures a / b == q
  {
    QuotientBounds(a, b);
    if q < a / b {
      MulMono(q + 1, a / b, b);
    } else if a / b < q {
      MulMono(a / b + 1, q, b);
    }
  }

  /** What rounding to nearest means, as inequalities without a division. */
  predicate Nearest(n: int, d: int, q: int) {
    if n >= 0 then 2 * (q * d) <= 2 * n + d < 2 * (q * d) + 2 * d
    else 2 * (q * d) - 2 * d < 2 * n - d <= 2 * (q * d)
  }

  lemma RoundPosNearest(n: int, d: int)
    requires d > 0
    ensures Nearest(n, d, RoundPos(n, d))
  {
    var q := RoundPos(n, d);
    assert 2 * d * q == 2 * (q * d);
    if n >= 0 {
      QuotientBounds(2 * n + d, 2 * d);
    } else {
      QuotientBounds(d - 2 * n, 2 * d);
      assert 2 * d * (-q) == -(2 * d * q);
    }
  }

  lemma NearestUnique(n: int, d: int, q: int)
    requires d > 0 && Nearest(n, d, q)
    ensures RoundPos(n, d) == q
  {
    assert 2 * d * q == 2 * (q * d);
    if n >= 0 {
      QuotientUnique(2 * n + d, 2 * d, q);
    } else {
      assert 2 * d * (-q) == -(2 * d * q);
      QuotientUnique(d - 2 * n, 2 * d, -q);
    }
  }

  lemma RoundPosError(n: int, d: int)
    requires d > 0
    ensures -d <= 2 * (RoundPos(n, d) * d) - 2 * n <= d
  {
    RoundPosNearest(n, d);
  }

  lemma RoundPosMono(m: int, n: int, d: int)
    requires d > 0 && m <= n
    ensures RoundPos(m, d) <= RoundPos(n, d)
  {
    var p, q := RoundPos(m, d), RoundPos(n, d);
    RoundPosNearest(m, d);
    RoundPosNearest(n, d);
    assert (q + 1) * d == q * d + d;
    if q < p {
      MulMono(q + 1, p, d);
    }
  }

  lemma RoundPosExact(k: int, d: int)
    requires d > 0
    ensures RoundPos(k * d, d) == k
  {
    NearestUnique(k * d, d, k);
  }

  lemma RoundPosNegate(n: int, d: int)
    requires d > 0
    ensures RoundPos(-n, d) == -RoundPos(n, d)
  {
    if n == 0 {
      RoundPosExact(0, d);
    }
  }

  lemma ScaleBounds(p: int, n: int, d: int, k: int)
    requires k > 0 && 2 * p <= 2 * n + d < 2 * p + 2 * d
    ensures 2 * (p * k) <= 2 * (k * n) + k * d < 2 * (p * k) + 2 * (k * d)
  {
    var below, above := 2 * n + d - 2 * p, 2 * p + 2 * d - (2 * n + d);
    MulMono(0, below, k);
    MulMono(1, above, k);
    assert below * k == 2 * (k * n) + k * d - 2 * (p * k);
    assert above * k == 2 * (p * k) + 2 * (k * d) - (2 * (k * n) + k * d);
  }

  /** A rounded quotient depends on the ratio only. */
  lemma RoundPosCancel(n: int, d: int, k: int)
    requires d > 0 && k > 0
    ensures k * d > 0 && RoundPos(k * n, k * d) == RoundPos(n, d)
    decreases n < 0
  {
    MulMono(1, d, k);
    if n >= 0 {
      var q := RoundPos(n, d);
      RoundPosNearest(n, d);
      ScaleBounds(q * d, n, d, k);
      assert q * (k * d) == (q * d) * k;
      MulMono(0, n, k);
      NearestUnique(k * n, k * d, q);
    } else {
      RoundPosCancel(-n, d, k);
      RoundPosNegate(-n, d);
      RoundPosNegate(k * -n, k * d);
      assert -(k * -n) == k * n;
    }
  }

  /** A value between two multiples of the divisor rounds between the two factors. */
  lemma RoundPosHull(n: int, d: int, lo: int, hi: int)
    requires d > 0 && lo * d <= n <= hi * d
    ensures lo <= RoundPos(n, d) <= hi
  {
    RoundPosExact(lo, d);
    RoundPosExact(hi, d);
    RoundPosMono(lo * d, n, d);
    RoundPosMono(n, hi * d, d);
  }

  // ---------------------------------------------------------------- finer grains

  /** A unit of 10^-16 is made of this many of the smallest parts in use. */
  type Grain = g: int | 1 <= g witness 1

  /** The whole unit nearest to n / d, counted in parts. */
  function RoundTo(g: Grain, n: int, d: int): int
    requires d > 0
  {
    MulPositive(g, d);
    g * RoundPos(n, g * d)
  }

  lemma MulPositive(a: int, b: int)
    requires a > 0 && b > 0
    ensures a * b > 0
  {
  }

  lemma RoundToError(g: Grain, n: int, d: int)
    requires d > 0
    ensures -(g * d) <= 2 * (RoundTo(g, n, d) * d) - 2 * n <= g * d
  {
    MulPositive(g, d);
    var q := RoundPos(n, g * d);
    RoundPosError(n, g * d);
    assert q * (g * d) == (g * q) * d;
  }

  lemma RoundToMono(g: Grain, m: int, n: int, d: int)
    requires d > 0 && m <= n
    ensures RoundTo(g, m, d) <= RoundTo(g, n, d)
  {
    MulPositive(g, d);
    RoundPosMono(m, n, g * d);
    MulMono(RoundPos(m, g * d), RoundPos(n, g * d), g);
  }

  /** A multiple of whole units divides exactly. */
  lemma RoundToExact(g: Grain, k: int, d: int)
    requires d > 0
    ensures RoundTo(g, (k * g) * d, d) == k * g
  {
    MulPositive(g, d);
    assert (k * g) * d == k * (g * d);
    RoundPosExact(k, g * d);
  }

  /** A value between two multiples of whole units rounds between the two. */
  lemma RoundToHull(g: Grain, n: int, d: int, lo: int, hi: int)
    requires d > 0 && (lo * g) * d <= n <= (hi * g) * d
    ensures lo * g <= RoundTo(g, n, d) <= hi * g
  {
    RoundToExact(g, lo, d);
    RoundToExact(g, hi, d);
    RoundToMono(g, (lo * g) * d, n, d);
    RoundToMono(g, n, (hi * g) * d, d);
  }

  /** Splitting every part into m changes nothing. */
  lemma RoundToRefines(g: Grain, m: Grain, n: int, d: int)
    requires d > 0
    ensures m * g >= 1 && RoundTo(m * g, m * n, d) == m * RoundTo(g, n, d)
  {
    MulPositive(g, d);
    MulPositive(m, g);
    assert (m * g) * d == m * (g * d);
    RoundPosCancel(n, g * d, m);
    var q := RoundPos(n, g * d);
    assert (m * g) * q == m * (g * q);
  }

  /** Without finer parts this is rounding to a whole number. */
  lemma RoundToUnit(n: int, d: int)
    requires d > 0
    ensures RoundTo(1, n, d) == RoundPos(n, d)
  {
  }

  lemma RoundToNegate(g: Grain, n: int, d: int)
    requires d > 0
    ensures RoundTo(g, -n, d) == -RoundTo(g, n, d)
  {
    MulPositive(g, d);
    RoundPosNegate(n, g * d);
  }

  /** Rounded quotients of non-negative values are no further apart than the values. */
  lemma RoundPosLipschitz(m: int, n: int, w: int)
    requires w > 0 && 0 <= m <= n
    ensures RoundPos(n, w) <= RoundPos(m, w) + (n - m)
  {
    var p, step := RoundPos(m, w), n - m;
    RoundPosNearest(m, w);
    RoundPosNearest(n, w);
    MulMono(1, w, step);
    assert (p + step + 1) * w == p * w + step * w + w;
    if p + step < RoundPos(n, w) {
      MulMono(p + step + 1, RoundPos(n, w), w);
    }
  }

  /** Taking away one rounded part in w keeps the order of non-negative values and stays non-negative. */
  lemma DecayMono(m: int, n: int, w: int)
    requires w > 0 && 0 <= m <= n
    ensures 0 <= m - RoundPos(m, w) <= n - RoundPos(n, w)
  {
    MulMono(1, w, m);
    RoundPosHull(m, w, 0, m);
    RoundPosLipschitz(m, n, w);
  }

  // ---------------------------------------------------------------- real numbers

  function RoundReal(x: real): int {
    if x >= 0.0 then (x + 0.5).Floor else -((0.5 - x).Floor)
  }

  /** The multiple of 10^-16 nearest to x, ties away from zero. */
  function Round16(x: real): real {
    RoundReal(x * UNITS) as real / UNITS
  }

  /** Multiplication of decimals is exact. It has a name of its own so that a proof can leave it closed. */
  function Mul(x: real, y: real): real {
    x * y
  }

  /** Division as the decimal library does it. */
  function Quo(x: real, y: real): real
    requires y != 0.0
  {
    Round16(x / y)
  }

  lemma Round16Mono(x: real, y: real)
    requires x <= y
    ensures Round16(x) <= Round16(y)
  {
    assert RoundReal(x * UNITS) <= RoundReal(y * UNITS);
  }

  lemma Round16Fixes(k: int)
    ensures Round16(k as real / UNITS) == k as real / UNITS
  {
    assert (k as real / UNITS) * UNITS == k as real;
    assert RoundReal(k as real) == k;
  }

  lemma Round16Range(x: real)
    requires 0.0 <= x <= 1.0
    ensures 0.0 <= Round16(x) <= 1.0
  {
    Round16Fixes(0);
    Round16Fixes(SCALE);
    Round16Mono(0.0, x);
    Round16Mono(x, 1.0);
  }

  lemma RatioMono(x: real, y: real, d: real)
    requires x <= y && d > 0.0
    ensures x / d <= y / d
  {
    assert y / d - x / d == (y - x) / d;
  }

  lemma RatioIs(x: real, d: real, q: real)
    requires d != 0.0 && q * d == x
    ensures x / d == q
  {
    assert (x / d - q) * d == 0.0;
  }

  lemma QuoSelf(x: real)
    requires x != 0.0
    ensures Quo(x, x) == 1.0
  {
    RatioIs(x, x, 1.0);
    Round16Fixes(SCALE);
  }

  lemma QuoMono(x: real, y: real, d: real)
    requires x <= y && d > 0.0
    ensures Quo(x, d) <= Quo(y, d)
  {
    RatioMono(x, y, d);
    Round16Mono(x / d, y / d);
  }

  lemma RealMulMono(x: real, y: real, e: real)
    requires e > 0.0
    ensures x <= y ==> x * e <= y * e
    ensures x < y ==> x * e < y * e
  {
  }

  lemma CastProduct(q: int, d: int)
    ensures (q * d) as real == (q as real) * (d as real)
  {
  }

  lemma HalfUpScaled(q: real, x: real, e: real, p: real, y: real)
    requires e > 0.0 && q <= x + 0.5 < q + 1.0
    requires p == q * e && y == x * e
    ensures 2.0 * p <= 2.0 * y + e < 2.0 * p + 2.0 * e
  {
    var below, above := x + 0.5 - q, q + 0.5 - x;
    RealMulMono(0.0, below, e);
    RealMulMono(0.0, above, e);
    assert below * e == y + 0.5 * e - p;
    assert above * e == p + 0.5 * e - y;
  }

  lemma HalfUp(n: int, d: int, x: real, q: int)
    requires d > 0 && x * (d as real) == n as real
    requires q as real <= x + 0.5 < q as real + 1.0
    ensures 2 * (q * d) <= 2 * n + d < 2 * (q * d) + 2 * d
  {
    CastProduct(q, d);
    HalfUpScaled(q as real, x, d as real, (q * d) as real, n as real);
  }

  /** The rounded integer quotient is the rounded real quotient. */
  lemma RoundRealOfQuotient(n: int, d: int)
    requires d > 0
    ensures RoundReal(n as real / d as real) == RoundPos(n, d)
  {
    var x, e := n as real / d as real, d as real;
    var q := RoundReal(x);
    assert x * e == n as real;
    if n >= 0 {
      RatioMono(0.0, n as real, e);
      HalfUp(n, d, x, q);
    } else {
      assert x < 0.0 by {
        if x >= 0.0 {
          RealMulMono(0.0, x, e);
        }
      }
      assert (-x) * e == (-n) as real;
      HalfUp(-n, d, -x, -q);
      assert (-q) * d == -(q * d);
    }
    NearestUnique(n, d, q);
  }

  /** The decimal that is a number of parts. */
  function OnGrid(g: Grain, parts: int): real {
    parts as real / (UNITS * g as real)
  }

  /** Dividing two values of one grain: what `RoundQuot(a * SCALE, b)` computes, in units. */
  lemma QuoOnGrid(g: Grain, a: int, b: int)
    requires b > 0
    ensures OnGrid(g, b) != 0.0
    ensures Quo(OnGrid(g, a), OnGrid(g, b)) == OnGrid(1, RoundQuot(a * SCALE, b))
  {
    var part := UNITS * g as real;
    var (x, y) := (OnGrid(g, a), OnGrid(g, b));
    assert x * part == a as real && y * part == b as real;
    assert y > 0.0 by {
      if y <= 0.0 {
        RealMulMono(y, 0.0, part);
      }
    }
    var z := (a * SCALE) as real / b as real;
    assert (x / y) * UNITS == z by {
      assert (x / y) * y == x;
      assert ((x / y) * UNITS) * (y * part) == ((x / y) * y) * part * UNITS;
      RatioIs((a * SCALE) as real, b as real, (x / y) * UNITS);
    }
    RoundRealOfQuotient(a * SCALE, b);
  }

  lemma UnitsInParts(g: Grain, q: int)
    ensures OnGrid(g, g * q) == q as real / UNITS
  {
    CastProduct(g, q);
    var (e, r) := (g as real, q as real / UNITS);
    assert r * (UNITS * e) == (r * UNITS) * e;
    RatioIs((g * q) as real, UNITS * e, r);
  }

  /** Dividing a value by an integer: what `RoundTo(g, a, n)` computes. */
  lemma QuoByInteger(g: Grain, a: int, n: int)
    requires n > 0
    ensures Quo(OnGrid(g, a), n as real) == OnGrid(g, RoundTo(g, a, n))
  {
    MulPositive(g, n);
    var (e, d, x) := (g as real, n as real, OnGrid(g, a));
    var y := x / d;
    assert x * (UNITS * e) == a as real && y * d == x;
    CastProduct(g, n);
    assert (y * UNITS) * (e * d) == (y * d) * (UNITS * e);
    RatioIs(a as real, (g * n) as real, y * UNITS);
    RoundRealOfQuotient(a, g * n);
    UnitsInParts(g, RoundPos(a, g * n));
  }

  lemma PartsOf(g: Grain, a: int)
    ensures OnGrid(g, a) * (UNITS * g as real) == a as real
  {
  }

  lemma WeightedRatio(g: Grain, a: int, s: int, b: int, t: int)
    ensures g * SCALE > 0
    ensures ((OnGrid(g, a) * OnGrid(1, s) + OnGrid(g, b) * OnGrid(1, t)) * UNITS) * ((g * SCALE) as real)
         == (a * s + b * t) as real
  {
    PartsOf(g, a);
    PartsOf(g, b);
    PartsOf(1, s);
    PartsOf(1, t);
    CastProduct(g, SCALE);
    CastProduct(a, s);
    CastProduct(b, t);
    hide OnGrid;
    WeightedParts(OnGrid(g, a), OnGrid(1, s), OnGrid(g, b), OnGrid(1, t), g as real, UNITS);
  }

  /** Rounding a weighted sum of values: what `RoundTo(g, a * s + b * t, SCALE)` computes, with weights s and t
      in units. */
  lemma RoundProductOnGrid(g: Grain, a: int, s: int, b: int, t: int)
    ensures Round16(OnGrid(g, a) * OnGrid(1, s) + OnGrid(g, b) * OnGrid(1, t))
         == OnGrid(g, RoundTo(g, a * s + b * t, SCALE))
  {
    WeightedRatio(g, a, s, b, t);
    var (x, n) := (OnGrid(g, a) * OnGrid(1, s) + OnGrid(g, b) * OnGrid(1, t), a * s + b * t);
    RoundedRatio(g, x, n);
  }

  lemma RoundedRatio(g: Grain, x: real, n: int)
    requires g * SCALE > 0 && (x * UNITS) * ((g * SCALE) as real) == n as real
    ensures Round16(x) == OnGrid(g, RoundTo(g, n, SCALE))
  {
    RatioIs(n as real, (g * SCALE) as real, x * UNITS);
    hide OnGrid, RoundPos, RoundReal;
    RoundRealOfQuotient(n, g * SCALE);
    UnitsInParts(g, RoundPos(n, g * SCALE));
  }

  lemma WeightedParts(x: real, u: real, y: real, v: real, e: real, c: real)
    ensures ((x * u + y * v) * c) * (e * c) == (x * (c * e)) * (u * c) + (y * (c * e)) * (v * c)
  {
    assert ((x * u) * c) * (e * c) == (x * (c * e)) * (u * c);
    assert ((y * v) * c) * (e * c) == (y * (c * e)) * (v * c);
    assert (x * u + y * v) * c == (x * u) * c + (y * v) * c;
  }
}
