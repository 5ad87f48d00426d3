/** Times are nanoseconds since the zero time, and durations are 64-bit numbers of nanoseconds. */
module Times {
  const TWO63: int := 0x8000_0000_0000_0000
  const TWO64: int := 0x1_0000_0000_0000_0000

  const MINUTE: int := 60_000_000_000
  const HOUR: int := 60 * MINUTE

  /** The difference of two times, which saturates instead of wrapping around. */
  function TimeSub(a: int, b: int): int {
    if a - b >= TWO63 then TWO63 - 1 else if a - b < -TWO63 then -TWO63 else a - b
  }

  lemma RestOfRest(x: int, n: int, rest: int)
    requires x == n * MINUTE + rest
    ensures x % MINUTE == rest % MINUTE
  {
  }

  /** The longest duration is no whole number of minutes. */
  lemma LongestIsNotWhole(minutes: int)
    requires 1 <= minutes
    ensures (TWO63 - 1) % (minutes * MINUTE) != 0
  {
    var (x, d) := (TWO63 - 1, minutes * MINUTE);
    var (q, rest) := (x / d, x % d);
    assert q * d == (q * minutes) * MINUTE;
    assert x == (q * minutes) * MINUTE + rest;
    RestOfRest(x, q * minutes, rest);
  }

  /** So a difference that is a whole number of minutes has not saturated. */
  lemma WholeMinutesAreTrue(a: int, b: int, minutes: int)
    requires b < a && 1 <= minutes && TimeSub(a, b) % (minutes * MINUTE) == 0
    ensures TimeSub(a, b) == a - b
  {
    LongestIsNotWhole(minutes);
  }
}
