/** Instants and durations, both counted in whole nanoseconds.

    An instant is the number of nanoseconds since the zero time, so every source second
    starts at a multiple of SECOND. */
module Instants {
  type Time = int
  type Duration = int

  const SECOND: Duration := 1_000_000_000
  const MINUTE: Duration := 60 * SECOND
  const HOUR: Duration := 3600 * SECOND

  /** Rounds an instant down to a multiple of d; a non-positive d leaves it unchanged. */
  function Truncate(t: Time, d: Duration): (r: Time)
    ensures d <= 0 ==> r == t
    ensures d > 0 ==> r <= t < r + d
  {
    if d <= 0 then t else t - t % d
  }

  function FloorSecond(t: Time): (r: Time)
    ensures r <= t < r + SECOND && r % SECOND == 0
  {
    Truncate(t, SECOND)
  }

  predicate WholeSecond(t: Time) { t % SECOND == 0 }

  function Min(a: int, b: int): int { if a <= b then a else b }

  function Max(a: int, b: int): int { if a >= b then a else b }
}

/** Facts about multiples of a positive divisor. */
module Multiples {
  import opened Instants

  lemma MulMonotone(a: int, b: int, d: int)
    requires d > 0 && a <= b
    ensures a * d <= b * d
  {
  }

  lemma DivUnique(n: int, d: int, q: int)
    requires d > 0 && q * d <= n < (q + 1) * d
    ensures n / d == q
  {
    var p := n / d;
    assert n == p * d + n % d;
    if p > q {
      MulMonotone(q + 1, p, d);
    } else if p < q {
      MulMonotone(p + 1, q, d);
    }
  }

  lemma DivMonotone(a: int, b: int, d: int)
    requires d > 0 && a <= b
    ensures a / d <= b / d
  {
    assert b == b / d * d + b % d && a == a / d * d + a % d;
    if a / d > b / d {
      MulMonotone(b / d + 1, a / d, d);
    }
  }

  lemma TruncateIsMultiple(t: Time, d: Duration)
    requires d > 0
    ensures Truncate(t, d) == t / d * d
    ensures Truncate(t, d) / d == t / d
    ensures (Truncate(t, d) - 1) / d == t / d - 1
  {
    var k := t / d;
    assert t == k * d + t % d;
    DivUnique(k * d, d, k);
    DivUnique(k * d - 1, d, k - 1);
  }

  lemma MultipleHasNoRemainder(k: int, d: int)
    requires d > 0
    ensures k * d % d == 0
  {
    DivUnique(k * d, d, k);
    assert k * d == k * d / d * d + k * d % d;
  }
}
