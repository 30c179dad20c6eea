/** JavaScript's smaller, larger, truncated and clamped numbers. */
module Numbers {
  import opened Options

  function Min(a: int, b: int): int { if a <= b then a else b }

  function Max(a: int, b: int): int { if a >= b then a else b }

  function MinReal(a: real, b: real): real { if a <= b then a else b }

  function MaxReal(a: real, b: real): real { if a >= b then a else b }

  function Truncate(x: real): int { if x >= 0.0 then x.Floor else -((-x).Floor) }

  /** A requested count clamped into 1 to `max`; `None` is a number that is not finite. */
  function ClampCount(count: Option<real>, max: int, fallback: int): (n: int)
    requires max >= 1
    ensures count.None? ==> n == fallback
    ensures count.Some? ==> 1 <= n <= max
    ensures count.Some? && 1.0 <= count.value <= max as real ==> n as real <= count.value < n as real + 1.0
    ensures count.Some? && count.value < 1.0 ==> n == 1
    ensures count.Some? && count.value > max as real ==> n == max
  {
    if count.None? then fallback else Min(max, Max(1, Truncate(count.value)))
  }

  lemma ClampMonotone(x: real, y: real, max: int, fallback: int)
    requires max >= 1 && x <= y
    ensures 1 <= ClampCount(Some(x), max, fallback) <= ClampCount(Some(y), max, fallback) <= max
  {
  }
}
