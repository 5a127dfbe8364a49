/** C#'s 32-bit `int`: values and the unchecked (wrapping) arithmetic that
    the scripts use for health and weight. */
module Int32 {

  const MIN: int := -0x8000_0000
  const MAX: int := 0x7FFF_FFFF
  const MODULUS: int := 0x1_0000_0000

  type int32 = x: int | MIN <= x <= MAX

  predicate InRange(x: int) {
    MIN <= x <= MAX
  }

  /** The value an unchecked C# `int` operation yields when the exact result is `x`. */
  function Wrap(x: int): (r: int32)
    ensures InRange(x) ==> r == x
    ensures (x - r) % MODULUS == 0
    ensures x > MAX ==> r < x
    ensures x < MIN ==> r > x
  {
    (x - MIN) % MODULUS + MIN
  }
}

/** Unity's `Mathf.Clamp`, the one `Mathf` helper the scripts call, for `int` and
    `float`. `Min` and `Max` are not called by the scripts; they only serve as the
    textbook reference `ClampRealIsMinOfMax` compares the clamp with. */
module Mathf {

  function Min(a: real, b: real): real {
    if a <= b then a else b
  }

  function Max(a: real, b: real): real {
    if a <= b then b else a
  }

  /** `Mathf.Clamp(int, int, int)`: below `min` gives `min`, otherwise above
      `max` gives `max`, otherwise the value itself. */
  function Clamp(value: int, min: int, max: int): (r: int)
    ensures r == value || r == min || r == max
    ensures min <= max ==> min <= r <= max
    ensures min <= value <= max ==> r == value
    ensures value < min ==> r == min
    ensures min <= value && max < value ==> r == max
  {
    if value < min then min else if value > max then max else value
  }

  /** `Mathf.Clamp(float, float, float)` over exact reals. */
  function ClampReal(value: real, min: real, max: real): (r: real)
    ensures r == value || r == min || r == max
    ensures min <= max ==> min <= r <= max
    ensures min <= value <= max ==> r == value
    ensures value < min ==> r == min
    ensures min <= value && max < value ==> r == max
  {
    if value < min then min else if value > max then max else value
  }

  /** With ordered bounds the clamp agrees with the textbook `max(min, min(value, max))`. */
  lemma ClampRealIsMinOfMax(value: real, min: real, max: real)
    requires min <= max
    ensures ClampReal(value, min, max) == Max(min, Min(value, max))
  {
  }

  /** With ordered bounds, clamping twice is clamping once, and the clamp is monotone. */
  lemma ClampRealIdempotentMonotone(x: real, y: real, min: real, max: real)
    requires min <= max
    ensures ClampReal(ClampReal(x, min, max), min, max) == ClampReal(x, min, max)
    ensures x <= y ==> ClampReal(x, min, max) <= ClampReal(y, min, max)
  {
  }

  /** Bounds in the wrong order: anything at or above `min` lands on `max`. */
  lemma ClampInvertedBounds(value: int, min: int, max: int)
    requires max < min
    ensures Clamp(value, min, max) == (if value < min then min else max)
  {
  }
}
