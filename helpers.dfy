/** packages/common/helpers: `clamp(min, max, value) = Math.max(min, Math.min(max, value))`. */
module Helpers {
  function Min(a: int, b: int): int { if a <= b then a else b }

  function Max(a: int, b: int): int { if a >= b then a else b }

  function Clamp(min: int, max: int, value: int): (r: int)
    ensures min <= max ==> min <= r <= max
    ensures min <= value <= max ==> r == value
    ensures value < min ==> r == min
    ensures min <= max < value ==> r == max
    ensures max < min ==> r == min
  {
    Max(min, Min(max, value))
  }

  /** Clamping twice is clamping once. */
  lemma ClampIdempotent(min: int, max: int, value: int)
    ensures Clamp(min, max, Clamp(min, max, value)) == Clamp(min, max, value)
  {
  }
}
