/** Go's built-in `min` and `max` on two integers. */
module Ints {
  function Min(a: int, b: int): int { if a < b then a else b }

  function Max(a: int, b: int): int { if a < b then b else a }
}
