/** Minimum and maximum. */
module Numbers {
  function Min(a: int, b: int): int { if a < b then a else b }

  function Max(a: int, b: int): int { if a >= b then a else b }
}
