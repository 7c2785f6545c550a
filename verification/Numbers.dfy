/** Bounds of integers. */
module Numbers {
  function Min(a: int, b: int): int {
    if a <= b then a else b
  }

  function Max(a: int, b: int): int {
    if a <= b then b else a
  }

  /** A score between 0 and 100. */
  function Clamp(score: int): int {
    Max(0, Min(100, score))
  }
}
