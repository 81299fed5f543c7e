/** Conversions and comparisons that several parts of the libraries have in common. */
module Numbers {
  /** Truncation towards zero. */
  function Truncated(x: real): int {
    if x < 0.0 then -((-x).Floor) else x.Floor
  }

  function Min(a: int, b: int): int { if a < b then a else b }

  function Max(a: int, b: int): int { if a < b then b else a }
}
