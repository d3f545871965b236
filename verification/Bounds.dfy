/** The lesser and the greater of two numbers. */
module Bounds {

  function Min(a: int, b: int): int { if a < b then a else b }
  function Max(a: int, b: int): int { if a < b then b else a }
}
