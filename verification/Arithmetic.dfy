/** The larger of two integers, and products and quotients of reals, one step at a time. */
module Arithmetic {

  function Max(x: int, y: int): int { if x < y then y else x }

  lemma Scaled(d: real, a: real, b: real)
    requires d >= 0.0 && a <= b
    ensures d * a <= d * b
  {
  }

  lemma StrictlyScaled(d: real, a: real, b: real)
    requires d > 0.0 && a < b
    ensures d * a < d * b
  {
  }

  lemma OneMore(x: real, n: real)
    ensures x * (n + 1.0) == x * n + x
  {
  }

  lemma AddQuotients(a: real, b: real, n: real)
    requires n != 0.0
    ensures a / n + b / n == (a + b) / n
  {
  }
}
