/** JavaScript's `number`: a finite real, NaN or an infinity, compared the
    way the language compares them. Every comparison involving NaN is
    false, so `a <= b` is not the same as `!(b < a)`. Rounding to doubles
    is not modelled: a finite number is an exact real. */
module Numbers {

  datatype Number = Finite(x: real) | NaN | PositiveInfinity | NegativeInfinity

  const Zero: Number := Finite(0.0)

  /** The place of a non-NaN number on the extended real line. */
  function Tier(n: Number): int {
    match n
    case NegativeInfinity => 0
    case Finite(_) => 1
    case NaN => 1
    case PositiveInfinity => 2
  }

  /** JavaScript `a < b`. */
  predicate Lt(a: Number, b: Number) {
    !a.NaN? && !b.NaN? && (Tier(a) < Tier(b) || (a.Finite? && b.Finite? && a.x < b.x))
  }

  /** JavaScript `a <= b`. */
  predicate Le(a: Number, b: Number) {
    !a.NaN? && !b.NaN? && !Lt(b, a)
  }

  /** On finite numbers the comparisons are those of the reals. */
  lemma FiniteComparisons(a: real, b: real)
    ensures Lt(Finite(a), Finite(b)) <==> a < b
    ensures Le(Finite(a), Finite(b)) <==> a <= b
  {
  }

  /** NaN is unordered: it is neither below, above nor equal to anything,
      itself included. */
  lemma NaNUnordered(a: Number)
    ensures !Lt(NaN, a) && !Lt(a, NaN) && !Le(NaN, a) && !Le(a, NaN)
  {
  }

  /** Apart from NaN, `<=` is `<` or equality, and the order is total. */
  lemma LeIsLtOrEqual(a: Number, b: Number)
    requires !a.NaN? && !b.NaN?
    ensures Le(a, b) <==> Lt(a, b) || a == b
    ensures Le(a, b) || Le(b, a)
  {
  }

  lemma LeTransitive(a: Number, b: Number, c: Number)
    requires Le(a, b) && Le(b, c)
    ensures Le(a, c)
  {
  }

  /** ECMAScript `ToIntegerOrInfinity` on a finite number: the fraction is
      dropped, rounding toward zero. */
  function TruncateToInt(x: real): (n: int)
    ensures 0.0 <= x ==> 0 <= n && n as real <= x < n as real + 1.0
    ensures x < 0.0 ==> n <= 0 && n as real - 1.0 < x <= n as real
  {
    if x >= 0.0 then x.Floor else -((-x).Floor)
  }

  /** A whole number converts to itself. */
  lemma TruncateWhole(n: int)
    ensures TruncateToInt(n as real) == n
  {
  }
}
