/** Kotlin integer operators whose meaning differs from Dafny's. */
module KotlinInt {

  /** Kotlin's `a % b`: the remainder of division truncated toward zero,
      so it takes the sign of `a` (Dafny's `%` is Euclidean). On a
      non-negative left operand the two agree. */
  function Rem(a: int, b: int): (r: int)
    requires b > 0
    ensures a >= 0 ==> r == a % b
    ensures a < 0 ==> -b < r <= 0
  {
    if a >= 0 then a % b else -((-a) % b)
  }

  /** Truncation is symmetric about zero: negating the left operand
      negates the remainder. */
  lemma RemOdd(a: int, b: int)
    requires b > 0
    ensures Rem(-a, b) == -Rem(a, b)
  {
  }
}
