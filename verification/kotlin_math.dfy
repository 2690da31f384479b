/** Kotlin's integer `/` and `%` on `Int`/`Long`, which round the quotient
    toward zero (Dafny's own `/` and `%` are Euclidean). The 32/64-bit widths
    are not modelled: the values here are durations, counts and timestamps. */
module KotlinMath {

  function Abs(a: int): nat { if a < 0 then -a else a }

  function MaxInt(a: int, b: int): (m: int)
    ensures m >= a && m >= b && (m == a || m == b)
  {
    if a >= b then a else b
  }

  /** `a / b`, truncating toward zero. */
  function TruncDiv(a: int, b: int): (q: int)
    requires b != 0
    ensures Abs(q) * Abs(b) <= Abs(a) < (Abs(q) + 1) * Abs(b)
    ensures q != 0 ==> (q > 0 <==> (a > 0) == (b > 0))
  {
    var q := Abs(a) / Abs(b);
    if (a >= 0) == (b > 0) then q else -q
  }

  /** `a % b`: the remainder that goes with `TruncDiv`, with the sign of `a`. */
  function TruncRem(a: int, b: int): (r: int)
    requires b != 0
    ensures a == TruncDiv(a, b) * b + r
    ensures Abs(r) < Abs(b)
    ensures a >= 0 ==> r >= 0
    ensures a <= 0 ==> r <= 0
  {
    a - TruncDiv(a, b) * b
  }

  /** On non-negative operands the truncating and the Euclidean operators agree. */
  lemma TruncAgreesOnNatural(a: int, b: int)
    requires a >= 0 && b > 0
    ensures TruncDiv(a, b) == a / b
    ensures TruncRem(a, b) == a % b
  {
  }
}
