/** Facts about C's `int` that the models rely on: its 32-bit range and the
    C99 division and remainder operators, which truncate toward zero (Dafny's
    `/` and `%` are Euclidean, so they differ on negative operands). */
module CInt {

  const INT_MIN: int := -0x8000_0000
  const INT_MAX: int := 0x7FFF_FFFF

  /** The value is representable in a 32-bit two's-complement `int`. */
  predicate IsInt32(x: int) {
    INT_MIN <= x <= INT_MAX
  }

  function Abs(x: int): (r: nat)
    ensures r == x || r == -x
  {
    if x < 0 then -x else x
  }

  /** -1, 0 or 1 according to the sign of x. */
  function Sign(x: int): (r: int)
    ensures x == r * Abs(x)
    ensures x != 0 ==> r * r == 1
  {
    if x < 0 then -1 else if x == 0 then 0 else 1
  }

  /** C's `a / b` for a positive divisor (the only kind the programs use):
      the algebraic quotient with any fractional part discarded, so it
      rounds toward zero where Dafny's `/` rounds down. */
  function Div(a: int, b: int): (q: int)
    requires b > 0
    ensures Abs(q) == Abs(a) / b
    ensures if a < 0 then q <= 0 else q >= 0
  {
    var m: int := Abs(a) / b;
    assert m >= 0;
    if a < 0 then -m else m
  }

  /** C's `a % b` for a positive divisor: what is left after C's truncating
      division, so that `(a / b) * b + a % b == a` holds as in C99, and it
      takes the sign of `a`. */
  function Rem(a: int, b: int): (r: int)
    requires b > 0
    ensures Div(a, b) * b + r == a
    ensures Abs(r) < b
    ensures Abs(r) == Abs(a) % b
    ensures if a < 0 then r <= 0 else r >= 0
  {
    var n: int, m: int := Abs(a) / b, Abs(a) % b;
    assert Abs(a) == n * b + m && 0 <= m < b;
    assert Div(a, b) * b == if a < 0 then -(n * b) else n * b;
    if a < 0 then -m else m
  }

  /** Dividing by 10 in C divides the magnitude and keeps the sign. */
  lemma DivRemTen(t: int)
    ensures Div(t, 10) == if t < 0 then -(Abs(t) / 10) else Abs(t) / 10
    ensures Rem(t, 10) == if t < 0 then -(Abs(t) % 10) else Abs(t) % 10
  {
  }
}
