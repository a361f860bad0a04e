/** Runtime values of the language: C# `int`, i.e. 32-bit two's complement
    integers, with the arithmetic of C#'s default unchecked context. */
module Values {

  const MinInt32: int := -0x8000_0000
  const MaxInt32: int := 0x7fff_ffff
  const TwoTo32: int := 0x1_0000_0000

  type Int32 = x: int | MinInt32 <= x <= MaxInt32

  /** The errors the evaluator raises (and `Interpret` reports). */
  datatype RuntimeError =
    | UndefinedVariable(name: string)
    | DivideByZero
    | ArithmeticOverflow          // int.MinValue / -1 throws in .NET
    | UnknownOperator(op: string)

  /** Two's complement wrap-around of an unbounded integer to 32 bits. */
  function Wrap(x: int): (r: Int32)
    ensures (r - x) % TwoTo32 == 0
    ensures MinInt32 <= x <= MaxInt32 ==> r == x
  {
    (x - MinInt32) % TwoTo32 + MinInt32
  }

  function Abs(x: int): nat
  {
    if x < 0 then -x else x
  }

  /** Integer division rounding toward zero, as C#'s `/` on `int`: the
      remainder it leaves is smaller than the divisor and has the sign of
      the dividend (or is zero), which is what distinguishes truncation
      from Dafny's Euclidean `/`. */
  function TruncDiv(a: int, b: int): (q: int)
    requires b != 0
    ensures Abs(a - q * b) < Abs(b)
    ensures a - q * b == 0 || ((a - q * b < 0) == (a < 0))
  {
    var m := Abs(a) / Abs(b);
    SignedRemainder(a, b, m, Abs(a) % Abs(b));
    if (a < 0) == (b < 0) then m else -m
  }

  /** When `q` and `r` split the magnitudes (`|a| == q * |b| + r`), giving
      `q` the sign of `a * b` leaves the remainder `r` with the sign of `a`. */
  lemma SignedRemainder(a: int, b: int, q: int, r: int)
    requires b != 0 && Abs(a) == q * Abs(b) + r
    ensures var t := if (a < 0) == (b < 0) then q else -q;
            a - t * b == if a < 0 then -r else r
  {
    if b < 0 {
      NegatedProduct(q, b, Abs(b));
    } else {
      assert q * Abs(b) == q * b;
    }
    if (a < 0) != (b < 0) {
      NegatedProduct(b, q, -q);
    }
  }

  /** Negating one factor negates the product. */
  lemma NegatedProduct(x: int, y: int, z: int)
    requires z == -y
    ensures x * z == -(x * y)
  {
  }

  /** Multiplying by a non-negative number keeps an ordering. */
  lemma MulMonotone(a: int, b: int, c: int)
    requires a >= 0 && b >= c
    ensures a * b >= a * c
  {
  }

  /** Bounds on the quotient of natural numbers used below. */
  lemma QuotientBound(x: nat, d: nat)
    requires d >= 1
    ensures x / d <= x
    ensures d >= 2 ==> 2 * (x / d) <= x
  {
    var q, r := x / d, x % d;
    assert x == d * q + r && 0 <= r < d;
    if q < 0 {
      MulMonotone(d, -1, q);
      assert false;
    }
    MulMonotone(q, d, 1);
    if d >= 2 {
      MulMonotone(q, d, 2);
    }
  }

  /** Truncating division of two 32-bit values stays in range, except for the
      single case MinInt32 / -1 that .NET rejects. */
  lemma TruncDivInRange(a: Int32, b: Int32)
    requires b != 0
    ensures MinInt32 <= TruncDiv(a, b) <= MaxInt32 <==> !(a == MinInt32 && b == -1)
  {
    QuotientBound(Abs(a), Abs(b));
    if Abs(b) == 1 {
      assert Abs(a) / Abs(b) == Abs(a);
    }
  }
}
