/** The integer arithmetic of C: fixed-width types, narrowing casts and division that truncates toward zero. */
module CArithmetic {
  type u8 = x: int | 0 <= x < 0x100
  type u16 = x: int | 0 <= x < 0x1_0000
  type i16 = x: int | -0x8000 <= x < 0x8000
  type i32 = x: int | -0x8000_0000 <= x < 0x8000_0000
  type u32 = x: int | 0 <= x < 0x1_0000_0000

  function ToUint16(x: int): u16 {
    x % 0x1_0000
  }

  function ToInt16(x: int): i16 {
    var m := x % 0x1_0000;
    if m < 0x8000 then m else m - 0x1_0000
  }

  predicate FitsInt16(x: int) {
    -0x8000 <= x < 0x8000
  }

  function TruncDiv(a: int, b: int): int
    requires b > 0
  {
    if a >= 0 then a / b else -((-a) / b)
  }

  predicate FitsInt32(x: int) {
    -0x8000_0000 <= x < 0x8000_0000
  }

  function Min(a: int, b: int): (r: int)
    ensures r <= a && r <= b && (r == a || r == b)
  {
    if a < b then a else b
  }

  function Max(a: int, b: int): (r: int)
    ensures r >= a && r >= b && (r == a || r == b)
  {
    if a < b then b else a
  }

  function Abs(x: int): (r: nat)
    ensures r == x || r == -x
  {
    if x > 0 then x else -x
  }

  function RealAbs(x: real): (r: real)
    ensures r >= 0.0 && (r == x || r == -x)
  {
    if x >= 0.0 then x else -x
  }

  /** The conversion of a floating-point value to an integer. */
  function TruncReal(x: real): int {
    if x >= 0.0 then x.Floor else -((-x).Floor)
  }

  /** Both casts keep the value modulo 2^16, which with the range of the result decides them. */
  lemma CastCongruent(x: int)
    ensures exists k: int :: ToUint16(x) == x - 0x1_0000 * k
    ensures exists k: int :: ToInt16(x) == x - 0x1_0000 * k
  {
    var k := x / 0x1_0000;
    assert ToUint16(x) == x - 0x1_0000 * k;
    var j := k + if x % 0x1_0000 < 0x8000 then 0 else 1;
    assert ToInt16(x) == x - 0x1_0000 * j;
  }

  /** The conversion of a floating-point value drops its fraction. */
  lemma TruncRealBounds(x: real)
    ensures x >= 0.0 ==> 0.0 <= x - TruncReal(x) as real < 1.0 && TruncReal(x) >= 0
    ensures x <= 0.0 ==> -1.0 < x - TruncReal(x) as real <= 0.0 && TruncReal(x) <= 0
  {
  }

  lemma CastLossless(x: int)
    ensures FitsInt16(x) <==> ToInt16(x) == x
  {
  }

  lemma SameResidueSameCast(x: int, y: int, k: int)
    requires x == y - 0x1_0000 * k
    ensures ToInt16(x) == ToInt16(y)
  {
  }

  /** Adding to a value that has been narrowed gives what adding to the original gives. */
  lemma NarrowThenAdd(a: int, b: int)
    ensures ToInt16(ToInt16(ToUint16(a)) + b) == ToInt16(a + b)
  {
    CastCongruent(a);
    CastCongruent(ToUint16(a));
    hide ToInt16, ToUint16;
    var j: int :| ToUint16(a) == a - 0x1_0000 * j;
    var k: int :| ToInt16(ToUint16(a)) == ToUint16(a) - 0x1_0000 * k;
    SameResidueSameCast(ToInt16(ToUint16(a)) + b, a + b, j + k);
  }

  /** The difference of two narrowed values is the narrowed difference. */
  lemma CastDifference(a: int, b: int)
    ensures ToInt16(ToInt16(a) as int - ToInt16(b)) == ToInt16(a - b)
  {
    CastCongruent(a);
    CastCongruent(b);
    hide ToInt16;
    var j: int :| ToInt16(a) == a - 0x1_0000 * j;
    var k: int :| ToInt16(b) == b - 0x1_0000 * k;
    SameResidueSameCast(ToInt16(a) as int - ToInt16(b), a - b, j - k);
  }

  lemma DivBounds(n: nat, b: int)
    requires b > 0
    ensures n / b >= 0 && n / b * b <= n < n / b * b + b
  {
    assert n == b * (n / b) + n % b;
  }

  lemma NegateProduct(q: int, b: int)
    ensures -q * b == -(q * b)
  {
  }

  lemma TruncDivOfNegative(a: int, b: int)
    requires b > 0 && a <= 0
    ensures TruncDiv(a, b) * b - b < a <= TruncDiv(a, b) * b && TruncDiv(a, b) <= 0
  {
    var q := (-a) / b;
    DivBounds(-a, b);
    assert TruncDiv(a, b) == -q;
    hide TruncDiv;
    NegateProduct(q, b);
  }

  lemma TruncDivBounds(a: int, b: int)
    requires b > 0
    ensures a >= 0 ==> TruncDiv(a, b) * b <= a < TruncDiv(a, b) * b + b && TruncDiv(a, b) >= 0
    ensures a <= 0 ==> TruncDiv(a, b) * b - b < a <= TruncDiv(a, b) * b && TruncDiv(a, b) <= 0
  {
    if a >= 0 {
      DivBounds(a, b);
    }
    if a <= 0 {
      hide TruncDiv;
      TruncDivOfNegative(a, b);
    }
  }

  lemma TruncDivExact(q: int, b: int)
    requires b > 0
    ensures TruncDiv(b * q, b) == q
  {
    var t := TruncDiv(b * q, b);
    assert b * q == q * b && (t + 1) * b == t * b + b && (q + 1) * b == q * b + b;
    TruncDivBounds(b * q, b);
    hide TruncDiv;
    if t < q {
      MulMono(t + 1, q, b);
    } else if q < t {
      MulMono(q + 1, t, b);
    }
  }

  lemma MulMono(a: int, b: int, c: int)
    requires a <= b && c >= 0
    ensures a * c <= b * c
  {
  }

  lemma MulCancel(a: int, b: int, c: int)
    requires c > 0 && a * c < b * c
    ensures a < b
  {
    if b <= a {
      MulMono(b, a, c);
    }
  }
}
