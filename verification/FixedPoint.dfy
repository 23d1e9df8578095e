/** Integer arithmetic of the paper-trading core.

  `int64` values are integers with an explicit `Fits` check.  The 128-bit
  intermediates are unbounded integers; the one place where the source may leave
  the 128-bit range without noticing is modelled with `WrapWide`. */
module FixedPoint {

  const INT64_MIN: int := -0x8000_0000_0000_0000
  const INT64_MAX: int := 0x7fff_ffff_ffff_ffff

  predicate Fits(value: int) {
    INT64_MIN <= value <= INT64_MAX
  }

  function Magnitude(value: int): nat {
    if value < 0 then -value else value
  }

  function Sign(value: int): int {
    if value > 0 then 1 else if value < 0 then -1 else 0
  }

  function Min(a: int, b: int): int {
    if a < b then a else b
  }

  function Max(a: int, b: int): int {
    if a > b then a else b
  }

  /** A conversion to `int64`, which keeps the low 64 bits. */
  function ToInt64(value: int): (r: int)
    ensures Fits(r)
    ensures Fits(value) ==> r == value
  {
    (value - INT64_MIN) % 0x1_0000_0000_0000_0000 + INT64_MIN
  }

  /** A 128-bit product whose overflow nobody checks, in two's complement. */
  function WrapWide(value: int): (r: int)
    ensures FitsWide(value) ==> r == value
  {
    (value + WIDE_LIMIT) % (2 * WIDE_LIMIT) - WIDE_LIMIT
  }

  const WIDE_LIMIT: int := 0x8000_0000_0000_0000_0000_0000_0000_0000

  predicate FitsWide(value: int) {
    -WIDE_LIMIT <= value < WIDE_LIMIT
  }

  /** The source language's division: it truncates toward zero. */
  function TruncDiv(a: int, b: int): int
    requires b > 0
  {
    if a >= 0 then a / b else -((-a) / b)
  }

  /** Truncation never increases a magnitude and loses less than one divisor. */
  lemma TruncDivBounds(a: int, b: int)
    requires b > 0
    ensures a >= 0 ==> 0 <= b * TruncDiv(a, b) <= a < b * TruncDiv(a, b) + b
    ensures a <= 0 ==> b * TruncDiv(a, b) - b < a <= b * TruncDiv(a, b) <= 0
  {
    DivBounds(Magnitude(a), b);
    DivMono(0, Magnitude(a), b);
    MulMono(b, 0, Magnitude(a) / b);
    if a < 0 {
      assert b * -((-a) / b) == -(b * ((-a) / b));
    }
  }

  function Pow10(exponent: nat): (r: nat)
    ensures r >= 1
  {
    if exponent == 0 then 1 else 10 * Pow10(exponent - 1)
  }

  method PowerOfTen(exponent: nat) returns (value: nat)
    ensures value == Pow10(exponent)
  {
    value := 1;
    for index := 0 to exponent
      invariant value == Pow10(index)
    {
      value := value * 10;
    }
  }

  // ----- division facts -----

  lemma DivBounds(a: int, d: int)
    requires d > 0
    ensures 0 <= a - d * (a / d) < d
  {
  }

  /** The quotient is the only integer within one divisor of the dividend. */
  lemma DivUnique(a: int, d: int, q: int)
    requires d > 0
    requires 0 <= a - d * q < d
    ensures a / d == q
  {
    DivBounds(a, d);
    var k := a / d - q;
    assert d * k == d * (a / d) - d * q;
    if k >= 1 {
      assert d * k >= d * 1 by { MulMono(d, 1, k); }
    } else if k <= -1 {
      assert d * k <= d * -1 by { MulMono(d, k, -1); }
    }
  }

  lemma MulMono(d: int, a: int, b: int)
    requires d >= 0 && a <= b
    ensures d * a <= d * b
  {
  }

  lemma DivMono(a: int, b: int, d: int)
    requires d > 0 && a <= b
    ensures a / d <= b / d
  {
    DivBounds(a, d);
    DivBounds(b, d);
    if a / d > b / d {
      MulMono(d, b / d + 1, a / d);
    }
  }

  /** Splitting a dividend loses at most one unit. */
  lemma DivSplit(a: int, b: int, d: int)
    requires d > 0
    ensures a / d + b / d <= (a + b) / d <= a / d + b / d + 1
  {
    DivBounds(a, d);
    DivBounds(b, d);
    var q := a / d + b / d;
    assert d * q == d * (a / d) + d * (b / d);
    assert d * (q + 1) == d * q + d;
    if a + b - d * q < d {
      DivUnique(a + b, d, q);
    } else {
      DivUnique(a + b, d, q + 1);
    }
  }

  lemma DivDiv(a: int, b: int, c: int)
    requires b > 0 && c > 0
    ensures b * c > 0
    ensures (a / b) / c == a / (b * c)
  {
    var m := a / b;
    var q := m / c;
    DivBounds(a, b);
    DivBounds(m, c);
    MulMono(b, 0, m - c * q);
    MulMono(b, m - c * q, c - 1);
    assert b * (m - c * q) == b * m - (b * c) * q;
    assert b * (c - 1) == b * c - b;
    assert b * c > 0 by { MulMono(b, 1, c); }
    DivUnique(a, b * c, q);
  }

  lemma {:induction false} Pow10Add(a: nat, b: nat)
    ensures Pow10(a + b) == Pow10(a) * Pow10(b)
  {
    if a > 0 {
      Pow10Add(a - 1, b);
    }
  }

  /** Dividing in two chunks of a power of ten is dividing once. */
  lemma TruncDivChunks(value: int, a: nat, b: nat)
    ensures TruncDiv(TruncDiv(value, Pow10(a)), Pow10(b)) == TruncDiv(value, Pow10(a + b))
  {
    hide Pow10;
    Pow10Add(a, b);
    var m := Magnitude(value);
    DivDiv(m, Pow10(a), Pow10(b));
    DivMono(0, m, Pow10(a));
    DivUnique(0, Pow10(b), 0);
  }
}
