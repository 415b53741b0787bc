/** Signed 64-bit integer arithmetic as Rust performs it: the bounds of `i64`,
    the `saturating_*` operations, and `/` and `%`, which round toward zero
    (Dafny's own `/` and `%` are Euclidean and differ for negative operands). */
module Numerics {

  import opened Results

  const I64_MIN: int := -0x8000_0000_0000_0000
  const I64_MAX: int := 0x7FFF_FFFF_FFFF_FFFF

  /** A value of Rust's `i64`. */
  type I64 = x: int | I64_MIN <= x <= I64_MAX

  /** The largest value of Rust's `usize` on a 64-bit target. */
  const USIZE_MAX: int := 0xFFFF_FFFF_FFFF_FFFF

  function Abs(x: int): nat
  {
    if x < 0 then -x else x
  }

  /** The distance between two integers. */
  function Dist(x: int, y: int): nat
  {
    Abs(x - y)
  }

  /** The exact value `x` moved to the nearest bound of `i64` when it lies
      outside; this is what every `saturating_*` operation returns. */
  function Saturate(x: int): (r: I64)
    ensures I64_MIN <= x <= I64_MAX ==> r == x
    ensures forall y: I64 :: Dist(r, x) <= Dist(y, x)
  {
    if x < I64_MIN then I64_MIN
    else if x > I64_MAX then I64_MAX
    else x
  }

  /** Rust's integer `/`: the quotient rounded toward zero. */
  function TruncDiv(a: int, b: int): int
    requires b != 0
  {
    var q := Abs(a) / Abs(b);
    if (a < 0) == (b < 0) then q else -q
  }

  /** Rust's integer `%`: the remainder whose sign follows the dividend. */
  function TruncRem(a: int, b: int): int
    requires b != 0
  {
    var r := Abs(a) % Abs(b);
    if a < 0 then -r else r
  }

  /** Truncating division and remainder form a division identity in which
      the quotient rounds toward zero and the remainder takes the dividend's
      sign, unlike Euclidean division. */
  lemma {:induction false} TruncDivision(a: int, b: int)
    requires b != 0
    ensures TruncDiv(a, b) * b + TruncRem(a, b) == a
    ensures Abs(TruncRem(a, b)) < Abs(b)
    ensures TruncRem(a, b) == 0 || ((TruncRem(a, b) < 0) == (a < 0))
    ensures Abs(TruncDiv(a, b)) * Abs(b) <= Abs(a)
  {
    var aa: int, bb: int := Abs(a), Abs(b);
    var q: int, r: int := aa / bb, aa % bb;
    var qb: int := q * bb;
    assert aa == qb + r && 0 <= r < bb && 0 <= q;
    var d := TruncDiv(a, b);
    assert d == if (a < 0) == (b < 0) then q else -q;
    assert TruncRem(a, b) == if a < 0 then -r else r;
    MulSigns(q, bb);
    if b < 0 {
      assert b == -bb;
      assert d * b == if a < 0 then -qb else qb;
    } else {
      assert b == bb;
      assert d * b == if a < 0 then -qb else qb;
    }
  }

  /** How negation moves through a product. */
  lemma MulSigns(x: int, y: int)
    ensures (-x) * y == -(x * y) && x * (-y) == -(x * y) && (-x) * (-y) == x * y
  {
  }

  lemma MulMonotone(x: nat, y: int, z: int)
    requires y <= z
    ensures x * y <= x * z
  {
  }

  /** The quotient rounded toward zero is never farther from zero than the
      dividend, so it leaves `i64` only for `I64_MIN / -1`. */
  lemma TruncDivInRange(a: I64, b: I64)
    requires b != 0
    ensures a == I64_MIN && b == -1 ==> TruncDiv(a, b) == I64_MAX + 1
    ensures !(a == I64_MIN && b == -1) ==> I64_MIN <= TruncDiv(a, b) <= I64_MAX
  {
    var t := Abs(TruncDiv(a, b));
    if b == 1 || b == -1 {
      assert Abs(a) / Abs(b) == Abs(a);
    } else {
      TruncDivision(a, b);
      MulMonotone(t, 2, Abs(b));
      assert t * 2 <= Abs(a);
    }
  }

  /** Rust's `i64::saturating_div`: the truncating quotient, except that
      `I64_MIN / -1` gives `I64_MAX`. A zero divisor panics in the source. */
  function SaturatingDiv(a: I64, b: I64): (r: I64)
    requires b != 0
    ensures a == I64_MIN && b == -1 ==> r == I64_MAX
    ensures !(a == I64_MIN && b == -1) ==> r == TruncDiv(a, b)
  {
    TruncDivInRange(a, b);
    Saturate(TruncDiv(a, b))
  }

  /** Rust's `i64 % i64`, which panics for a zero divisor and for
      `I64_MIN % -1`. */
  function RemI64(a: I64, b: I64): (r: I64)
    requires b != 0 && !(a == I64_MIN && b == -1)
    ensures Abs(r) < Abs(b)
    ensures r == 0 || ((r < 0) == (a < 0))
    ensures exists q: I64 :: q * b + r == a
  {
    TruncDivision(a, b);
    TruncDivInRange(a, b);
    var q: I64 := TruncDiv(a, b);
    assert q * b + TruncRem(a, b) == a;
    TruncRem(a, b)
  }

  // ----- Decimal rendering, as `i64::to_string` writes it -----

  function DigitChar(d: nat): (c: char)
    requires d < 10
  {
    "0123456789"[d]
  }

  predicate IsDigit(c: char)
  {
    '0' <= c <= '9'
  }

  predicate AllDigits(s: string)
  {
    forall k :: 0 <= k < |s| ==> IsDigit(s[k])
  }

  function DigitValue(c: char): nat
    requires IsDigit(c)
  {
    (c as int) - ('0' as int)
  }

  /** The decimal digits of `n`, most significant first, with no leading zero. */
  function Digits(n: nat): (s: string)
    ensures |s| >= 1 && AllDigits(s)
    ensures |s| > 1 ==> s[0] != '0'
  {
    if n < 10 then [DigitChar(n)] else Digits(n / 10) + [DigitChar(n % 10)]
  }

  /** The value a string of decimal digits denotes. */
  function DigitsValue(s: string): nat
    requires AllDigits(s)
  {
    if s == [] then 0 else 10 * DigitsValue(s[..|s| - 1]) + DigitValue(s[|s| - 1])
  }

  lemma {:induction false} DigitsRoundTrip(n: nat)
    ensures DigitsValue(Digits(n)) == n
  {
    var s := Digits(n);
    if n < 10 {
      assert DigitValue(DigitChar(n)) == n;
    } else {
      var high, low := Digits(n / 10), n % 10;
      assert s == high + [DigitChar(low)];
      assert s[..|s| - 1] == high && s[|s| - 1] == DigitChar(low);
      assert DigitValue(DigitChar(low)) == low;
      DigitsRoundTrip(n / 10);
      assert n == 10 * (n / 10) + low;
    }
  }

  /** `i64::to_string`: an optional minus sign followed by the digits. */
  function Decimal(i: int): string
  {
    if i < 0 then "-" + Digits(-i) else Digits(i)
  }

  /** Reads back what `Decimal` writes: an optional minus sign, then one or
      more digits. */
  function ReadDecimal(s: string): (r: Option<int>)
  {
    if |s| >= 2 && s[0] == '-' && AllDigits(s[1..]) then
      var magnitude: int := DigitsValue(s[1..]);
      Some(-magnitude)
    else if |s| >= 1 && AllDigits(s) then
      Some(DigitsValue(s))
    else
      None
  }

  /** The rendering of an integer is read back as the same integer. */
  lemma DecimalRoundTrip(i: int)
    ensures ReadDecimal(Decimal(i)) == Some(i)
  {
    var s := Decimal(i);
    if i < 0 {
      var digits := Digits(-i);
      assert s == "-" + digits;
      assert s[1..] == digits;
      DigitsRoundTrip(-i);
    } else {
      assert s == Digits(i);
      assert IsDigit(s[0]);
      DigitsRoundTrip(i);
    }
  }
}
