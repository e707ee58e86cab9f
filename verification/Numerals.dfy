/** Numbers as text: the canonical numeral of a number in a base, and its value. */
module Numerals {
  import opened CTypes

  /** Text is a sequence of 8-bit characters. */
  type Text = seq<uint8>

  const ZERO: uint8 := '0' as int
  const MINUS: uint8 := '-' as int

  function Digit(d: int, upper: bool): uint8
    requires 0 <= d < 16
  {
    if d < 10 then d + ZERO else if upper then d - 10 + 'A' as int else d - 10 + 'a' as int
  }

  /** The value of a digit character, in either case; no digit counts as 0. */
  function DigitValue(c: uint8): (d: int)
    ensures 0 <= d < 16
  {
    if ZERO <= c <= '9' as int then c - ZERO
    else if 'A' as int <= c <= 'F' as int then c - 'A' as int + 10
    else if 'a' as int <= c <= 'f' as int then c - 'a' as int + 10
    else 0
  }

  /** The numeral of v without leading zeros. */
  function Numeral(v: nat, base: int, upper: bool): (t: Text)
    requires 2 <= base <= 16
    ensures |t| >= 1
  {
    if v < base then [Digit(v, upper)] else Numeral(v / base, base, upper) + [Digit(v % base, upper)]
  }

  /** The value of a sequence of digits. */
  function Value(t: Text, base: int): int {
    if t == [] then 0 else Value(t[..|t| - 1], base) * base + DigitValue(t[|t| - 1])
  }

  function Repeat(c: uint8, n: int): (t: Text)
    ensures |t| == Max(0, n)
    ensures forall i :: 0 <= i < |t| ==> t[i] == c
  {
    seq(Max(0, n), _ => c)
  }

  /** A text filled up on the left to a minimum width. */
  function Padded(fill: uint8, width: int, t: Text): (p: Text)
    ensures |p| == Max(width, |t|)
  {
    Repeat(fill, width - |t|) + t
  }

  predicate IsDigit(c: uint8) { ZERO <= c <= '9' as int }

  predicate AllDigits(t: Text) { forall i :: 0 <= i < |t| ==> IsDigit(t[i]) }

  lemma DigitRoundTrip(d: int, upper: bool)
    requires 0 <= d < 16
    ensures DigitValue(Digit(d, upper)) == d
  {
  }

  lemma ValueOfMore(t: Text, c: uint8, base: int)
    ensures Value(t + [c], base) == Value(t, base) * base + DigitValue(c)
  {
  }

  lemma SmallerQuotient(v: nat, base: int)
    requires 2 <= base <= v
    ensures 0 <= v % base < base && 1 <= v / base < v && v == v / base * base + v % base
  {
  }

  /** Reading back a printed numeral gives the number. */
  lemma {:induction false} ValueOfNumeral(v: nat, base: int, upper: bool)
    requires 2 <= base <= 16
    ensures Value(Numeral(v, base, upper), base) == v
  {
    if v < base {
      DigitRoundTrip(v, upper);
      assert Numeral(v, base, upper) == [] + [Digit(v, upper)];
      ValueOfMore([], Digit(v, upper), base);
    } else {
      var q, d := v / base, v % base;
      SmallerQuotient(v, base);
      DigitRoundTrip(d, upper);
      ValueOfNumeral(q, base, upper);
      ValueOfMore(Numeral(q, base, upper), Digit(d, upper), base);
    }
  }

  /** Numerals are canonical: no leading zero except in "0" itself. */
  lemma {:induction false} NoLeadingZero(v: nat, base: int, upper: bool)
    requires 2 <= base <= 16
    ensures Numeral(v, base, upper)[0] == ZERO <==> v == 0
  {
    if v >= base {
      var q := v / base;
      SmallerQuotient(v, base);
      NoLeadingZero(q, base, upper);
      assert Numeral(v, base, upper)[0] == Numeral(q, base, upper)[0];
    }
  }

  lemma {:induction false} DecimalIsDigits(v: nat)
    ensures AllDigits(Numeral(v, 10, false))
  {
    if v >= 10 {
      DecimalIsDigits(v / 10);
    }
  }

  /** Zeros in front do not change the value. */
  lemma {:induction false} ValueOfZeros(n: nat, t: Text, base: int)
    ensures Value(Repeat(ZERO, n) + t, base) == Value(t, base)
    decreases n + |t|
  {
    var z := Repeat(ZERO, n);
    if t != [] {
      assert (z + t)[..|z + t| - 1] == z + t[..|t| - 1];
      ValueOfZeros(n, t[..|t| - 1], base);
    } else if n > 0 {
      assert (z + t)[..n - 1] == Repeat(ZERO, n - 1) + [];
      ValueOfZeros(n - 1, [], base);
    }
  }

  lemma ScaledUp(v: int, base: int)
    requires 0 <= v && 1 <= base
    ensures v <= v * base
  {
  }

  lemma {:induction false} ValueNotNegative(t: Text, base: int)
    requires 1 <= base
    ensures 0 <= Value(t, base)
  {
    if t != [] {
      ValueNotNegative(t[..|t| - 1], base);
      ScaledUp(Value(t[..|t| - 1], base), base);
    }
  }

  /** A prefix of a digit sequence has no larger value. */
  lemma {:induction false} ValueOfPrefix(t: Text, k: nat, base: int)
    requires k <= |t| && 1 <= base
    ensures 0 <= Value(t[..k], base) <= Value(t, base)
    decreases |t|
  {
    ValueNotNegative(t, base);
    if k == |t| {
      assert t[..k] == t;
    } else {
      var front := t[..|t| - 1];
      assert front[..k] == t[..k];
      ValueOfPrefix(front, k, base);
      ScaledUp(Value(front, base), base);
    }
  }

  /** A number below base^n has at most n digits. */
  lemma {:induction false} NumeralLength(v: nat, base: int, upper: bool, n: nat)
    requires 2 <= base <= 16 && 1 <= n && v < Power(base, n)
    ensures |Numeral(v, base, upper)| <= n
  {
    if v >= base {
      SmallerQuotient(v, base);
      FewerDigits(v, base, n);
      NumeralLength(v / base, base, upper, n - 1);
    }
  }

  lemma FewerDigits(v: nat, base: int, n: nat)
    requires 2 <= base && 1 <= n && base <= v < Power(base, n)
    ensures n > 1 && v / base < Power(base, n - 1)
  {
  }

  function Power(b: int, n: nat): int { if n == 0 then 1 else b * Power(b, n - 1) }

  lemma LengthOfUint32(v: uint32, upper: bool)
    ensures |Numeral(v, 10, upper)| <= 10
    ensures |Numeral(v, 16, upper)| <= 8
  {
    assert Power(10, 3) == 1000;
    assert Power(10, 6) == 100_0000;
    assert Power(10, 9) == 10_0000_0000;
    NumeralLength(v, 10, upper, 10);
    assert Power(16, 3) == 0x1000;
    assert Power(16, 6) == 0x100_0000;
    NumeralLength(v, 16, upper, 8);
  }

  /** Printing a numeral digit by digit: the last digit goes behind the numeral of
      the quotient, which is filled up to one character less. */
  lemma LastDigit(fill: uint8, width: int, v: nat, base: int, upper: bool)
    requires 2 <= base <= 16
    ensures v >= base ==> Padded(fill, width - 1, Numeral(v / base, base, upper)) + [Digit(v % base, upper)]
                          == Padded(fill, width, Numeral(v, base, upper))
    ensures v < base ==> Repeat(fill, width - 1) + [Digit(v, upper)] == Padded(fill, width, Numeral(v, base, upper))
  {
  }
}
