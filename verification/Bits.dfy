/** Words as numbers: bits, bitwise operations and packed fields. */
module Bits {
  import opened Numerals

  function Bit(n: nat, i: nat): bool { if i == 0 then n % 2 == 1 else Bit(n / 2, i - 1) }

  function And(a: nat, b: nat): nat {
    if a == 0 || b == 0 then 0 else 2 * And(a / 2, b / 2) + (if a % 2 == 1 && b % 2 == 1 then 1 else 0)
  }

  function Or(a: nat, b: nat): nat {
    if a == 0 then b else if b == 0 then a
    else 2 * Or(a / 2, b / 2) + (if a % 2 == 1 || b % 2 == 1 then 1 else 0)
  }

  /** a & ~b. */
  function Clear(a: nat, b: nat): nat {
    if a == 0 then 0 else if b == 0 then a
    else 2 * Clear(a / 2, b / 2) + (if a % 2 == 1 && b % 2 == 0 then 1 else 0)
  }

  /** a << n, for a result that fits the word. */
  function Shl(a: nat, n: nat): nat { if n == 0 then a else 2 * Shl(a, n - 1) }

  lemma {:induction false} BitOfZero(i: nat)
    ensures !Bit(0, i)
  {
    if i > 0 {
      BitOfZero(i - 1);
    }
  }

  lemma {:induction false} BitOfOr(a: nat, b: nat, i: nat)
    ensures Bit(Or(a, b), i) == (Bit(a, i) || Bit(b, i))
  {
    if a == 0 || b == 0 {
      BitOfZero(i);
    } else if i > 0 {
      BitOfOr(a / 2, b / 2, i - 1);
    }
  }

  lemma {:induction false} BitOfClear(a: nat, b: nat, i: nat)
    ensures Bit(Clear(a, b), i) == (Bit(a, i) && !Bit(b, i))
  {
    if a == 0 || b == 0 {
      BitOfZero(i);
    } else if i > 0 {
      BitOfClear(a / 2, b / 2, i - 1);
    }
  }

  lemma {:induction false} BitOfShl(a: nat, n: nat, i: nat)
    ensures Bit(Shl(a, n), i) == (i >= n && Bit(a, i - n))
  {
    if n > 0 && i > 0 {
      BitOfShl(a, n - 1, i - 1);
    }
  }

  /** Or keeps to a word's width. */
  lemma {:induction false} Bounded(a: nat, b: nat, n: nat)
    requires a < Power(2, n) && b < Power(2, n)
    ensures Or(a, b) < Power(2, n)
  {
    if n > 0 {
      Bounded(a / 2, b / 2, n - 1);
    }
  }

  lemma {:induction false} ShlBounded(a: nat, n: nat, k: nat)
    requires a < Power(2, k)
    ensures Shl(a, n) < Power(2, k + n)
  {
    if n > 0 {
      ShlBounded(a, n - 1, k);
    }
  }

  // --- Fields ---

  /** The number in `width` bits from bit `low` on. */
  function Field(r: nat, low: nat, width: nat): nat
    decreases width
  {
    if width == 0 then 0 else 2 * Field(r, low + 1, width - 1) + (if Bit(r, low) then 1 else 0)
  }

  function Ones(width: nat): nat { if width == 0 then 0 else 2 * Ones(width - 1) + 1 }

  /** (r & ~(ones << low)) | (v << low). */
  function WithField(r: nat, low: nat, width: nat, v: nat): nat { Or(Clear(r, Shl(Ones(width), low)), Shl(v, low)) }

  lemma {:induction false} BitOfOnes(width: nat, i: nat)
    ensures Bit(Ones(width), i) == (i < width)
  {
    if width == 0 {
      BitOfZero(i);
    } else if i > 0 {
      BitOfOnes(width - 1, i - 1);
    }
  }

  lemma {:induction false} HighBits(v: nat, width: nat, i: nat)
    requires v < Power(2, width) && i >= width
    ensures !Bit(v, i)
  {
    if width == 0 {
      BitOfZero(i);
    } else {
      HighBits(v / 2, width - 1, i - 1);
    }
  }

  lemma BitOfWith(r: nat, low: nat, width: nat, v: nat, i: nat)
    requires v < Power(2, width)
    ensures Bit(WithField(r, low, width, v), i) == if low <= i < low + width then Bit(v, i - low) else Bit(r, i)
  {
    BitOfOr(Clear(r, Shl(Ones(width), low)), Shl(v, low), i);
    BitOfClear(r, Shl(Ones(width), low), i);
    BitOfShl(Ones(width), low, i);
    BitOfShl(v, low, i);
    if i >= low {
      BitOfOnes(width, i - low);
      if i >= low + width {
        HighBits(v, width, i - low);
      }
    }
  }

  predicate SameBit(r: nat, low: nat, s: nat, high: nat, i: nat) { Bit(r, low + i) == Bit(s, high + i) }

  lemma {:induction false} SameBitsSameField(r: nat, low: nat, s: nat, high: nat, width: nat)
    requires forall i: nat :: i < width ==> SameBit(r, low, s, high, i)
    ensures Field(r, low, width) == Field(s, high, width)
    decreases width
  {
    if width > 0 {
      assert SameBit(r, low, s, high, 0);
      var l, h := low + 1, high + 1;
      forall i: nat | i < width - 1
        ensures SameBit(r, l, s, h, i)
      {
        assert SameBit(r, low, s, high, i + 1);
      }
      SameBitsSameField(r, l, s, h, width - 1);
    }
  }

  /** All of a number below 2^width is in its lowest field. */
  lemma {:induction false} WholeField(v: nat, width: nat)
    requires v < Power(2, width)
    ensures Field(v, 0, width) == v
  {
    if width > 0 {
      WholeField(v / 2, width - 1);
      assert forall i: nat :: SameBit(v, 1, v / 2, 0, i);
      SameBitsSameField(v, 1, v / 2, 0, width - 1);
    }
  }

  /** Writing one field of a word: that field has the value, all others are kept. */
  lemma FieldOfWith(r: nat, low: nat, width: nat, v: nat, other: nat)
    requires v < Power(2, width) && (other == low || other + width <= low || low + width <= other)
    ensures Field(WithField(r, low, width, v), other, width) == if other == low then v else Field(r, other, width)
  {
    var s := WithField(r, low, width, v);
    forall i: nat | i < width
      ensures other == low ==> SameBit(s, low, v, 0, i)
      ensures other != low ==> SameBit(s, other, r, other, i)
    {
      BitOfWith(r, low, width, v, other + i);
    }
    if other == low {
      SameBitsSameField(s, low, v, 0, width);
      WholeField(v, width);
    } else {
      SameBitsSameField(s, other, r, other, width);
    }
  }

  /** Clearing or setting all bits of a field is writing it. */
  lemma FieldOfClear(r: nat, low: nat, width: nat, other: nat)
    requires other == low || other + width <= low || low + width <= other
    ensures Field(Clear(r, Shl(Ones(width), low)), other, width) == if other == low then 0 else Field(r, other, width)
  {
    PowerGrows(0, width);
    FieldOfWith(r, low, width, 0, other);
    ShlOfZero(low);
  }

  lemma {:induction false} ShlOfZero(n: nat)
    ensures Shl(0, n) == 0
  {
    if n > 0 {
      ShlOfZero(n - 1);
    }
  }

  lemma FieldOfSet(r: nat, low: nat, width: nat, other: nat)
    requires other == low || other + width <= low || low + width <= other
    ensures Field(Or(r, Shl(Ones(width), low)), other, width)
            == if other == low then Ones(width) else Field(r, other, width)
  {
    var s, o := Or(r, Shl(Ones(width), low)), Ones(width);
    forall i: nat | i < width
      ensures other == low ==> SameBit(s, low, o, 0, i)
      ensures other != low ==> SameBit(s, other, r, other, i)
    {
      BitOfOr(r, Shl(o, low), other + i);
      BitOfShl(o, low, other + i);
      BitOfOnes(width, i);
      if other + i >= low {
        BitOfOnes(width, other + i - low);
      }
    }
    if other == low {
      SameBitsSameField(s, low, o, 0, width);
      OnesBounded(width);
      WholeField(o, width);
    } else {
      SameBitsSameField(s, other, r, other, width);
    }
  }

  lemma {:induction false} OnesBounded(width: nat)
    ensures Ones(width) < Power(2, width)
  {
    if width > 0 {
      OnesBounded(width - 1);
    }
  }

  // --- As arithmetic ---

  lemma DivideTwice(n: nat, p: nat)
    requires 0 < p
    ensures n / 2 / p == n / (2 * p)
    ensures 2 * (n / 2 % p) + n % 2 == n % (2 * p)
  {
    var q, r := n / 2 / p, n / 2 % p;
    assert n == q * (2 * p) + (2 * r + n % 2) by {
      assert n / 2 == q * p + r;
      assert 2 * (q * p) == q * (2 * p);
    }
    QuotientIsUnique(n, 2 * p, q, 2 * r + n % 2);
  }

  lemma QuotientIsUnique(n: nat, d: nat, q: nat, r: nat)
    requires n == q * d + r && r < d
    ensures n / d == q && n % d == r
  {
    assert (n / d - q) * d == r - n % d;
    Multiples(n / d - q, d);
  }

  lemma Multiples(e: int, d: nat)
    ensures e >= 1 ==> e * d >= d
    ensures e <= -1 ==> e * d <= -(d as int)
  {
    if e >= 1 {
      assert (e - 1) * d >= 0;
    } else if e <= -1 {
      assert (-1 - e) * d >= 0;
    }
  }

  /** Bit i of a number is the one that 2^i stands for. */
  lemma {:induction false} BitIsDigit(n: nat, i: nat)
    ensures Power(2, i) > 0 && (Bit(n, i) <==> n / Power(2, i) % 2 == 1)
  {
    PowerGrows(0, i);
    if i > 0 {
      PowerGrows(0, i - 1);
      BitIsDigit(n / 2, i - 1);
      DivideTwice(n, Power(2, i - 1));
    }
  }

  lemma {:induction false} FieldOfHalf(r: nat, low: nat, width: nat)
    ensures Field(r, low + 1, width) == Field(r / 2, low, width)
    decreases width
  {
    if width > 0 {
      FieldOfHalf(r, low + 1, width - 1);
    }
  }

  lemma {:induction false} LowField(r: nat, width: nat)
    ensures Power(2, width) > 0 && Field(r, 0, width) == r % Power(2, width)
  {
    PowerGrows(0, width);
    if width > 0 {
      PowerGrows(0, width - 1);
      FieldOfHalf(r, 0, width - 1);
      LowField(r / 2, width - 1);
      DivideTwice(r, Power(2, width - 1));
    }
  }

  /** A field is the number shifted and cut. */
  lemma {:induction false} FieldIsQuotient(r: nat, low: nat, width: nat)
    ensures Power(2, low) > 0 && Power(2, width) > 0
    ensures Field(r, low, width) == r / Power(2, low) % Power(2, width)
  {
    PowerGrows(0, low);
    PowerGrows(0, width);
    if low == 0 {
      LowField(r, width);
    } else {
      PowerGrows(0, low - 1);
      FieldOfHalf(r, low - 1, width);
      FieldIsQuotient(r / 2, low - 1, width);
      DivideTwice(r, Power(2, low - 1));
    }
  }

  // --- Exclusive or ---

  function ExclusiveOr(a: nat, b: nat): nat {
    if a == 0 then b else if b == 0 then a
    else 2 * ExclusiveOr(a / 2, b / 2) + (if a % 2 != b % 2 then 1 else 0)
  }

  lemma {:induction false} BitOfXor(a: nat, b: nat, i: nat)
    ensures Bit(ExclusiveOr(a, b), i) <==> Bit(a, i) != Bit(b, i)
  {
    if a == 0 || b == 0 {
      BitOfZero(i);
    } else if i > 0 {
      BitOfXor(a / 2, b / 2, i - 1);
    }
  }

  lemma {:induction false} XorBounded(a: nat, b: nat, n: nat)
    requires a < Power(2, n) && b < Power(2, n)
    ensures ExclusiveOr(a, b) < Power(2, n)
  {
    if n > 0 {
      XorBounded(a / 2, b / 2, n - 1);
    }
  }

  /** A number is determined by its bits. */
  lemma SameBitsSameNumber(a: nat, b: nat, n: nat)
    requires a < Power(2, n) && b < Power(2, n) && forall i: nat :: i < n ==> SameBit(a, 0, b, 0, i)
    ensures a == b
  {
    WholeField(a, n);
    WholeField(b, n);
    SameBitsSameField(a, 0, b, 0, n);
  }

  // --- Single bits ---

  /** mask & (1 << i) tells whether bit i is set. */
  lemma AndOfOneBit(mask: nat, i: nat)
    ensures And(mask, Shl(1, i)) != 0 <==> Bit(mask, i)
  {
  }

  lemma {:induction false} ShlOfOne(i: nat)
    ensures Shl(1, i) == Power(2, i)
  {
    if i > 0 {
      ShlOfOne(i - 1);
    }
  }

  lemma {:induction false} AndOfItself(n: nat)
    ensures And(n, n) == n
  {
    if n > 0 {
      AndOfItself(n / 2);
    }
  }

  /** n & (n - 1) is zero just for the powers of two. */
  lemma {:induction false} SingleBit(n: nat) returns (i: nat)
    requires n > 0 && And(n, n - 1) == 0
    ensures n == Power(2, i)
  {
    OddIsSingle(n);
    if n == 1 {
      i := 0;
    } else {
      assert (n - 1) / 2 == n / 2 - 1;
      var j := SingleBit(n / 2);
      i := j + 1;
    }
  }

  lemma OddIsSingle(n: nat)
    requires n > 0
    ensures n % 2 == 1 ==> And(n, n - 1) == n - 1
  {
    AndOfItself(n / 2);
    assert n % 2 == 1 ==> (n - 1) / 2 == n / 2;
  }

  lemma {:induction false} PowerIsSingle(i: nat)
    ensures Power(2, i) > 0 && And(Power(2, i), Power(2, i) - 1) == 0
  {
    if i > 0 {
      PowerIsSingle(i - 1);
      var p := Power(2, i - 1);
      assert (2 * p - 1) / 2 == p - 1;
    }
  }

  lemma WithFieldBounded(r: nat, low: nat, width: nat, v: nat)
    requires r < Power(2, 32) && v < Power(2, width) && low + width <= 32
    ensures WithField(r, low, width, v) < Power(2, 32)
  {
    ShlBounded(v, low, width);
    PowerGrows(low + width, 32);
    ClearBounded(r, Shl(Ones(width), low));
    Bounded(Clear(r, Shl(Ones(width), low)), Shl(v, low), 32);
  }

  lemma {:induction false} ClearBounded(a: nat, b: nat)
    ensures Clear(a, b) <= a
  {
    if a > 0 && b > 0 {
      ClearBounded(a / 2, b / 2);
    }
  }

  lemma {:induction false} PowerGrows(m: nat, n: nat)
    requires m <= n
    ensures 0 < Power(2, m) <= Power(2, n)
    decreases n
  {
    if m < n {
      PowerGrows(m, n - 1);
    } else if m > 0 {
      PowerGrows(m - 1, n - 1);
    }
  }
}
