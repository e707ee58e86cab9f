/** The GPS driver's readers for numbers, and that they undo the formatter's
    printers. */
module GpsNumbers {
  import opened CTypes
  import opened Numerals

  /** The character at position i of a C string given without its NUL. */
  function CharAt(str: Text, i: nat): uint8 { if i < |str| then str[i] else 0 }

  /** The digits that a text begins with. */
  function LeadingDigits(str: Text): (d: Text)
    ensures d <= str && AllDigits(d)
    ensures |d| < |str| ==> !IsDigit(str[|d|])
  {
    if str == [] || !IsDigit(str[0]) then [] else [str[0]] + LeadingDigits(str[1..])
  }

  /** The value is collected in 32 bits and the digits are counted in 8. */
  method Atoi(str: Text) returns (count: uint8, val: uint32)
    ensures count == ToUint8(|LeadingDigits(str)|)
    ensures val == ToUint32(Value(LeadingDigits(str), 10))
  {
    ghost var digits := LeadingDigits(str);
    count, val := 0, 0;
    var i := 0;
    while IsDigit(CharAt(str, i))
      invariant 0 <= i <= |digits| && count == ToUint8(i)
      invariant val == ToUint32(Value(str[..i], 10))
      decreases |str| - i
    {
      assert i < |digits|;
      assert str[..i + 1] == str[..i] + [str[i]];
      ValueOfMore(str[..i], str[i], 10);
      TimesTenWraps(Value(str[..i], 10), str[i] - ZERO);
      val := ToUint32(val * 10 + (str[i] - ZERO));
      count := ToUint8(count + 1);
      i := i + 1;
    }
    assert i == |digits|;
    assert str[..i] == digits;
  }

  lemma TimesTenWraps(a: int, d: int)
    ensures ToUint32(ToUint32(a) * 10 + d) == ToUint32(a * 10 + d)
  {
  }

  /** Reading what PutUnsignedInt printed with zeros as filler, up to the first
      character that is no digit, gives the number back; no prefix of it is larger,
      so nothing wraps on the way.  The count is the number of characters printed
      exactly if these are fewer than 256. */
  lemma DecimalRoundTrip(v: uint32, width: int, tail: Text)
    requires tail == [] || !IsDigit(tail[0])
    ensures var t := Padded(ZERO, width, Numeral(v, 10, false));
            && LeadingDigits(t + tail) == t
            && (ToUint8(|LeadingDigits(t + tail)|) == |t| <==> Max(width, |Numeral(v, 10, false)|) < 0x100)
            && ToUint32(Value(t, 10)) == Value(t, 10) == v
            && forall k :: 0 <= k <= |t| ==> 0 <= Value(t[..k], 10) <= v
  {
    var n := Numeral(v, 10, false);
    var t := Padded(ZERO, width, n);
    DecimalIsDigits(v);
    DigitsLead(t, tail);
    ValueOfZeros(Max(0, width - |n|), n, 10);
    assert t == Repeat(ZERO, Max(0, width - |n|)) + n;
    ValueOfNumeral(v, 10, false);
    forall k | 0 <= k <= |t|
      ensures 0 <= Value(t[..k], 10) <= v
    {
      ValueOfPrefix(t, k, 10);
    }
  }

  lemma {:induction false} DigitsLead(t: Text, tail: Text)
    requires AllDigits(t) && (tail == [] || !IsDigit(tail[0]))
    ensures LeadingDigits(t + tail) == t
  {
    if t == [] {
      assert t + tail == tail;
    } else {
      DigitsLead(t[1..], tail);
      assert (t + tail)[1..] == t[1..] + tail;
    }
  }

  /** The checksum that two hexadecimal digits stand for. */
  function Checksum(high: uint8, low: uint8): uint8 { ToUint8(DigitValue(high) * 16 + DigitValue(low)) }

  /** PutHexa with width 2 and zeros as filler prints a byte as two digits, in
      either case, which stand for that byte. */
  lemma ChecksumRoundTrip(c: uint8, upper: bool)
    ensures var t := Padded(ZERO, 2, Numeral(c, 16, upper));
            |t| == 2 && Checksum(t[0], t[1]) == c
            && forall i :: 0 <= i < 2 ==> t[i] != '$' as int && t[i] != ',' as int && t[i] != '*' as int
                                          && t[i] != '\n' as int && t[i] != '\r' as int
  {
  }
}
