/** The checksum law of the NMEA receiver, said about the bits of the characters. */
module GpsChecksum {
  import opened CTypes
  import opened Numerals
  import opened GpsNumbers
  import opened Bits
  import opened Gps
  import opened GpsRuns

  /** The number of characters that have bit i set. */
  function WithBit(t: Text, i: nat): nat {
    if t == [] then 0 else WithBit(t[..|t| - 1], i) + if Bit(t[|t| - 1], i) then 1 else 0
  }

  /** One character flips the bits that it has set. */
  lemma FlipsBits(a: uint8, b: uint8, i: nat)
    ensures Bit(Xor(a, b), i) <==> Bit(a, i) != Bit(b, i)
  {
    BitOfXor(a, b, i);
  }

  lemma {:induction false} XorIsParity(body: Text, i: nat)
    ensures Bit(XorOf(body), i) <==> WithBit(body, i) % 2 == 1
  {
    if body == [] {
      BitOfZero(i);
    } else {
      XorIsParity(body[..|body| - 1], i);
      FlipsBits(XorOf(body[..|body| - 1]), body[|body| - 1], i);
    }
  }

  /** While a body is received, each bit of the held checksum tells whether an odd number
      of its characters has that bit. */
  lemma ParityIsHeld(l: Line, body: Text, high: uint8, low: uint8, i: nat)
    requires l.Valid() && IsBody(body) && !IsControl(high) && !IsControl(low)
    ensures Bit(RunLine(l, Sentence(body, high, low)).crc, i) <==> WithBit(body, i) % 2 == 1
  {
    SentenceIsHeld(l, body, high, low);
    XorIsParity(body, i);
  }

  /** A value below 256 with those parities in its eight bits is the checksum. */
  lemma ParityIsChecksum(body: Text, value: uint8)
    requires forall i: nat :: i < 8 ==> (Bit(value, i) <==> WithBit(body, i) % 2 == 1)
    ensures value == XorOf(body)
  {
    forall i: nat | i < 8
      ensures SameBit(value, 0, XorOf(body), 0, i)
    {
      XorIsParity(body, i);
    }
    assert Power(2, 8) == 0x100;
    SameBitsSameNumber(value, XorOf(body), 8);
  }

  lemma WrongBit(body: Text, value: uint8, i: nat)
    requires !(Bit(value, i) <==> WithBit(body, i) % 2 == 1)
    ensures value != XorOf(body)
  {
    XorIsParity(body, i);
  }

  /** What the characters of a hexadecimal digit stand for. */
  lemma HexDigits(c: uint8)
    ensures 48 <= c <= 57 ==> DigitValue(c) == c - 48
    ensures 65 <= c <= 70 ==> DigitValue(c) == c - 55
    ensures 97 <= c <= 102 ==> DigitValue(c) == c - 87
  {
  }

  /** Whatever the receiver has seen before: at the carriage return of a sentence it keeps
      all data if the two digits spell the parities of the bits of the characters between
      the dollar sign and the star ... */
  lemma ParityIsAccepted(s: State, body: Text, high: uint8, low: uint8, value: uint8)
    requires SafeRun(s, Sentence(body, high, low) + [CR])
    requires s.Valid() && IsBody(body) && !IsControl(high) && !IsControl(low)
    requires value == DigitValue(high) * 16 + DigitValue(low)
    requires forall i: nat :: i < 8 ==> (Bit(value, i) <==> WithBit(body, i) % 2 == 1)
    ensures Run(s, Sentence(body, high, low) + [CR]).data == Aged(Run(s, Sentence(body, high, low)).data)
  {
    ParityIsChecksum(body, value);
    ChecksumDecides(s, body, high, low);
  }

  /** ... and loses its flags and the values of the custom terms if any bit differs. */
  lemma WrongBitIsRejected(s: State, body: Text, high: uint8, low: uint8, value: uint8, i: nat)
    requires SafeRun(s, Sentence(body, high, low) + [CR])
    requires s.Valid() && IsBody(body) && !IsControl(high) && !IsControl(low)
    requires value == DigitValue(high) * 16 + DigitValue(low) && !(Bit(value, i) <==> WithBit(body, i) % 2 == 1)
    ensures Lost(Run(s, Sentence(body, high, low) + [CR]).data)
  {
    WrongBit(body, value, i);
    ChecksumDecides(s, body, high, low);
    NothingIsLeft(Aged(Run(s, Sentence(body, high, low)).data));
  }

  predicate Lost(d: Data) { d.flags == {} && forall k :: 0 <= k < |d.customs| ==> !d.customs[k].updated }

  lemma NothingIsLeft(d: Data)
    ensures Lost(d.Cleared())
  {
  }

  /** "$AB*03" is a correct sentence, and "$AB*83" is not. */
  lemma ExampleSentence()
    ensures XorOf([65, 66]) == 3 == Checksum(48, 51) != Checksum(56, 51)
  {
    XorOfTwo(65, 66);
    XorOfExample();
  }

  lemma XorOfTwo(a: uint8, b: uint8)
    ensures XorOf([a, b]) == Xor(a, b)
  {
    assert [a, b][..1] == [a] && [a][..0] == [];
    assert XorOf([a]) == Xor(XorOf([]), a) == a;
    assert XorOf([a, b]) == Xor(XorOf([a]), b);
  }

  lemma XorOfExample()
    ensures Xor(65, 66) == 3
  {
    XorByHalves(65, 66);
    XorByHalves(32, 33);
    XorByHalves(16, 16);
    XorOfSame(8);
  }

  lemma XorByHalves(a: nat, b: nat)
    ensures ExclusiveOr(a, b) == 2 * ExclusiveOr(a / 2, b / 2) + if a % 2 != b % 2 then 1 else 0
  {
  }

  lemma {:induction false} XorOfSame(n: nat)
    ensures ExclusiveOr(n, n) == 0
  {
    if n > 0 {
      XorOfSame(n / 2);
    }
  }
}
