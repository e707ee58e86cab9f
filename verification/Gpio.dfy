/** The pins of a port: configuration registers that hold one field per pin. */
module Gpio {
  import opened CTypes
  import opened Numerals
  import opened Bits

  const PINS := 16

  /** The width of a pin's field in a register. */
  type Width = w: nat | w == 1 || w == 2 || w == 4 witness 1

  /** A 32-bit register has eight fields of four bits, and one field for every pin
      otherwise. */
  function Fields(width: Width): nat { if width == 4 then 8 else PINS }

  function PinField(r: uint32, width: Width, pin: nat): nat { Field(r, width * pin, width) }

  /** The field of a pin is the number in `width` bits from bit width * pin on. */
  lemma PinFieldIsQuotient(r: uint32, width: Width, pin: nat)
    ensures Power(2, width * pin) > 0
    ensures PinField(r, width, pin)
         == r / Power(2, width * pin) % (if width == 1 then 2 else if width == 2 then 4 else 16)
  {
    FieldIsQuotient(r, width * pin, width);
    assert Power(2, 2) == 4 && Power(2, 4) == 16;
  }

  /** mask & (1 << pin). */
  predicate Has(mask: uint16, pin: nat)
    ensures Has(mask, pin) <==> Bit(mask, pin)
  {
    AndOfOneBit(mask, pin);
    And(mask, Shl(1, pin)) != 0
  }

  /** One field has the value v, the others are kept. */
  predicate IsWrite(r: uint32, s: uint32, width: Width, pin: nat, v: nat) {
    forall q: nat :: q < Fields(width) ==> PinField(s, width, q) == if q == pin then v else PinField(r, width, q)
  }

  lemma PowerOf32()
    ensures Power(2, 32) == 0x1_0000_0000
  {
    assert Power(2, 8) == 0x100;
    assert Power(2, 16) == 0x1_0000;
    assert Power(2, 24) == 0x100_0000;
  }

  /** (r & ~(ones << low)) | (v << low). */
  method WriteField(r: uint32, width: Width, pin: nat, v: nat) returns (s: uint32)
    requires pin < Fields(width) && v < Power(2, width)
    ensures IsWrite(r, s, width, pin, v)
  {
    PowerOf32();
    WithFieldBounded(r, width * pin, width, v);
    s := WithField(r, width * pin, width, v);
    forall q: nat | q < Fields(width)
      ensures PinField(s, width, q) == if q == pin then v else PinField(r, width, q)
    {
      FieldOfWith(r, width * pin, width, v, width * q);
    }
  }

  /** r & ~(ones << low). */
  method ClearField(r: uint32, width: Width, pin: nat) returns (s: uint32)
    requires pin < Fields(width)
    ensures IsWrite(r, s, width, pin, 0)
  {
    ClearBounded(r, Shl(Ones(width), width * pin));
    s := Clear(r, Shl(Ones(width), width * pin));
    forall q: nat | q < Fields(width)
      ensures PinField(s, width, q) == if q == pin then 0 else PinField(r, width, q)
    {
      FieldOfClear(r, width * pin, width, width * q);
    }
  }

  /** r | (ones << low). */
  method FillField(r: uint32, width: Width, pin: nat) returns (s: uint32)
    requires pin < Fields(width)
    ensures IsWrite(r, s, width, pin, Ones(width))
  {
    PowerOf32();
    OnesBounded(width);
    ShlBounded(Ones(width), width * pin, width);
    PowerGrows(width + width * pin, 32);
    Bounded(r, Shl(Ones(width), width * pin), 32);
    s := Or(r, Shl(Ones(width), width * pin));
    forall q: nat | q < Fields(width)
      ensures PinField(s, width, q) == if q == pin then Ones(width) else PinField(r, width, q)
    {
      FieldOfSet(r, width * pin, width, width * q);
    }
  }

  /** The fields of the masked pins below `end` have become v, all others are kept. */
  predicate Written(before: uint32, after: uint32, width: Width, mask: uint16, end: nat, v: nat) {
    forall q: nat :: q < 16 ==>
      PinField(after, width, q) == if q < end && Has(mask, q) then v else PinField(before, width, q)
  }

  /** The modes of a pin. */
  type Mode = m: nat | m < 4
  const IN: Mode := 0
  const OUT: Mode := 1
  const AF: Mode := 2

  /** The value for the output type field, the pull resistors and the speed. */
  datatype Options = Options(outputType: nat, pull: nat, speed: nat) {
    predicate Valid() { outputType < 2 && pull < 4 && speed < 4 }
  }

  /** The configuration registers of a port, which is number `source` of the ports. */
  class Port {
    const source: uint8
    var moder: uint32
    var otyper: uint32
    var ospeedr: uint32
    var pupdr: uint32
    const afr: array<uint32>

    ghost predicate Valid() { afr.Length == 2 && source < 11 }

    constructor (source: uint8)
      requires source < 11
      ensures Valid() && this.source == source && fresh(afr)
      ensures moder == otyper == ospeedr == pupdr == afr[0] == afr[1] == 0
    {
      this.source := source;
      moder, otyper, ospeedr, pupdr := 0, 0, 0, 0;
      afr := new uint32[2](_ => 0);
    }

    /** The alternate function of a pin: a nibble in one of two registers. */
    ghost function Alternate(pin: nat): nat
      requires Valid() && pin < PINS
      reads afr
    {
      PinField(afr[pin / 8], 4, pin % 8)
    }

    /** ... its value being shifted and cut. */
    lemma AlternateIsNibble(pin: nat)
      requires Valid() && pin < 16
      ensures Power(2, 4 * (pin % 8)) > 0
      ensures Alternate(pin) == (if pin < 8 then afr[0] else afr[1]) / Power(2, 4 * (pin % 8)) % 16
    {
      PinFieldIsQuotient(afr[pin / 8], 4, pin % 8);
    }

    method SetPinAsInput(mask: uint16)
      modifies this`moder
      ensures Written(old(moder), moder, 2, mask, 16, 0)
    {
      for i := 0 to PINS
        invariant Written(old(moder), moder, 2, mask, i, 0)
      {
        if Has(mask, i) {
          moder := ClearField(moder, 2, i);
        }
      }
    }

    method SetPinAsOutput(mask: uint16)
      modifies this`moder
      ensures Written(old(moder), moder, 2, mask, 16, 1)
    {
      for i := 0 to PINS
        invariant Written(old(moder), moder, 2, mask, i, 1)
      {
        if Has(mask, i) {
          moder := WriteField(moder, 2, i, 1);
        }
      }
    }

    method SetPinAsAnalog(mask: uint16)
      modifies this`moder
      ensures Written(old(moder), moder, 2, mask, 16, 3)
    {
      for i := 0 to PINS
        invariant Written(old(moder), moder, 2, mask, i, 3)
      {
        if Has(mask, i) {
          moder := FillField(moder, 2, i);
        }
      }
    }

    /** The body of the configuration loop. */
    method InitPin(pin: nat, mode: Mode, o: Options)
      requires pin < PINS && o.Valid()
      modifies this`moder, this`otyper, this`ospeedr, this`pupdr
      ensures IsWrite(old(moder), moder, 2, pin, mode) && IsWrite(old(pupdr), pupdr, 2, pin, o.pull)
      ensures if 1 <= mode <= 2
              then IsWrite(old(otyper), otyper, 1, pin, o.outputType) && IsWrite(old(ospeedr), ospeedr, 2, pin, o.speed)
              else otyper == old(otyper) && ospeedr == old(ospeedr)
    {
      moder := WriteField(moder, 2, pin, mode);
      if mode == OUT || mode == AF {
        otyper := WriteField(otyper, 1, pin, o.outputType);
        ospeedr := WriteField(ospeedr, 2, pin, o.speed);
      }
      pupdr := WriteField(pupdr, 2, pin, o.pull);
    }

    /** Configures the masked pins.  Output type and speed are for outputs only. */
    method Init(mask: uint16, mode: Mode, o: Options)
      requires o.Valid()
      modifies this`moder, this`otyper, this`ospeedr, this`pupdr
      ensures Written(old(moder), moder, 2, mask, 16, mode) && Written(old(pupdr), pupdr, 2, mask, 16, o.pull)
      ensures if 1 <= mode <= 2
              then Written(old(otyper), otyper, 1, mask, 16, o.outputType)
                   && Written(old(ospeedr), ospeedr, 2, mask, 16, o.speed)
              else otyper == old(otyper) && ospeedr == old(ospeedr)
    {
      for pin := 0 to PINS
        invariant Written(old(moder), moder, 2, mask, pin, mode) && Written(old(pupdr), pupdr, 2, mask, pin, o.pull)
        invariant if mode == OUT || mode == AF
                  then Written(old(otyper), otyper, 1, mask, pin, o.outputType)
                       && Written(old(ospeedr), ospeedr, 2, mask, pin, o.speed)
                  else otyper == old(otyper) && ospeedr == old(ospeedr)
      {
        if Has(mask, pin) {
          InitPin(pin, mode, o);
        }
      }
    }

    method SetAlternates(mask: uint16, alternate: nat)
      requires Valid() && alternate < 16
      modifies afr
      ensures forall q: nat :: q < 16 ==> Alternate(q) == if Has(mask, q) then alternate else old(Alternate(q))
    {
      for pin := 0 to PINS
        invariant forall q: nat :: q < PINS ==>
                    Alternate(q) == if q < pin && Has(mask, q) then alternate else old(Alternate(q))
      {
        if Has(mask, pin) {
          afr[pin / 8] := WriteField(afr[pin / 8], 4, pin % 8, alternate);
        }
      }
    }

    method InitAlternate(mask: uint16, o: Options, alternate: nat)
      requires Valid() && o.Valid() && alternate < 16
      modifies this`moder, this`otyper, this`ospeedr, this`pupdr, afr
      ensures forall q: nat :: q < 16 ==> Alternate(q) == if Has(mask, q) then alternate else old(Alternate(q))
      ensures Written(old(moder), moder, 2, mask, 16, 2) && Written(old(pupdr), pupdr, 2, mask, 16, o.pull)
      ensures Written(old(otyper), otyper, 1, mask, 16, o.outputType)
      ensures Written(old(ospeedr), ospeedr, 2, mask, 16, o.speed)
    {
      SetAlternates(mask, alternate);
      Init(mask, AF, o);
    }
  }

  /** What is left of a mask after shifting it right: its high bits, if it had any. */
  predicate IsShifted(mask: uint16, source: uint16, rest: uint16) {
    && (mask >= 1 ==> rest >= 1 && rest * Power(2, source) <= mask < (rest + 1) * Power(2, source))
    && (mask == 0 ==> rest == 0 && source == 0)
  }

  lemma ShiftOnce(mask: uint16, source: uint16, rest: uint16)
    requires IsShifted(mask, source, rest) && rest > 1 && source < 0xffff
    ensures IsShifted(mask, source + 1, rest / 2)
  {
    var p, half := Power(2, source), rest / 2;
    assert half * (2 * p) == 2 * half * p <= rest * p;
    assert (rest + 1) * p <= (2 * half + 2) * p == (half + 1) * (2 * p);
  }

  /** The place of the highest bit of a mask; 0 for an empty mask. */
  method GetPinSource(mask: uint16) returns (source: uint16)
    ensures mask >= 1 ==> Power(2, source) <= mask < Power(2, source + 1)
    ensures mask == 0 ==> source == 0
  {
    source := 0;
    var rest := mask;
    while rest > 1
      invariant (source as int) + rest < 0x1_0000 && IsShifted(mask, source, rest)
      decreases rest
    {
      ShiftOnce(mask, source, rest);
      source := source + 1;
      rest := rest / 2;
    }
  }
}
