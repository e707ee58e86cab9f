/** The C integer types the firmware stores into.

    Arithmetic in C is carried out in `int`; a value only has to fit the narrow
    type when it is stored.  Subset types mirror this: every assignment to a
    variable of one of these types obliges the verifier to prove that the value
    fits.  Where a driver relies on wrap-around, the conversion is explicit. */
module CTypes {
  type int16 = x: int | -0x8000 <= x < 0x8000
  type int32 = x: int | -0x8000_0000 <= x < 0x8000_0000
  type uint8 = x: int | 0 <= x < 0x100
  type uint16 = x: int | 0 <= x < 0x1_0000
  type uint32 = x: int | 0 <= x < 0x1_0000_0000

  /** Conversions: a value that fits is kept, any other is reduced modulo 2^n. */
  function ToUint8(x: int): (r: uint8)
    ensures 0 <= x < 0x100 ==> r == x
  {
    x % 0x100
  }

  function ToUint16(x: int): (r: uint16)
    ensures 0 <= x < 0x1_0000 ==> r == x
  {
    x % 0x1_0000
  }

  function ToUint32(x: int): (r: uint32)
    ensures 0 <= x < 0x1_0000_0000 ==> r == x
  {
    x % 0x1_0000_0000
  }

  function ToInt16(x: int): (r: int16)
    ensures -0x8000 <= x < 0x8000 ==> r == x
  {
    (x + 0x8000) % 0x1_0000 - 0x8000
  }

  function ToInt32(x: int): (r: int32)
    ensures -0x8000_0000 <= x < 0x8000_0000 ==> r == x
  {
    (x + 0x8000_0000) % 0x1_0000_0000 - 0x8000_0000
  }

  /** What is lost in a conversion is a multiple of 2^n. */
  lemma ConversionsKeepRemainders(x: int)
    ensures ToUint8(x) == x - 0x100 * (x / 0x100)
    ensures ToUint16(x) == x - 0x1_0000 * (x / 0x1_0000)
    ensures ToUint32(x) == x - 0x1_0000_0000 * (x / 0x1_0000_0000)
    ensures ToInt16(x) == x - 0x1_0000 * ((x + 0x8000) / 0x1_0000)
    ensures ToInt32(x) == x - 0x1_0000_0000 * ((x + 0x8000_0000) / 0x1_0000_0000)
  {
  }

  function Abs(x: int): nat { if x > 0 then x else -x }
  function Max(x: int, y: int): int { if x > y then x else y }
  function Min(x: int, y: int): int { if x < y then x else y }
}
