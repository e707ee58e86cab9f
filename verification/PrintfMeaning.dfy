/** What formats mean, said without the formatter: by the characters that stand there
    and by the values that printed digits have when they are read back. */
module PrintfMeaning {
  import opened CTypes
  import opened Numerals
  import opened Printf

  // --- Digits ---

  /** What the characters of a digit stand for. */
  lemma DigitCharacters(c: uint8)
    ensures 48 <= c <= 57 ==> DigitValue(c) == c - 48
    ensures 65 <= c <= 70 ==> DigitValue(c) == c - 55
    ensures 97 <= c <= 102 ==> DigitValue(c) == c - 87
  {
  }

  /** Decimal digits without leading zeros that read back as v. */
  predicate IsUnsigned(t: Text, v: int) {
    |t| >= 1 && (forall i :: 0 <= i < |t| ==> 48 <= t[i] <= 57) && (|t| > 1 ==> t[0] != 48) && Value(t, 10) == v
  }

  /** The same for a word as a signed number, behind a minus sign if it is negative. */
  predicate IsSigned(t: Text, word: uint32) {
    if word < 0x8000_0000 then IsUnsigned(t, word)
    else |t| >= 1 && t[0] == 45 && IsUnsigned(t[1..], 0x1_0000_0000 - word)
  }

  predicate AllHexDigits(t: Text, a: int) { forall i :: 0 <= i < |t| ==> 48 <= t[i] <= 57 || a <= t[i] <= a + 5 }

  /** Hexadecimal digits without leading zeros, with letters from `a` on. */
  predicate IsHex(t: Text, v: int, a: int) {
    |t| >= 1 && AllHexDigits(t, a) && (|t| > 1 ==> t[0] != 48) && Value(t, 16) == v
  }

  lemma OneZero(v: nat, base: int, upper: bool)
    requires 2 <= base <= 16
    ensures var t := Numeral(v, base, upper); |t| >= 1 && (|t| > 1 ==> t[0] != 48)
  {
    NoLeadingZero(v, base, upper);
  }

  lemma NumeralIsUnsigned(v: nat)
    ensures IsUnsigned(Numeral(v, 10, false), v)
  {
    DecimalIsDigits(v);
    OneZero(v, 10, false);
    ValueOfNumeral(v, 10, false);
  }

  lemma {:induction false} HexNumeral(v: nat, upper: bool)
    ensures AllHexDigits(Numeral(v, 16, upper), if upper then 65 else 97)
  {
    if v >= 16 {
      HexNumeral(v / 16, upper);
    }
  }

  lemma NumeralIsHex(v: nat, upper: bool)
    ensures IsHex(Numeral(v, 16, upper), v, if upper then 65 else 97)
  {
    HexNumeral(v, upper);
    OneZero(v, 16, upper);
    ValueOfNumeral(v, 16, upper);
  }

  // --- The letters ---

  /** A word as a signed number. */
  lemma SignedWord(word: uint32)
    ensures ToInt32(word) == if word < 0x8000_0000 then word else word - 0x1_0000_0000
    ensures Magnitude(ToInt32(word)) == if word < 0x8000_0000 then word else 0x1_0000_0000 - word
  {
  }

  /** What a field consists of besides its filler. */
  function Core(kind: uint8, word: uint32): Text {
    if kind == 117 then Numeral(word, 10, false)
    else if kind == 120 then Numeral(word, 16, false)
    else if kind == 88 then Numeral(word, 16, true)
    else if kind == 99 then [word % 0x100]
    else if word < 0x8000_0000 then Numeral(word, 10, false)
    else [45] + Numeral(0x1_0000_0000 - word, 10, false)
  }

  lemma NumberField(kind: uint8, fill: uint8, width: nat, word: uint32, core: Text)
    requires kind != 's' as int && core == Core(kind, word)
    ensures FieldText(kind, fill, width, Number(word)) == if kind == 99 then core else Padded(fill, width, core)
  {
    SignedWord(word);
  }

  /** A field is filler and then a core that does not depend on filler and width. */
  lemma FillerAndCore(kind: uint8, fill: uint8, width: nat, arg: Arg) returns (filler: Text, core: Text)
    requires Accepts(kind, arg)
    ensures FieldText(kind, fill, width, arg) == filler + core
    ensures core == if arg.Str? then arg.text else Core(kind, arg.word)
    ensures forall i :: 0 <= i < |filler| ==> filler[i] == fill
    ensures |filler| == if kind == 99 || kind == 115 then 0 else Max(0, width - |core|)
  {
    if arg.Str? {
      core, filler := arg.text, [];
    } else {
      core := Core(kind, arg.word);
      filler := if kind == 99 then [] else Repeat(fill, width - |core|);
      NumberField(kind, fill, width, arg.word, core);
    }
  }

  /** What each of the letters c, d, i, s, u, x and X prints of its argument. */
  predicate Prints(kind: uint8, arg: Arg, core: Text) {
    if kind == 115 then arg.Str? && core == arg.text
    else
      && arg.Number?
      && (kind == 99 ==> core == [arg.word % 0x100])
      && (kind == 100 || kind == 105 ==> IsSigned(core, arg.word))
      && (kind == 117 ==> IsUnsigned(core, arg.word))
      && (kind == 120 ==> IsHex(core, arg.word, 97))
      && (kind == 88 ==> IsHex(core, arg.word, 65))
  }

  lemma LettersPrint(kind: uint8, arg: Arg, core: Text)
    requires Accepts(kind, arg) && core == if arg.Str? then arg.text else Core(kind, arg.word)
    ensures Prints(kind, arg, core)
  {
    if arg.Number? {
      NumbersPrint(kind, arg.word, core);
    }
  }

  lemma NumbersPrint(kind: uint8, word: uint32, core: Text)
    requires core == Core(kind, word)
    ensures kind == 99 ==> core == [word % 0x100]
    ensures kind == 117 ==> IsUnsigned(core, word)
    ensures kind == 120 ==> IsHex(core, word, 97)
    ensures kind == 88 ==> IsHex(core, word, 65)
    ensures kind == 100 || kind == 105 ==> IsSigned(core, word)
  {
    NumeralIsUnsigned(word);
    if kind == 120 || kind == 88 {
      NumeralIsHex(word, kind == 88);
    } else if word >= 0x8000_0000 {
      NumeralIsUnsigned(0x1_0000_0000 - word);
      assert ([45] + Numeral(0x1_0000_0000 - word, 10, false))[1..] == Numeral(0x1_0000_0000 - word, 10, false);
    }
  }

  // --- Formats ---

  /** A character that is no percent sign stands for itself. */
  lemma CharacterIsMeant(format: Text, i: nat, args: seq<Arg>)
    requires i < |format| && Matches(format, i, args) && format[i] != 37
    ensures Matches(format, i + 1, args)
    ensures Render(format, i, args) == Render(format, i + 1, args).After([format[i]])
  {
    RenderItem(format, i, args, [format[i]]);
  }

  /** Two of them stand for one. */
  lemma PercentIsMeant(format: Text, i: nat, args: seq<Arg>)
    requires i + 1 < |format| && Matches(format, i, args) && format[i] == format[i + 1] == 37
    ensures Matches(format, i + 2, args)
    ensures Render(format, i, args) == Render(format, i + 2, args).After([37])
  {
    RenderItem(format, i, args, [37]);
  }

  /** A conversion that is written with one of the seven letters stands for filler, up to
      its width modulo 256, and for what its letter prints of the next argument. */
  lemma ConversionIsMeant(format: Text, i: nat, j: nat, args: seq<Arg>, zero: bool, width: nat, kind: uint8)
    returns (filler: Text, core: Text)
    requires kind == 100 || kind == 105 || kind == 117 || kind == 120 || kind == 88 || kind == 99 || kind == 115
    requires i <= j <= |format| && format[i..j] == Conversion(zero, width, kind) && Matches(format, i, args)
    ensures |args| > 0 && Matches(format, j, args[1..])
    ensures Render(format, i, args) == Render(format, j, args[1..]).After(filler + core)
    ensures forall k :: 0 <= k < |filler| ==> filler[k] == if zero then 48 else 32
    ensures |filler| == if kind == 99 || kind == 115 then 0 else Max(0, width % 0x100 - |core|)
    ensures Prints(kind, args[0], core)
  {
    ConversionItem(format, i, j, zero, width, kind);
    filler, core := FieldIsMeant(format, i, args, j, kind, if zero then 48 else 32, width % 0x100);
  }

  lemma ConversionItem(format: Text, i: nat, j: nat, zero: bool, width: nat, kind: uint8)
    requires IsLetter(kind) && i <= j <= |format| && format[i..j] == Conversion(zero, width, kind)
    ensures i < j && NextItem(format, i) == (Field(kind, if zero then 48 else 32, width % 0x100), j)
  {
    assert |format[i..j]| == j - i;
    ConversionIsRead(format, i, zero, width, kind);
  }

  /** Any other letter ends the text. */
  lemma UnknownLetterEnds(format: Text, i: nat, j: nat, args: seq<Arg>, zero: bool, width: nat, kind: uint8)
    requires !(kind == 100 || kind == 105 || kind == 117 || kind == 120 || kind == 88 || kind == 99 || kind == 115)
    requires !(48 <= kind <= 57) && kind != 37
    requires i <= j <= |format| && format[i..j] == Conversion(zero, width, kind) && Matches(format, i, args)
    ensures Render(format, i, args) == Eof([])
  {
    assert |format[i..j]| == j - i;
    ConversionIsRead(format, i, zero, width, kind);
  }

  lemma FieldIsMeant(format: Text, i: nat, args: seq<Arg>, j: nat, kind: uint8, fill: uint8, width: uint8)
    returns (filler: Text, core: Text)
    requires i < |format| && Matches(format, i, args) && NextItem(format, i) == (Field(kind, fill, width), j)
    ensures |args| > 0 && j <= |format| && Matches(format, j, args[1..]) && Accepts(kind, args[0])
    ensures Render(format, i, args) == Render(format, j, args[1..]).After(filler + core)
    ensures Prints(kind, args[0], core)
    ensures forall k :: 0 <= k < |filler| ==> filler[k] == fill
    ensures |filler| == if kind == 99 || kind == 115 then 0 else Max(0, width - |core|)
  {
    filler, core := FillerAndCore(kind, fill, width, args[0]);
    LettersPrint(kind, args[0], core);
    RenderItem(format, i, args, filler + core);
  }

  /** "%d" of -1 is "-1", and "%u" of it is "4294967295". */
  lemma MinusOne()
    ensures Matches([37, 100], 0, [Number(0xffff_ffff)])
    ensures Render([37, 100], 0, [Number(0xffff_ffff)]) == Done([45, 49])
  {
    assert NextItem([37, 100], 0) == (Field(100, 32, 0), 2);
    assert Numeral(1, 10, false) == [49];
    assert SignedText(32, 0, -1) == [45, 49];
  }
}
