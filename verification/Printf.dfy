/** The formatter: number printers that write through a pointer into a buffer, and
    the format interpreter built on them. */
module Printf {
  import opened CTypes
  import opened Numerals

  /** The buffer after text `t` has been written from position `p` on. */
  function Written(before: Text, p: nat, t: Text): (r: Text)
    requires p + |t| <= |before|
    ensures |r| == |before|
  {
    before[..p] + t + before[p + |t|..]
  }

  /** Cell by cell: the text, and around it what was there. */
  lemma WrittenAt(before: Text, p: nat, t: Text, k: nat)
    requires p + |t| <= |before| && k < |before|
    ensures Written(before, p, t)[k] == if p <= k < p + |t| then t[k - p] else before[k]
  {
  }

  lemma WrittenTwice(before: Text, p: nat, s: Text, t: Text)
    requires p + |s| + |t| <= |before|
    ensures Written(Written(before, p, s), p + |s|, t) == Written(before, p, s + t)
  {
  }

  /** The printers count the width down once per digit. */
  const MIN_WIDTH := -0x8000_0000

  method PutChar(buf: array<uint8>, p: nat, c: uint8) returns (num: int32)
    requires p < buf.Length
    modifies buf
    ensures num == 1 && buf[..] == Written(old(buf[..]), p, [c])
  {
    buf[p] := c;
    return 1;
  }

  /** One more character behind the `head` that has been written from `p` on. */
  method PutNext(buf: array<uint8>, p: nat, written: int32, c: uint8, ghost before: Text, ghost head: Text,
          ghost all: Text)
    returns (num: int32)
    requires p + |head| < |before| == buf.Length && buf[..] == Written(before, p, head)
    requires written == |head| < 0x7fff_ffff && all == head + [c]
    modifies buf
    ensures num == |all| && buf[..] == Written(before, p, all)
  {
    WrittenTwice(before, p, head, [c]);
    var one := PutChar(buf, p + written, c);
    num := written + one;
  }

  method PutString(buf: array<uint8>, p: nat, source: Text) returns (num: int32)
    requires p + |source| <= buf.Length && |source| < 0x8000_0000
    modifies buf
    ensures num == |source| && buf[..] == Written(old(buf[..]), p, source)
  {
    ghost var before := buf[..];
    num := 0;
    while num < |source|
      invariant 0 <= num <= |source|
      invariant buf[..] == Written(before, p, source[..num])
    {
      ghost var more := source[..num + 1];
      assert source[..num] + [source[num]] == more;
      num := PutNext(buf, p, num, source[num], before, source[..num], more);
    }
    assert source[..num] == source;
  }

  /** The filler loop of the number printers. */
  method PutFill(buf: array<uint8>, p: nat, fill: uint8, width: int32) returns (num: int32)
    requires p + Max(width, 0) <= buf.Length
    modifies buf
    ensures num == Max(width, 0) && buf[..] == Written(old(buf[..]), p, Repeat(fill, width))
  {
    ghost var before := buf[..];
    num := 0;
    var width := width;
    ghost var all := width;
    while width > 0
      invariant 0 <= num && num + width == all
      invariant num <= Max(all, 0)
      invariant buf[..] == Written(before, p, Repeat(fill, num))
    {
      ghost var more := Repeat(fill, num + 1);
      assert Repeat(fill, num) + [fill] == more;
      num := PutNext(buf, p, num, fill, before, Repeat(fill, num), more);
      width := width - 1;
    }
    assert Repeat(fill, num) == Repeat(fill, all);
  }

  method PutUnsignedInt(buf: array<uint8>, p: nat, fill: uint8, width: int32, value: uint32) returns (num: int32)
    requires MIN_WIDTH + |Numeral(value, 10, false)| <= width
    requires p + Max(width, |Numeral(value, 10, false)|) <= buf.Length
    modifies buf
    ensures num == Max(width, |Numeral(value, 10, false)|)
    ensures buf[..] == Written(old(buf[..]), p, Padded(fill, width, Numeral(value, 10, false)))
    decreases value
  {
    LengthOfUint32(value, false);
    ghost var before := buf[..];
    ghost var head;
    var rest: int32 := width - 1;
    if value / 10 > 0 {
      num := PutUnsignedInt(buf, p, fill, rest, value / 10);
      head := Padded(fill, rest, Numeral(value / 10, 10, false));
    } else {
      num := PutFill(buf, p, fill, rest);
      head := Repeat(fill, rest);
    }
    ghost var all := Padded(fill, width, Numeral(value, 10, false));
    assert num == |head| && head + [value % 10 + ZERO] == all by {
      LastDigit(fill, width, value, 10, false);
    }
    num := PutNext(buf, p, num, value % 10 + ZERO, before, head, all);
  }

  method PutHexa(buf: array<uint8>, p: nat, fill: uint8, width: int32, maj: bool, value: uint32) returns (num: int32)
    requires MIN_WIDTH + |Numeral(value, 16, maj)| <= width
    requires p + Max(width, |Numeral(value, 16, maj)|) <= buf.Length
    modifies buf
    ensures num == Max(width, |Numeral(value, 16, maj)|)
    ensures buf[..] == Written(old(buf[..]), p, Padded(fill, width, Numeral(value, 16, maj)))
    decreases value
  {
    LengthOfUint32(value, maj);
    ghost var before := buf[..];
    ghost var head;
    var rest: int32 := width - 1;
    if value / 16 > 0 {
      num := PutHexa(buf, p, fill, rest, maj, value / 16);
      head := Padded(fill, rest, Numeral(value / 16, 16, maj));
    } else {
      num := PutFill(buf, p, fill, rest);
      head := Repeat(fill, rest);
    }
    var nibble := value % 16;
    var c: uint8 := if nibble < 10 then nibble + ZERO
                    else if maj then nibble - 10 + 'A' as int else nibble - 10 + 'a' as int;
    ghost var all := Padded(fill, width, Numeral(value, 16, maj));
    assert num == |head| && head + [c] == all by {
      LastDigit(fill, width, value, 16, maj);
    }
    num := PutNext(buf, p, num, c, before, head, all);
  }

  /** The magnitude of a signed number.  (For the most negative number the library
      negates beyond the signed range and relies on the result wrapping.) */
  function Magnitude(value: int32): uint32 { Abs(value) }

  /** A signed number as printed: the filler stands in front of the sign, even when
      it is a zero. */
  function SignedText(fill: uint8, width: int, value: int32): (t: Text)
    ensures |t| == Max(width, |Numeral(Magnitude(value), 10, false)| + if value < 0 then 1 else 0)
  {
    var digits := Numeral(Magnitude(value), 10, false);
    if value < 0 then Padded(fill, width, [MINUS] + digits) else Padded(fill, width, digits)
  }

  /** ... up to its last digit. */
  function SignedHead(fill: uint8, width: int, value: int32): Text {
    var a := Magnitude(value);
    if a >= 10 then SignedText(fill, width - 1, if value < 0 then -(a / 10) else a / 10)
    else if value < 0 then Repeat(fill, width - 2) + [MINUS] else Repeat(fill, width - 1)
  }

  lemma LastSignedDigit(fill: uint8, width: int, value: int32)
    ensures SignedHead(fill, width, value) + [Magnitude(value) % 10 + ZERO] == SignedText(fill, width, value)
  {
    var a := Magnitude(value);
    LastDigit(fill, width, a, 10, false);
    if value < 0 && a >= 10 {
      var front, d := Numeral(a / 10, 10, false), [a % 10 + ZERO];
      assert [MINUS] + (front + d) == [MINUS] + front + d;
      PaddedMore(fill, width, [MINUS] + front, d);
    }
  }

  lemma PaddedMore(fill: uint8, width: int, t: Text, d: Text)
    requires |d| == 1
    ensures Padded(fill, width - 1, t) + d == Padded(fill, width, t + d)
  {
  }

  method PutSignedInt(buf: array<uint8>, p: nat, fill: uint8, width: int32, value: int32) returns (num: int32)
    requires MIN_WIDTH + |SignedText(fill, 0, value)| <= width
    requires p + |SignedText(fill, width, value)| <= buf.Length
    modifies buf
    ensures num == |SignedText(fill, width, value)|
    ensures buf[..] == Written(old(buf[..]), p, SignedText(fill, width, value))
    decreases Magnitude(value), 1
  {
    LengthOfUint32(Magnitude(value), false);
    ghost var before, head, all := buf[..], SignedHead(fill, width, value), SignedText(fill, width, value);
    LastSignedDigit(fill, width, value);
    var absolute: uint32 := if value < 0 then 0 - (value as int) else value;
    num := PutHead(buf, p, fill, width - 1, value, absolute);
    num := PutNext(buf, p, num, absolute % 10 + ZERO, before, head, all);
  }

  /** The upper digits, or the filler and the sign. */
  method PutHead(buf: array<uint8>, p: nat, fill: uint8, width: int32, value: int32, absolute: uint32)
    returns (num: int32)
    requires absolute == Magnitude(value) && MIN_WIDTH + |SignedText(fill, 0, value)| <= width + 1
    requires p + |SignedHead(fill, width + 1, value)| <= buf.Length
    modifies buf
    ensures num == |SignedHead(fill, width + 1, value)|
    ensures buf[..] == Written(old(buf[..]), p, SignedHead(fill, width + 1, value))
    decreases Magnitude(value), 0
  {
    if absolute / 10 > 0 {
      if value < 0 {
        num := PutSignedInt(buf, p, fill, width, -(absolute / 10));
      } else {
        num := PutSignedInt(buf, p, fill, width, absolute / 10);
      }
    } else {
      num := PutSign(buf, p, fill, width, value < 0);
    }
  }

  /** Filler and sign. */
  method PutSign(buf: array<uint8>, p: nat, fill: uint8, width: int32, negative: bool)
    returns (num: int32)
    requires negative ==> MIN_WIDTH < width
    requires p + (if negative then Max(width, 1) else Max(width, 0)) <= buf.Length
    modifies buf
    ensures var head := if negative then Repeat(fill, width - 1) + [MINUS] else Repeat(fill, width);
            num == |head| && buf[..] == Written(old(buf[..]), p, head)
  {
    ghost var before := buf[..];
    var width := width;
    if negative {
      width := width - 1;
    }
    num := PutFill(buf, p, fill, width);
    if negative {
      num := PutNext(buf, p, num, MINUS, before, Repeat(fill, width), Repeat(fill, width) + [MINUS]);
    }
  }

  /** An argument of the formatter: a 32-bit word, or a C string without its NUL. */
  datatype Arg = Number(word: uint32) | Str(text: Text)

  const PERCENT: uint8 := '%' as int

  /** What the format holds next: a character to copy, a conversion, or neither. */
  datatype Item = Literal(c: uint8) | Field(kind: uint8, fill: uint8, width: uint8) | Bad

  function At(format: Text, i: nat): uint8 { if i < |format| then format[i] else 0 }

  predicate IsNumeric(kind: uint8) {
    || kind == 'd' as int || kind == 'i' as int || kind == 'u' as int
    || kind == 'x' as int || kind == 'X' as int || kind == 'c' as int
  }

  /** The width is collected in 8 bits. */
  function ParseWidth(format: Text, i: nat, width: uint8): (r: (uint8, nat))
    requires i <= |format|
    ensures i <= r.1 <= |format|
    decreases |format| - i
  {
    if IsDigit(At(format, i)) then ParseWidth(format, i + 1, ToUint8(width * 10 + format[i] - ZERO)) else (width, i)
  }

  function NextItem(format: Text, i: nat): (r: (Item, nat))
    requires i < |format|
    ensures i < r.1 && (!r.0.Bad? ==> r.1 <= |format|)
  {
    if format[i] != PERCENT then (Literal(format[i]), i + 1)
    else if At(format, i + 1) == PERCENT then (Literal(PERCENT), i + 2)
    else
      var zero := At(format, i + 1) == ZERO;
      var (width, j) := ParseWidth(format, if zero then i + 2 else i + 1, 0);
      var kind := At(format, j);
      if IsNumeric(kind) || kind == 's' as int
      then (Field(kind, if zero then ZERO else ' ' as int, width), j + 1)
      else (Bad, j + 1)
  }

  /** A conversion as it is written. */
  function Conversion(zero: bool, width: nat, kind: uint8): Text {
    [PERCENT] + (if zero then [ZERO] else []) + WidthText(width) + [kind]
  }

  function WidthText(width: nat): (t: Text) { if width == 0 then [] else Numeral(width, 10, false) }

  lemma WidthTextReads(width: nat)
    ensures var t := WidthText(width);
            AllDigits(t) && Value(t, 10) == width && (t != [] ==> t[0] != ZERO)
  {
    DecimalIsDigits(width);
    NoLeadingZero(width, 10, false);
    ValueOfNumeral(width, 10, false);
  }

  lemma ConversionParts(zero: bool, width: nat, kind: uint8)
    ensures var c, start := Conversion(zero, width, kind), if zero then 2 else 1;
            && |c| == start + |WidthText(width)| + 1 && c[0] == PERCENT && c[|c| - 1] == kind
            && (zero ==> c[1] == ZERO) && c[start..|c| - 1] == WidthText(width)
  {
  }

  predicate IsLetter(kind: uint8) { IsNumeric(kind) || kind == 's' as int }

  /** Where a conversion is written it is read as what it says, its width modulo 256; one
      with an unknown letter ends the interpretation. */
  lemma ConversionIsRead(format: Text, i: nat, zero: bool, width: nat, kind: uint8)
    requires !IsDigit(kind) && kind != PERCENT
    requires var c := Conversion(zero, width, kind); i + |c| <= |format| && format[i..i + |c|] == c
    ensures NextItem(format, i).1 == i + |Conversion(zero, width, kind)|
    ensures NextItem(format, i).0
         == if IsLetter(kind) then Field(kind, if zero then ZERO else ' ' as int, ToUint8(width)) else Bad
  {
    var c, digits := Conversion(zero, width, kind), WidthText(width);
    var start, n := i + if zero then 2 else 1, |digits|;
    ConversionParts(zero, width, kind);
    WidthTextReads(width);
    SliceOfSlice(format, i, i + |c|, start - i, |c| - 1);
    assert format[start + n] == c[|c| - 1];
    assert format[i + 1] == c[1];
    assert n > 0 ==> digits[0] == format[start];
    WidthIsRead(format, start, n, 0);
    ItemOfParts(format, i, zero, kind, start, n, ToUint8(width));
  }

  lemma SliceOfSlice(t: Text, i: nat, j: nat, a: nat, b: nat)
    requires i <= j <= |t| && a <= b <= j - i
    ensures t[i..j][a..b] == t[i + a..i + b]
  {
    forall k | 0 <= k < b - a
      ensures t[i..j][a..b][k] == t[i + a..i + b][k]
    {
      assert t[i..j][a + k] == t[i + a + k];
    }
  }

  lemma ItemOfParts(format: Text, i: nat, zero: bool, kind: uint8, start: nat, n: nat, width: uint8)
    requires i < |format| && format[i] == PERCENT && start == i + (if zero then 2 else 1) && start + n < |format|
    requires format[start + n] == kind && (if zero then format[i + 1] == ZERO else format[i + 1] != ZERO)
    requires format[i + 1] != PERCENT && ParseWidth(format, start, 0) == (width, start + n)
    ensures NextItem(format, i)
         == (if IsLetter(kind) then Field(kind, if zero then ZERO else ' ' as int, width) else Bad, start + n + 1)
  {
  }

  lemma {:induction false} WidthIsRead(format: Text, start: nat, n: nat, k: nat)
    requires k <= n && start + n <= |format| && AllDigits(format[start..start + n])
    requires !IsDigit(At(format, start + n))
    ensures var d := format[start..start + n];
            ParseWidth(format, start + k, ToUint8(Value(d[..k], 10))) == (ToUint8(Value(d, 10)), start + n)
    decreases n - k
  {
    var d := format[start..start + n];
    if k == n {
      assert d[..k] == d;
    } else {
      assert format[start + k] == d[k] && IsDigit(d[k]);
      assert d[..k + 1] == d[..k] + [d[k]];
      ValueOfMore(d[..k], d[k], 10);
      WidthWraps(Value(d[..k], 10), d[k] - ZERO);
      WidthIsRead(format, start, n, k + 1);
    }
  }

  lemma WidthWraps(a: int, d: int)
    ensures ToUint8(ToUint8(a) * 10 + d) == ToUint8(a * 10 + d)
  {
  }

  predicate Accepts(kind: uint8, arg: Arg) { arg.Number? <==> kind != 's' as int }

  function FieldText(kind: uint8, fill: uint8, width: int, arg: Arg): Text
    requires Accepts(kind, arg)
  {
    if arg.Str? then arg.text
    else if kind == 'u' as int then Padded(fill, width, Numeral(arg.word, 10, false))
    else if kind == 'x' as int then Padded(fill, width, Numeral(arg.word, 16, false))
    else if kind == 'X' as int then Padded(fill, width, Numeral(arg.word, 16, true))
    else if kind == 'c' as int then [ToUint8(arg.word)]
    else SignedText(fill, width, ToInt32(arg.word))
  }

  /** The text of a format, and whether its end or a bad conversion stopped it. */
  datatype Output = Done(text: Text) | Eof(text: Text) {
    function After(head: Text): Output { if Done? then Done(head + text) else Eof(head + text) }
  }

  /** There is an argument of the right sort for every conversion. */
  predicate Matches(format: Text, i: nat, args: seq<Arg>)
    requires i <= |format|
    decreases |format| - i
  {
    i < |format| ==>
      match NextItem(format, i)
      case (Literal(_), j) => Matches(format, j, args)
      case (Field(kind, _, _), j) => |args| > 0 && Accepts(kind, args[0]) && Matches(format, j, args[1..])
      case (Bad, _) => true
  }

  /** What the format means: the text it stands for, of any length. */
  function Render(format: Text, i: nat, args: seq<Arg>): Output
    requires i <= |format| && Matches(format, i, args)
    decreases |format| - i
  {
    if i == |format| then Done([]) else
      match NextItem(format, i)
      case (Literal(c), j) => Render(format, j, args).After([c])
      case (Field(kind, fill, width), j) => Render(format, j, args[1..]).After(FieldText(kind, fill, width, args[0]))
      case (Bad, _) => Eof([])
  }

  /** What the interpreter produces when `size` characters are out already: it
      stops once `length` is reached and shortens a width that would exceed it. */
  function Produce(format: Text, i: nat, args: seq<Arg>, size: nat, length: nat): Output
    requires i <= |format| && Matches(format, i, args)
    decreases |format| - i
  {
    if i == |format| || size >= length then Done([]) else
      match NextItem(format, i)
      case (Literal(c), j) => Produce(format, j, args, size + 1, length).After([c])
      case (Field(kind, fill, width), j) =>
        var t := FieldText(kind, fill, if size + width > length then length - size else width, args[0]);
        Produce(format, j, args[1..], size + |t|, length).After(t)
      case (Bad, _) => Eof([])
  }

  /** What an item contributes to the meaning of the format. */
  function UncutText(item: Item, args: seq<Arg>): Text
    requires !item.Bad? && (item.Field? ==> |args| > 0 && Accepts(item.kind, args[0]))
  {
    if item.Literal? then [item.c] else FieldText(item.kind, item.fill, item.width, args[0])
  }

  /** ... and to what is produced when `size` characters are out already. */
  function ItemText(item: Item, args: seq<Arg>, size: nat, length: nat): Text
    requires !item.Bad? && (item.Field? ==> |args| > 0 && Accepts(item.kind, args[0])) && size < length
  {
    if item.Literal? then [item.c]
    else FieldText(item.kind, item.fill, if size + item.width > length then length - size else item.width, args[0])
  }

  function RestOf(item: Item, args: seq<Arg>): seq<Arg>
    requires item.Field? ==> |args| > 0
  {
    if item.Field? then args[1..] else args
  }

  /** The first item, and the rest, of what the format means and of what is produced. */
  lemma RenderItem(format: Text, i: nat, args: seq<Arg>, t: Text)
    requires i < |format| && Matches(format, i, args)
    requires !NextItem(format, i).0.Bad? && t == UncutText(NextItem(format, i).0, args)
    ensures var (item, j) := NextItem(format, i);
            && j <= |format| && Matches(format, j, RestOf(item, args))
            && Render(format, i, args) == Render(format, j, RestOf(item, args)).After(t)
  {
  }

  lemma ProduceItem(format: Text, i: nat, args: seq<Arg>, size: nat, length: nat, t: Text)
    requires i < |format| && Matches(format, i, args) && size < length
    requires !NextItem(format, i).0.Bad? && t == ItemText(NextItem(format, i).0, args, size, length)
    ensures var (item, j) := NextItem(format, i);
            && j <= |format| && Matches(format, j, RestOf(item, args))
            && Produce(format, i, args, size, length)
               == Produce(format, j, RestOf(item, args), size + |t|, length).After(t)
  {
  }

  /** When what the format means is shorter than the buffer, that is what is
      produced, up to and including the way it ends. */
  lemma {:induction false} ProducesMeaning(format: Text, i: nat, args: seq<Arg>, size: nat, length: nat)
    requires i <= |format| && Matches(format, i, args)
    requires size + |Render(format, i, args).text| < length
    ensures Produce(format, i, args, size, length) == Render(format, i, args)
    decreases |format| - i, 1
  {
    if i < |format| && !NextItem(format, i).0.Bad? {
      ItemProducesMeaning(format, i, args, size, length);
    }
  }

  lemma {:induction false} ItemProducesMeaning(format: Text, i: nat, args: seq<Arg>, size: nat, length: nat)
    requires i < |format| && Matches(format, i, args) && !NextItem(format, i).0.Bad?
    requires size + |Render(format, i, args).text| < length
    ensures Produce(format, i, args, size, length) == Render(format, i, args)
    decreases |format| - i, 0
  {
    var j, rest, more := ItemAsMeant(format, i, args, size, length);
    ProducesMeaning(format, j, rest, more, length);
  }

  lemma ItemAsMeant(format: Text, i: nat, args: seq<Arg>, size: nat, length: nat)
    returns (j: nat, rest: seq<Arg>, more: nat)
    requires i < |format| && Matches(format, i, args) && !NextItem(format, i).0.Bad?
    requires size + |Render(format, i, args).text| < length
    ensures i < j <= |format| && Matches(format, j, rest) && more + |Render(format, j, rest).text| < length
    ensures Produce(format, j, rest, more, length) == Render(format, j, rest)
        ==> Produce(format, i, args, size, length) == Render(format, i, args)
  {
    var item := NextItem(format, i).0;
    j, rest := NextItem(format, i).1, RestOf(item, args);
    var t := UncutText(item, args);
    more := size + |t|;
    RenderItem(format, i, args, t);
    ItemFits(item, args, t, size, length);
    ProduceItem(format, i, args, size, length, t);
  }

  lemma ItemFits(item: Item, args: seq<Arg>, t: Text, size: nat, length: nat)
    requires !item.Bad? && (item.Field? ==> |args| > 0 && Accepts(item.kind, args[0]))
    requires t == UncutText(item, args) && size + |t| < length
    ensures ItemText(item, args, size, length) == t
  {
    if item.Field? {
      FieldFits(item.kind, item.fill, item.width, args[0], size, length);
    }
  }

  /** A field that fits is not affected by the limit on its width. */
  lemma FieldFits(kind: uint8, fill: uint8, width: uint8, arg: Arg, size: nat, length: nat)
    requires Accepts(kind, arg) && size + |FieldText(kind, fill, width, arg)| < length
    ensures FieldText(kind, fill, if size + width > length then length - size else width, arg)
         == FieldText(kind, fill, width, arg)
  {
  }

  /** Only characters to copy, "%%" and "%c". */
  predicate Plain(format: Text, i: nat)
    requires i <= |format|
    decreases |format| - i
  {
    i < |format| ==>
      match NextItem(format, i)
      case (Literal(_), j) => Plain(format, j)
      case (Field(kind, _, _), j) => kind == 'c' as int && Plain(format, j)
      case (Bad, _) => false
  }

  /** A plain format is cut off exactly at the buffer's length. */
  lemma {:induction false} PlainIsCutOff(format: Text, i: nat, args: seq<Arg>, size: nat, length: nat)
    requires i <= |format| && Matches(format, i, args) && Plain(format, i)
    ensures var all := Render(format, i, args).text;
            Produce(format, i, args, size, length) == Done(all[..Min(|all|, Max(0, length - size))])
    decreases |format| - i
  {
    if i < |format| && size < length {
      var j, rest, c := PlainItem(format, i, args, size, length);
      PlainIsCutOff(format, j, rest, size + 1, length);
      CutOffOne(c, Render(format, j, rest).text, length - size);
    }
  }

  lemma PlainItem(format: Text, i: nat, args: seq<Arg>, size: nat, length: nat)
    returns (j: nat, rest: seq<Arg>, c: uint8)
    requires i < |format| && Matches(format, i, args) && Plain(format, i) && size < length
    ensures i < j <= |format| && Matches(format, j, rest) && Plain(format, j)
    ensures Render(format, i, args) == Render(format, j, rest).After([c])
    ensures Produce(format, i, args, size, length) == Produce(format, j, rest, size + 1, length).After([c])
  {
    var item := NextItem(format, i).0;
    j, rest := NextItem(format, i).1, RestOf(item, args);
    var t := PlainText(item, args, size, length);
    c := t[0];
    RenderItem(format, i, args, t);
    ProduceItem(format, i, args, size, length, t);
  }

  lemma PlainText(item: Item, args: seq<Arg>, size: nat, length: nat) returns (t: Text)
    requires item.Literal? || (item.Field? && item.kind == 'c' as int && |args| > 0 && Accepts(item.kind, args[0]))
    requires size < length
    ensures |t| == 1 && t == UncutText(item, args) == ItemText(item, args, size, length)
  {
    t := UncutText(item, args);
  }

  lemma CutOffOne(c: uint8, t: Text, n: int)
    requires 0 < n
    ensures ([c] + t)[..Min(|t| + 1, n)] == [c] + t[..Min(|t|, n - 1)]
  {
  }

  /** Whether the interpreter keeps to the buffer's length, told from the format and
      its arguments alone: as long as there is room, the characters that a field has
      without any filler fit.  (Behind a field that is cut short nothing follows.) */
  predicate StaysWithin(format: Text, i: nat, args: seq<Arg>, size: nat, length: nat)
    requires i <= |format| && Matches(format, i, args)
    decreases |format| - i
  {
    i < |format| && size < length ==>
      match NextItem(format, i)
      case (Literal(_), j) => StaysWithin(format, j, args, size + 1, length)
      case (Field(kind, fill, width), j) =>
        && size + |FieldText(kind, fill, 0, args[0])| <= length
        && StaysWithin(format, j, args[1..], size + |FieldText(kind, fill, width, args[0])|, length)
      case (Bad, _) => true
  }

  /** The characters written never pass the length exactly under that condition. */
  lemma {:induction false} WithinIff(format: Text, i: nat, args: seq<Arg>, size: nat, length: nat)
    requires i <= |format| && Matches(format, i, args) && size <= length
    ensures size + |Produce(format, i, args, size, length).text| <= length
       <==> StaysWithin(format, i, args, size, length)
    decreases |format| - i
  {
    if i < |format| && size < length && !NextItem(format, i).0.Bad? {
      var j, rest, more := ItemStep(format, i, args, size, length);
      if more <= length {
        WithinIff(format, j, rest, more, length);
      }
    }
  }

  /** One item takes the number of characters from `size` to `more`. */
  lemma ItemStep(format: Text, i: nat, args: seq<Arg>, size: nat, length: nat)
    returns (j: nat, rest: seq<Arg>, more: nat)
    requires i < |format| && Matches(format, i, args) && size < length && !NextItem(format, i).0.Bad?
    ensures i < j <= |format| && Matches(format, j, rest)
    ensures size + |Produce(format, i, args, size, length).text| == more + |Produce(format, j, rest, more, length).text|
    ensures StaysWithin(format, i, args, size, length) <==> more <= length && StaysWithin(format, j, rest, more, length)
  {
    j, rest := NextItem(format, i).1, RestOf(NextItem(format, i).0, args);
    var t := ItemText(NextItem(format, i).0, args, size, length);
    more := size + |t|;
    ProduceItem(format, i, args, size, length, t);
    var uncut := WithinStep(format, i, args, size, length, more);
  }

  lemma WithinStep(format: Text, i: nat, args: seq<Arg>, size: nat, length: nat, more: nat) returns (uncut: nat)
    requires i < |format| && Matches(format, i, args) && size < length && !NextItem(format, i).0.Bad?
    requires more == size + |ItemText(NextItem(format, i).0, args, size, length)|
    ensures var (item, j) := NextItem(format, i);
            StaysWithin(format, i, args, size, length)
            <==> more <= length && StaysWithin(format, j, RestOf(item, args), uncut, length)
    ensures more == uncut || (length <= more && length <= uncut)
  {
    var item := NextItem(format, i).0;
    if item.Literal? {
      uncut := more;
    } else {
      uncut := size + |UncutText(item, args)|;
      CutField(item.kind, item.fill, item.width, args[0], size, length);
    }
  }

  /** A field whose width is cut: it reaches the end of the buffer, or it is what it
      would have been. */
  lemma CutField(kind: uint8, fill: uint8, width: uint8, arg: Arg, size: nat, length: nat)
    requires Accepts(kind, arg) && size < length
    ensures var t := FieldText(kind, fill, if size + width > length then length - size else width, arg);
            var uncut := FieldText(kind, fill, width, arg);
            && (size + |FieldText(kind, fill, 0, arg)| <= length <==> size + |t| <= length)
            && (t == uncut || (length <= size + |t| && length <= size + |uncut|))
  {
  }

  /** In particular a number is not cut off: "%d" writes five characters into three. */
  lemma NumberOverruns()
    ensures var format := [PERCENT, 'd' as int];
            Matches(format, 0, [Number(12345)]) && |Produce(format, 0, [Number(12345)], 0, 3).text| == 5
  {
  }

  /** The result: the length of the text, or -1 after a bad conversion.  A text that
      fills the buffer loses its last character to the NUL. */
  function ResultOf(o: Output, length: nat): int {
    if o.Eof? then -1 else if |o.text| < length then |o.text| else |o.text| - 1
  }

  /** The buffer afterwards. */
  function BufferAfter(before: Text, o: Output, length: nat): Text
    requires 0 < length <= |before| && |o.text| <= |before|
  {
    var written := Written(before[0 := 0], 0, o.text);
    if o.Eof? then written else written[ResultOf(o, length) := 0]
  }

  /** The library terminates the string in front of the buffer when length is 0, so
      its callers must not pass 0; and the buffer has to hold what is produced. */
  method Vsnprintf(buf: array<uint8>, length: nat, format: Text, args: seq<Arg>) returns (result: int32)
    requires 0 < length <= buf.Length < 0x7fff_0000
    requires Matches(format, 0, args)
    requires |Produce(format, 0, args, 0, length).text| <= buf.Length
    modifies buf
    ensures var o := Produce(format, 0, args, 0, length);
            result == ResultOf(o, length) && buf[..] == BufferAfter(old(buf[..]), o, length)
  {
    buf[0] := 0;
    var size, end := Interpret(buf, length, format, args);
    if !end {
      return -1;
    }
    if size < length {
      buf[size] := 0;
    } else {
      size := size - 1;
      buf[size] := 0;
    }
    return size;
  }

  /** The loop over the format; `end` is false after a bad conversion. */
  method Interpret(buf: array<uint8>, length: nat, format: Text, args: seq<Arg>) returns (size: int32, end: bool)
    requires buf.Length < 0x7fff_0000 && Matches(format, 0, args)
    requires |Produce(format, 0, args, 0, length).text| <= buf.Length
    modifies buf
    ensures var o := Produce(format, 0, args, 0, length);
            size == |o.text| && end == o.Done? && buf[..] == Written(old(buf[..]), 0, o.text)
  {
    ghost var o, before := Produce(format, 0, args, 0, length), buf[..];
    ghost var sofar: Text := [];
    var i, rest := 0, args;
    size := 0;
    AfterNothing(o);
    while i < |format| && size < length
      invariant 0 <= i <= |format| && size == |sofar| && Matches(format, i, rest)
      invariant o == Produce(format, i, rest, size, length).After(sofar)
      invariant buf[..] == Written(before, 0, sofar)
      decreases |format| - i
    {
      var item, j := ParseItem(format, i);
      if item == Bad {
        AfterAll(sofar);
        return size, false;
      }
      sofar, size := Advance(buf, length, format, i, item, j, rest, size, before, sofar, o);
      rest := RestOf(item, rest);
      i := j;
    }
    AfterAll(sofar);
    end := true;
  }

  /** One character or conversion of the format: what is still to be produced, behind
      what there is, stays the same. */
  method Advance(buf: array<uint8>, length: nat, ghost format: Text, ghost i: nat, item: Item, ghost j: nat,
                 args: seq<Arg>, size: int32, ghost before: Text, ghost sofar: Text, ghost o: Output)
    returns (ghost more: Text, newSize: int32)
    requires i < |format| && Matches(format, i, args) && (item, j) == NextItem(format, i) && !item.Bad?
    requires size == |sofar| < length && |sofar| <= |before| == buf.Length < 0x7fff_0000
    requires buf[..] == Written(before, 0, sofar)
    requires o == Produce(format, i, args, size, length).After(sofar) && |o.text| <= |before|
    modifies buf
    ensures newSize == |more| <= |before| && buf[..] == Written(before, 0, more)
    ensures j <= |format| && Matches(format, j, RestOf(item, args))
    ensures o == Produce(format, j, RestOf(item, args), newSize, length).After(more)
  {
    more := ProduceStep(format, i, args, size, length, sofar, o);
    newSize := Convert(buf, length, item, args, size, before, sofar, more);
  }

  /** One character or conversion of the format, behind what there is so far. */
  method Convert(buf: array<uint8>, length: nat, item: Item, args: seq<Arg>, size: int32, ghost before: Text,
                 ghost sofar: Text, ghost more: Text)
    returns (newSize: int32)
    requires !item.Bad? && (item.Field? ==> |args| > 0 && Accepts(item.kind, args[0])) && size < length
    requires size == |sofar| <= |before| == buf.Length < 0x7fff_0000 && buf[..] == Written(before, 0, sofar)
    requires more == sofar + ItemText(item, args, size, length) && |more| <= |before|
    modifies buf
    ensures newSize == |more| && buf[..] == Written(before, 0, more)
  {
    WrittenTwice(before, 0, sofar, ItemText(item, args, size, length));
    var num := PutItem(buf, length, size, item, args);
    newSize := size + num;
  }

  lemma AfterNothing(o: Output)
    ensures o.After([]) == o
  {
  }

  lemma AfterAll(s: Text)
    ensures Done([]).After(s) == Done(s) && Eof([]).After(s) == Eof(s)
  {
  }

  /** One turn of the loop moves one item's text from what is to come to what is
      out. */
  lemma ProduceStep(format: Text, i: nat, args: seq<Arg>, size: nat, length: nat, sofar: Text, o: Output)
    returns (more: Text)
    requires i < |format| && Matches(format, i, args) && size == |sofar| < length
    requires !NextItem(format, i).0.Bad? && o == Produce(format, i, args, size, length).After(sofar)
    ensures var (item, j) := NextItem(format, i);
            && j <= |format| && Matches(format, j, RestOf(item, args))
            && more == sofar + ItemText(item, args, size, length) && |more| <= |o.text|
            && o == Produce(format, j, RestOf(item, args), |more|, length).After(more)
  {
    var (item, j) := NextItem(format, i);
    var t := ItemText(item, args, size, length);
    more := sofar + t;
    ProduceItem(format, i, args, size, length, t);
    AfterTwice(Produce(format, j, RestOf(item, args), |more|, length), sofar, t);
  }

  lemma AfterTwice(o: Output, s: Text, t: Text)
    ensures o.After(t).After(s) == o.After(s + t)
  {
  }

  method PutItem(buf: array<uint8>, length: nat, size: nat, item: Item, args: seq<Arg>) returns (num: int32)
    requires !item.Bad? && (item.Field? ==> |args| > 0 && Accepts(item.kind, args[0])) && size < length
    requires size + |ItemText(item, args, size, length)| <= buf.Length < 0x7fff_0000
    modifies buf
    ensures num == |ItemText(item, args, size, length)|
    ensures buf[..] == Written(old(buf[..]), size, ItemText(item, args, size, length))
  {
    if item.Literal? {
      num := PutChar(buf, size, item.c);
    } else {
      var width: uint8 := item.width;
      if size + width > length {
        width := length - size;
      }
      num := PutField(buf, size, item.kind, item.fill, width, args[0]);
    }
  }

  /** Parses an item; the width's digits in a loop. */
  method ParseItem(format: Text, i: nat) returns (item: Item, j: nat)
    requires i < |format|
    ensures (item, j) == NextItem(format, i)
  {
    if format[i] != PERCENT {
      return Literal(format[i]), i + 1;
    }
    if At(format, i + 1) == PERCENT {
      return Literal(PERCENT), i + 2;
    }
    var fill: uint8, width: uint8 := ' ' as int, 0;
    j := i + 1;
    if At(format, j) == ZERO {
      fill := ZERO;
      j := j + 1;
    }
    ghost var parsed := ParseWidth(format, j, 0);
    while IsDigit(At(format, j))
      invariant j <= |format| && parsed == ParseWidth(format, j, width)
      decreases |format| - j
    {
      width := ToUint8(width * 10 + format[j] - ZERO);
      j := j + 1;
    }
    var kind := At(format, j);
    if IsNumeric(kind) || kind == 's' as int {
      return Field(kind, fill, width), j + 1;
    }
    return Bad, j + 1;
  }

  method PutField(buf: array<uint8>, p: nat, kind: uint8, fill: uint8, width: uint8, arg: Arg) returns (num: int32)
    requires Accepts(kind, arg) && p + |FieldText(kind, fill, width, arg)| <= buf.Length < 0x7fff_0000
    modifies buf
    ensures num == |FieldText(kind, fill, width, arg)|
    ensures buf[..] == Written(old(buf[..]), p, FieldText(kind, fill, width, arg))
  {
    match arg {
      case Str(text) =>
        num := PutString(buf, p, text);
      case Number(word) =>
        LengthOfUint32(word, false);
        LengthOfUint32(word, true);
        LengthOfUint32(Magnitude(ToInt32(word)), false);
        if kind == 'u' as int {
          num := PutUnsignedInt(buf, p, fill, width, word);
        } else if kind == 'x' as int {
          num := PutHexa(buf, p, fill, width, false, word);
        } else if kind == 'X' as int {
          num := PutHexa(buf, p, fill, width, true, word);
        } else if kind == 'c' as int {
          num := PutChar(buf, p, ToUint8(word));
        } else {
          num := PutSignedInt(buf, p, fill, width, ToInt32(word));
        }
    }
  }
}
