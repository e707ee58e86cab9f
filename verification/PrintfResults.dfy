/** What a caller of the formatter finds in its buffer, and when that is what the
    format means, cut off where the buffer ends. */
module PrintfResults {
  import opened CTypes
  import opened Numerals
  import opened Printf

  /** The part of a text that a buffer has room for in front of the NUL. */
  function Kept(t: Text, length: nat): Text
    requires 0 < length
  {
    t[..Min(|t|, length - 1)]
  }

  /** A text within the length leaves a C string, its length being the result; behind
      a bad conversion the NUL is missing, unless there is no text at all. */
  lemma StringIsLeft(before: Text, o: Output, length: nat)
    requires 0 < length <= |before| && |o.text| <= length
    ensures o.Done? ==> ResultOf(o, length) == |Kept(o.text, length)|
                        && BufferAfter(before, o, length) == Written(before, 0, Kept(o.text, length) + [0])
    ensures o.Eof? ==> ResultOf(o, length) == -1
                       && BufferAfter(before, o, length) == Written(before, 0, if o.text == [] then [0] else o.text)
  {
    if o.Done? {
      StringIsEnded(before, o.text, length);
    } else {
      StringIsOpen(before, o.text);
    }
  }

  lemma StringIsEnded(before: Text, t: Text, length: nat)
    requires 0 < length <= |before| && |t| <= length
    ensures Written(before[0 := 0], 0, t)[|Kept(t, length)| := 0] == Written(before, 0, Kept(t, length) + [0])
  {
  }

  lemma StringIsOpen(before: Text, t: Text)
    requires 0 < |before| && |t| <= |before|
    ensures Written(before[0 := 0], 0, t) == Written(before, 0, if t == [] then [0] else t)
  {
  }

  /** The string is what the format means, or as much of it as there is room for, if
      that is shorter than the buffer or the format holds no more than characters. */
  lemma KeptIsMeant(format: Text, args: seq<Arg>, length: nat)
    requires Matches(format, 0, args) && 0 < length
    requires |Render(format, 0, args).text| < length || Plain(format, 0)
    ensures var o, meant := Produce(format, 0, args, 0, length), Render(format, 0, args);
            o.Done? == meant.Done? && Kept(o.text, length) == Kept(meant.text, length)
            && StaysWithin(format, 0, args, 0, length) && KeepsMeaning(format, 0, args, 0, length)
  {
    WithinIff(format, 0, args, 0, length);
    KeptIsMeantIff(format, args, length);
    if Plain(format, 0) {
      PlainIsCutOff(format, 0, args, 0, length);
      PlainIsDone(format, 0, args);
    } else {
      ProducesMeaning(format, 0, args, 0, length);
    }
  }

  lemma {:induction false} PlainIsDone(format: Text, i: nat, args: seq<Arg>)
    requires i <= |format| && Matches(format, i, args) && Plain(format, i)
    ensures Render(format, i, args).Done?
    decreases |format| - i
  {
    if i < |format| {
      var (item, j) := NextItem(format, i);
      PlainIsDone(format, j, RestOf(item, args));
    }
  }

  // --- When a cut does not show ---

  /** The first n characters of a text, or as many as there are. */
  function Front(t: Text, n: int): Text { t[..Max(0, Min(|t|, n))] }

  /** A field that does not fit loses filler, where C11 would cut off its end.  That
      does not show in the characters that are kept if the width is not cut or makes
      no difference, if the text has a single character, or if there is room for none. */
  predicate ItemKept(item: Item, args: seq<Arg>, size: nat, length: nat)
    requires !item.Bad? && (item.Field? ==> |args| > 0 && Accepts(item.kind, args[0]))
  {
    item.Field? ==>
      var least := |FieldText(item.kind, item.fill, 0, args[0])|;
      || args[0].Str? || size + item.width <= length || item.width <= least
      || least == 1 || size + 1 == length
  }

  /** ... for all fields that there is room for. */
  predicate KeepsMeaning(format: Text, i: nat, args: seq<Arg>, size: nat, length: nat)
    requires i <= |format| && Matches(format, i, args)
    decreases |format| - i
  {
    i < |format| && size < length && !NextItem(format, i).0.Bad? ==>
      var (item, j) := NextItem(format, i);
      && ItemKept(item, args, size, length)
      && KeepsMeaning(format, j, RestOf(item, args), size + |UncutText(item, args)|, length)
  }

  lemma {:induction false} NoBlankInNumeral(v: nat, base: int, upper: bool)
    requires 2 <= base <= 16
    ensures Numeral(v, base, upper)[0] != ' ' as int
  {
    if v >= base {
      var q := v / base;
      SmallerQuotient(v, base);
      NoBlankInNumeral(q, base, upper);
      assert Numeral(v, base, upper)[0] == Numeral(q, base, upper)[0];
    }
  }

  predicate IsFill(fill: uint8) { fill == ' ' as int || fill == ZERO }

  /** Without filler, a text of several characters does not begin like one. */
  lemma NumeralIsNoFill(v: nat, base: int, upper: bool, fill: uint8)
    requires 2 <= base <= 16 && IsFill(fill)
    ensures |Numeral(v, base, upper)| > 1 ==> Numeral(v, base, upper)[0] != fill
  {
    NoBlankInNumeral(v, base, upper);
    NoLeadingZero(v, base, upper);
  }

  /** A number is printed as digits that are filled up. */
  lemma FieldDigits(kind: uint8, fill: uint8, arg: Arg, least: int, width: int) returns (d: Text)
    requires Accepts(kind, arg) && arg.Number? && kind != 'c' as int && IsFill(fill)
    ensures 1 <= |d| && (|d| > 1 ==> d[0] != fill)
    ensures FieldText(kind, fill, 0, arg) == d
    ensures FieldText(kind, fill, least, arg) == Padded(fill, least, d)
    ensures FieldText(kind, fill, width, arg) == Padded(fill, width, d)
  {
    if kind == 'u' as int {
      d := Numeral(arg.word, 10, false);
      NumeralIsNoFill(arg.word, 10, false, fill);
    } else if kind == 'x' as int {
      d := Numeral(arg.word, 16, false);
      NumeralIsNoFill(arg.word, 16, false, fill);
    } else if kind == 'X' as int {
      d := Numeral(arg.word, 16, true);
      NumeralIsNoFill(arg.word, 16, true, fill);
    } else {
      d := SignedDigits(ToInt32(arg.word), fill, least, width);
    }
    assert Padded(fill, 0, d) == d;
  }

  lemma SignedDigits(value: int32, fill: uint8, least: int, width: int) returns (d: Text)
    requires IsFill(fill)
    ensures 1 <= |d| && (|d| > 1 ==> d[0] != fill)
    ensures SignedText(fill, 0, value) == Padded(fill, 0, d)
    ensures SignedText(fill, least, value) == Padded(fill, least, d)
    ensures SignedText(fill, width, value) == Padded(fill, width, d)
  {
    var digits := Numeral(Magnitude(value), 10, false);
    NumeralIsNoFill(Magnitude(value), 10, false, fill);
    d := if value < 0 then [MINUS] + digits else digits;
  }

  /** The first k - 1 characters of a text that is filled up to k or to more. */
  lemma FrontOfPadded(fill: uint8, k: int, width: int, d: Text)
    requires 1 <= k < width && 1 <= |d| && (|d| > 1 ==> d[0] != fill)
    ensures Front(Padded(fill, k, d), k - 1) == Front(Padded(fill, width, d), k - 1)
       <==> width <= |d| || |d| == 1 || k == 1
  {
    var t, u := Padded(fill, k, d), Padded(fill, width, d);
    if |d| < width && |d| > 1 && k > 1 {
      var p := Max(0, k - |d|);
      assert t[p] == d[0] && u[p] == fill;
      assert Front(t, k - 1)[p] == t[p] && Front(u, k - 1)[p] == u[p];
    } else if |d| < width && k > 1 {
      assert Front(t, k - 1) == Repeat(fill, k - 1) == Front(u, k - 1);
    }
  }

  lemma FieldKeptIff(item: Item, args: seq<Arg>, t: Text, u: Text, size: nat, length: nat)
    requires item.Field? && IsFill(item.fill) && |args| > 0 && Accepts(item.kind, args[0]) && size < length
    requires t == ItemText(item, args, size, length) && u == UncutText(item, args)
    ensures Front(t, length - 1 - size) == Front(u, length - 1 - size) <==> ItemKept(item, args, size, length)
  {
    if args[0].Number? && item.kind != 'c' as int && size + item.width > length {
      var d := FieldDigits(item.kind, item.fill, args[0], length - size, item.width);
      FrontOfPadded(item.fill, length - size, item.width, d);
    }
  }

  /** Two texts that agree in their first n characters. */
  predicate SameFront(s: Text, t: Text, n: int)
    decreases n
  {
    n <= 0 || (SameFront(s, t, n - 1) && At(s, n - 1) == At(t, n - 1) && (n <= |s| <==> n <= |t|))
  }

  lemma {:induction false} SameFrontIsFront(s: Text, t: Text, n: int)
    ensures SameFront(s, t, n) <==> Front(s, n) == Front(t, n)
    decreases n
  {
    if n > 0 {
      SameFrontIsFront(s, t, n - 1);
      FrontGrows(s, n);
      FrontGrows(t, n);
      if Front(s, n) == Front(t, n) {
        assert Front(s, n - 1) == Front(Front(s, n), n - 1) == Front(t, n - 1);
      }
    }
  }

  lemma FrontGrows(t: Text, n: int)
    requires n > 0
    ensures Front(t, n) == Front(t, n - 1) + if n <= |t| then [t[n - 1]] else []
    ensures |Front(t, n)| == Min(|t|, n)
  {
  }

  /** The two texts. */
  function Made(format: Text, i: nat, args: seq<Arg>, size: nat, length: nat): Text
    requires i <= |format| && Matches(format, i, args)
  {
    Produce(format, i, args, size, length).text
  }

  function Meant(format: Text, i: nat, args: seq<Arg>): Text
    requires i <= |format| && Matches(format, i, args)
  {
    Render(format, i, args).text
  }

  /** The first item, and what follows it. */
  lemma SplitTexts(format: Text, i: nat, args: seq<Arg>, size: nat, length: nat)
    returns (j: nat, rest: seq<Arg>, t: Text, u: Text, made: nat, meant: nat, kept: bool)
    requires i < |format| && Matches(format, i, args) && size < length && !NextItem(format, i).0.Bad?
    ensures i < j <= |format| && Matches(format, j, rest)
    ensures made == size + |t| && meant == size + |u|
    ensures Made(format, i, args, size, length) == t + Made(format, j, rest, made, length)
    ensures Meant(format, i, args) == u + Meant(format, j, rest)
    ensures (t == u && made == meant) || (length <= made && length <= meant)
    ensures SameFront(t, u, length - 1 - size) <==> kept
    ensures KeepsMeaning(format, i, args, size, length) <==> kept && KeepsMeaning(format, j, rest, meant, length)
  {
    var item := NextItem(format, i).0;
    j, rest := NextItem(format, i).1, RestOf(item, args);
    t, u := ItemText(item, args, size, length), UncutText(item, args);
    made, meant, kept := size + |t|, size + |u|, ItemKept(item, args, size, length);
    MadeSplits(format, i, args, size, length, t, made);
    MeantSplits(format, i, args, u);
    ItemKeptIff(item, args, t, u, size, length, made, meant, kept);
    KeepsStep(format, i, args, size, length, meant, kept);
  }

  lemma MadeSplits(format: Text, i: nat, args: seq<Arg>, size: nat, length: nat, t: Text, made: nat)
    requires i < |format| && Matches(format, i, args) && size < length && !NextItem(format, i).0.Bad?
    requires t == ItemText(NextItem(format, i).0, args, size, length) && made == size + |t|
    ensures var (item, j) := NextItem(format, i);
            && j <= |format| && Matches(format, j, RestOf(item, args)) && IsFill(FillOf(item))
            && Made(format, i, args, size, length) == t + Made(format, j, RestOf(item, args), made, length)
  {
    ProduceItem(format, i, args, size, length, t);
  }

  lemma MeantSplits(format: Text, i: nat, args: seq<Arg>, u: Text)
    requires i < |format| && Matches(format, i, args) && !NextItem(format, i).0.Bad?
    requires u == UncutText(NextItem(format, i).0, args)
    ensures var (item, j) := NextItem(format, i);
            && j <= |format| && Matches(format, j, RestOf(item, args))
            && Meant(format, i, args) == u + Meant(format, j, RestOf(item, args))
  {
    RenderItem(format, i, args, u);
  }

  lemma KeepsStep(format: Text, i: nat, args: seq<Arg>, size: nat, length: nat, more: nat, kept: bool)
    requires i < |format| && Matches(format, i, args) && size < length && !NextItem(format, i).0.Bad?
    requires more == size + |UncutText(NextItem(format, i).0, args)|
    requires kept == ItemKept(NextItem(format, i).0, args, size, length)
    ensures var (item, j) := NextItem(format, i);
            KeepsMeaning(format, i, args, size, length)
            <==> kept && KeepsMeaning(format, j, RestOf(item, args), more, length)
  {
  }

  /** An item is not cut and what follows decides, or nothing follows. */
  lemma FrontStep(format: Text, i: nat, args: seq<Arg>, size: nat, length: nat)
    returns (j: nat, rest: seq<Arg>, more: nat, kept: bool)
    requires i < |format| && Matches(format, i, args) && size < length && !NextItem(format, i).0.Bad?
    ensures i < j <= |format| && Matches(format, j, rest)
    ensures KeepsMeaning(format, i, args, size, length) <==> kept && KeepsMeaning(format, j, rest, more, length)
    ensures SameFront(Made(format, i, args, size, length), Meant(format, i, args), length - 1 - size)
       <==> kept && SameFront(Made(format, j, rest, more, length), Meant(format, j, rest), length - 1 - more)
  {
    var t, u, made;
    j, rest, t, u, made, more, kept := SplitTexts(format, i, args, size, length);
    FrontsOfItem(Made(format, i, args, size, length), t, Made(format, j, rest, made, length),
                 Meant(format, i, args), u, Meant(format, j, rest), Made(format, j, rest, more, length),
                 length - 1 - size, length - 1 - more, kept);
  }

  function FillOf(item: Item): uint8 { if item.Field? then item.fill else ZERO }

  lemma ItemKeptIff(item: Item, args: seq<Arg>, t: Text, u: Text, size: nat, length: nat, made: nat, meant: nat,
                    kept: bool)
    requires !item.Bad? && (item.Field? ==> |args| > 0 && Accepts(item.kind, args[0])) && size < length
    requires t == ItemText(item, args, size, length) && u == UncutText(item, args) && IsFill(FillOf(item))
    requires made == size + |t| && meant == size + |u| && kept == ItemKept(item, args, size, length)
    ensures (t == u && made == meant) || (length <= made && length <= meant)
    ensures SameFront(t, u, length - 1 - size) <==> kept
  {
    ItemIsCut(item, args, t, u, size, length);
    SameFrontIsFront(t, u, length - 1 - size);
    if item.Field? {
      FieldKeptIff(item, args, t, u, size, length);
    }
  }

  lemma ItemIsCut(item: Item, args: seq<Arg>, t: Text, u: Text, size: nat, length: nat)
    requires !item.Bad? && (item.Field? ==> |args| > 0 && Accepts(item.kind, args[0])) && size < length
    requires t == ItemText(item, args, size, length) && u == UncutText(item, args)
    ensures t == u || (item.Field? && length <= size + |t| && length <= size + |u|)
  {
    if item.Field? {
      CutField(item.kind, item.fill, item.width, args[0], size, length);
    }
  }

  lemma FrontsOfItem(p: Text, t: Text, x: Text, m: Text, u: Text, y: Text, z: Text, n: int, left: int, kept: bool)
    requires p == t + x && m == u + y && left == n - |u| && (SameFront(t, u, n) <==> kept)
    requires if t == u then x == z else n < |t| && n < |u|
    ensures SameFront(p, m, n) <==> kept && SameFront(z, y, left)
  {
    if t == u {
      SameFrontOfSum(t, x, y, n, left);
    } else {
      SameFrontOfLong(t, x, u, y, n);
      SameFrontIsFront(z, y, left);
    }
  }

  lemma FrontOfSum(t: Text, x: Text, y: Text, n: int)
    ensures Front(t + x, n) == Front(t + y, n) <==> Front(x, n - |t|) == Front(y, n - |t|)
  {
    if |t| < n {
      assert Front(t + x, n) == t + Front(x, n - |t|);
      assert Front(t + y, n) == t + Front(y, n - |t|);
      assert Front(x, n - |t|) == (t + Front(x, n - |t|))[|t|..];
      assert Front(y, n - |t|) == (t + Front(y, n - |t|))[|t|..];
    } else {
      LongFront(t, x, n);
      LongFront(t, y, n);
    }
  }

  lemma LongFront(t: Text, x: Text, n: int)
    requires n <= |t|
    ensures Front(t + x, n) == Front(t, n)
  {
  }

  lemma SameFrontOfSum(t: Text, x: Text, y: Text, n: int, left: int)
    requires left == n - |t|
    ensures SameFront(t, t, n)
    ensures SameFront(t + x, t + y, n) <==> SameFront(x, y, left)
  {
    FrontOfSum(t, x, y, n);
    SameFrontIsFront(t, t, n);
    SameFrontIsFront(t + x, t + y, n);
    SameFrontIsFront(x, y, left);
  }

  lemma SameFrontOfLong(t: Text, x: Text, u: Text, y: Text, n: int)
    requires n <= |t| && n <= |u|
    ensures SameFront(t + x, u + y, n) <==> SameFront(t, u, n)
  {
    LongFront(t, x, n);
    LongFront(u, y, n);
    SameFrontIsFront(t, u, n);
    SameFrontIsFront(t + x, u + y, n);
  }

  lemma {:induction false} SameFrontIff(format: Text, i: nat, args: seq<Arg>, size: nat, length: nat)
    requires i <= |format| && Matches(format, i, args)
    ensures SameFront(Made(format, i, args, size, length), Meant(format, i, args), length - 1 - size)
       <==> KeepsMeaning(format, i, args, size, length)
    decreases |format| - i
  {
    if i < |format| && size < length && !NextItem(format, i).0.Bad? {
      var j, rest, more, kept := FrontStep(format, i, args, size, length);
      SameFrontIff(format, j, rest, more, length);
    } else {
      SameFrontIsFront(Made(format, i, args, size, length), Meant(format, i, args), length - 1 - size);
    }
  }

  /** What is kept is what the format means, cut one short of the length, exactly if no
      field is cut in a way that shows. */
  lemma KeptIsMeantIff(format: Text, args: seq<Arg>, length: nat)
    requires Matches(format, 0, args) && 0 < length
    ensures Kept(Produce(format, 0, args, 0, length).text, length) == Kept(Render(format, 0, args).text, length)
       <==> KeepsMeaning(format, 0, args, 0, length)
  {
    SameFrontIff(format, 0, args, 0, length);
    SameKept(Made(format, 0, args, 0, length), Meant(format, 0, args), length, length - 1);
  }

  lemma SameKept(s: Text, t: Text, length: nat, n: int)
    requires 0 < length && n == length - 1
    ensures Kept(s, length) == Kept(t, length) <==> SameFront(s, t, n)
  {
    SameFrontIsFront(s, t, n);
    assert Kept(s, length) == Front(s, n) && Kept(t, length) == Front(t, n);
  }

  /** "%8d" of 12 leaves "   1" in five cells, where C11's cut leaves four blanks. */
  lemma CutShows()
    ensures var format, args := [PERCENT, '8' as int, 'd' as int], [Number(12)];
            && Matches(format, 0, args)
            && Kept(Produce(format, 0, args, 0, 5).text, 5) == Repeat(' ' as int, 3) + ['1' as int]
            && Kept(Render(format, 0, args).text, 5) == Repeat(' ' as int, 4)
  {
    var format, args := [PERCENT, '8' as int, 'd' as int], [Number(12)];
    assert ParseWidth(format, 1, 0) == ParseWidth(format, 2, 8) == (8, 2);
    assert NextItem(format, 0) == (Field('d' as int, ' ' as int, 8), 3);
    assert Numeral(12, 10, false) == ['1' as int, '2' as int];
    assert FieldText('d' as int, ' ' as int, 5, args[0]) == Repeat(' ' as int, 3) + ['1' as int, '2' as int];
    assert FieldText('d' as int, ' ' as int, 8, args[0]) == Repeat(' ' as int, 6) + ['1' as int, '2' as int];
  }

  lemma {:induction false} MeantIsDone(format: Text, i: nat, args: seq<Arg>, size: nat, length: nat)
    requires i <= |format| && Matches(format, i, args) && Render(format, i, args).Done?
    ensures Produce(format, i, args, size, length).Done?
    decreases |format| - i
  {
    if i < |format| && size < length {
      var (item, j) := NextItem(format, i);
      MeantIsDone(format, j, RestOf(item, args), size + |ItemText(item, args, size, length)|, length);
    }
  }

  lemma DoneAsMeant(format: Text, args: seq<Arg>, length: nat, o: Output, meant: Output)
    requires Matches(format, 0, args) && 0 < length
    requires o == Produce(format, 0, args, 0, length) && meant == Render(format, 0, args)
    ensures meant.Done? && KeepsMeaning(format, 0, args, 0, length) ==>
              o.Done? && Kept(o.text, length) == Kept(meant.text, length)
  {
    KeptIsMeantIff(format, args, length);
    if meant.Done? {
      MeantIsDone(format, 0, args, 0, length);
    }
  }

  lemma RestIsKept(before: Text, o: Output, length: nat)
    requires 0 < length <= |before| && |o.text| <= length
    ensures BufferAfter(before, o, length)[length..] == before[length..]
  {
  }

  /** A buffer of `length` characters is enough under a condition that can be told
      from the arguments; this is the string that the caller then finds in it. */
  method Snprintf(buf: array<uint8>, length: nat, format: Text, args: seq<Arg>) returns (result: int32)
    requires 0 < length <= buf.Length < 0x7fff_0000
    requires Matches(format, 0, args) && StaysWithin(format, 0, args, 0, length)
    modifies buf
    ensures buf[length..] == old(buf[length..])
    ensures var o := Produce(format, 0, args, 0, length);
            && |o.text| <= length
            && (o.Done? ==> result == |Kept(o.text, length)|
                            && buf[..] == Written(old(buf[..]), 0, Kept(o.text, length) + [0]))
            && (o.Eof? ==> result == -1
                           && buf[..] == Written(old(buf[..]), 0, if o.text == [] then [0] else o.text))
    ensures var meant := Render(format, 0, args);
            meant.Done? && KeepsMeaning(format, 0, args, 0, length) ==>
              && result == |Kept(meant.text, length)|
              && buf[..] == Written(old(buf[..]), 0, Kept(meant.text, length) + [0])
  {
    WithinIff(format, 0, args, 0, length);
    StringIsLeft(buf[..], Produce(format, 0, args, 0, length), length);
    RestIsKept(buf[..], Produce(format, 0, args, 0, length), length);
    DoneAsMeant(format, args, length, Produce(format, 0, args, 0, length), Render(format, 0, args));
    result := Vsnprintf(buf, length, format, args);
  }
}
