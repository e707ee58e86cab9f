/** When a line of the DMA2D driver is the line asked for, cut to the screen: a
    condition on its end points. */
module DmaLines {
  import opened CTypes
  import opened Panels
  import opened Lines
  import opened DmaFigures

  /** What a pixel with 16-bit coordinates really draws: above the screen it goes to
      row 0, in column -1 it is lost, and farther left it becomes a whole row, since
      its length of 1 turns negative and wraps. */
  lemma PixelMarks(w: int, h: int, q: Point, p: Point)
    requires 0 < w < 0x4000 && 0 < h < 0x4000 && -0x8000 <= q.x < 0x8000 && -0x8000 <= q.y < 0x8000
    ensures PixelDrawn(w, h, q, p) <==>
            q.x < w && q.y < h && p.y == Max(q.y, 0) && if q.x >= 0 then p.x == q.x else q.x < -1 && 0 <= p.x < w
  {
  }

  /** All that pixel `q` draws belongs to line `l`. */
  ghost predicate MarksLine(w: int, h: int, l: Line, q: Point) {
    q.x < w && q.y < h ==>
      if q.x >= 0 then Point(q.x, Max(q.y, 0)) in l.DmaPixels()
      else q.x == -1 || forall x :: 0 <= x < w ==> Point(x, Max(q.y, 0)) in l.DmaPixels()
  }

  lemma MarksLineIff(w: int, h: int, l: Line, q: Point)
    requires 0 < w < 0x4000 && 0 < h < 0x4000 && -0x8000 <= q.x < 0x8000 && -0x8000 <= q.y < 0x8000
    ensures MarksLine(w, h, l, q) <==> forall p :: OnScreen(w, h, p) && PixelDrawn(w, h, q, p) ==> p in l.DmaPixels()
  {
    forall p
      ensures PixelDrawn(w, h, q, p) <==>
              q.x < w && q.y < h && p.y == Max(q.y, 0) && if q.x >= 0 then p.x == q.x else q.x < -1 && 0 <= p.x < w
    {
      PixelMarks(w, h, q, p);
    }
    if q.x < w && q.y < h && q.x != -1 {
      if q.x >= 0 {
        assert PixelDrawn(w, h, q, Point(q.x, Max(q.y, 0)));
      } else {
        forall x | 0 <= x < w
          ensures PixelDrawn(w, h, q, Point(x, Max(q.y, 0)))
        {
        }
      }
    }
  }

  /** The picture is right. */
  ghost predicate IsClipped(w: int, h: int, l: Line) {
    forall p :: OnScreen(w, h, p) ==> (LineDrawn(w, h, l, p) <==> p in l.DmaPixels())
  }

  lemma DrawnByPixel(w: int, h: int, l: Line, q: Point, p: Point)
    requires q in l.DmaPixels() && PixelDrawn(w, h, q, p)
    ensures LineDrawn(w, h, l, p)
  {
    var k :| 0 <= k <= l.Long() && q == l.DmaPixel(k);
  }

  lemma PixelMarksLine(w: int, h: int, l: Line, q: Point)
    requires 0 < w < 0x4000 && 0 < h < 0x4000 && FitsWalk(l) && q in l.DmaPixels() && IsClipped(w, h, l)
    ensures MarksLine(w, h, l, q)
  {
    var k :| 0 <= k <= l.Long() && q == l.DmaPixel(k);
    WithinBox(l, k);
    forall p | OnScreen(w, h, p) && PixelDrawn(w, h, q, p)
      ensures p in l.DmaPixels()
    {
      DrawnByPixel(w, h, l, q, p);
    }
    MarksLineIff(w, h, l, q);
  }

  lemma DrawnOnLine(w: int, h: int, l: Line, p: Point)
    requires 0 < w < 0x4000 && 0 < h < 0x4000 && FitsWalk(l) && OnScreen(w, h, p)
    requires forall q :: q in l.DmaPixels() ==> MarksLine(w, h, l, q)
    ensures LineDrawn(w, h, l, p) <==> p in l.DmaPixels()
  {
    if p in l.DmaPixels() {
      PixelOnScreen(w, h, p, p);
      DrawnByPixel(w, h, l, p, p);
    } else if LineDrawn(w, h, l, p) {
      var k :| 0 <= k <= l.Long() && PixelDrawn(w, h, l.DmaPixel(k), p);
      WithinBox(l, k);
      MarksLineIff(w, h, l, l.DmaPixel(k));
    }
  }

  /** Pixel by pixel: what is drawn for the pixels beyond the left and the upper edge
      belongs to the line anyway. */
  lemma ClippedByPixels(w: int, h: int, l: Line)
    requires 0 < w < 0x4000 && 0 < h < 0x4000 && FitsWalk(l)
    ensures IsClipped(w, h, l) <==> forall q :: q in l.DmaPixels() ==> MarksLine(w, h, l, q)
  {
    if IsClipped(w, h, l) {
      forall q | q in l.DmaPixels()
        ensures MarksLine(w, h, l, q)
      {
        PixelMarksLine(w, h, l, q);
      }
    } else if forall q :: q in l.DmaPixels() ==> MarksLine(w, h, l, q) {
      forall p | OnScreen(w, h, p)
        ensures LineDrawn(w, h, l, p) <==> p in l.DmaPixels()
      {
        DrawnOnLine(w, h, l, p);
      }
    }
  }

  // --- The row of a column, and the column of a row ---

  function Left(l: Line): int { Min(l.x1, l.x2) }
  function Right(l: Line): int { Max(l.x1, l.x2) }
  function Top(l: Line): int { Min(l.y1, l.y2) }
  function Bottom(l: Line): int { Max(l.y1, l.y2) }

  predicate Flat(l: Line) { l.Dx() >= l.Dy() }

  /** The row in which a flat line crosses column x, and the column in which a steep
      one crosses row y. */
  function Row(l: Line, x: int): int { l.AlongY(l.DmaShort(Abs(x - l.x1))) }
  function Column(l: Line, y: int): int { l.AlongX(l.DmaShort(Abs(y - l.y1))) }

  function Exchanged(l: Line): Line { Line(l.y1, l.x1, l.y2, l.x2) }

  lemma ColumnIsRow(l: Line, y: int)
    requires !Flat(l)
    ensures Flat(Exchanged(l)) && Column(l, y) == Row(Exchanged(l), y)
  {
  }

  lemma FlatPixel(l: Line, p: Point)
    requires Flat(l)
    ensures p in l.DmaPixels() <==> Left(l) <= p.x <= Right(l) && p.y == Row(l, p.x)
  {
    if Left(l) <= p.x <= Right(l) && p.y == Row(l, p.x) {
      assert p == l.DmaPixel(Abs(p.x - l.x1));
    }
  }

  lemma SteepPixel(l: Line, p: Point)
    requires !Flat(l)
    ensures p in l.DmaPixels() <==> Top(l) <= p.y <= Bottom(l) && p.x == Column(l, p.y)
  {
    if Top(l) <= p.y <= Bottom(l) && p.x == Column(l, p.y) {
      assert p == l.DmaPixel(Abs(p.y - l.y1));
    }
  }

  lemma {:induction false} ShortMonotone(l: Line, i: nat, j: nat)
    requires i <= j
    ensures l.DmaShort(i) <= l.DmaShort(j)
  {
    if i < j {
      ShortMonotone(l, i, j - 1);
      Connected(l, j - 1);
    }
  }

  lemma RowStep(l: Line, x: int)
    requires Flat(l) && Left(l) <= x < Right(l)
    ensures -1 <= Row(l, x + 1) - Row(l, x) <= 1
  {
    Connected(l, Min(Abs(x - l.x1), Abs(x + 1 - l.x1)));
  }

  /** Between two columns the rows lie between theirs ... */
  lemma RowBetween(l: Line, a: int, x: int, b: int)
    requires Flat(l) && Left(l) <= a <= x <= b <= Right(l)
    ensures Row(l, a) <= Row(l, x) <= Row(l, b) || Row(l, b) <= Row(l, x) <= Row(l, a)
  {
    var i, k, j := Abs(a - l.x1), Abs(x - l.x1), Abs(b - l.x1);
    if l.x1 <= l.x2 {
      ShortMonotone(l, i, k);
      ShortMonotone(l, k, j);
    } else {
      ShortMonotone(l, j, k);
      ShortMonotone(l, k, i);
    }
  }

  /** ... and every row between theirs is reached. */
  lemma {:induction false} RowReaches(l: Line, a: int, b: int, y: int) returns (x: int)
    requires Flat(l) && Left(l) <= a <= b <= Right(l)
    requires Row(l, a) <= y <= Row(l, b) || Row(l, b) <= y <= Row(l, a)
    ensures a <= x <= b && Row(l, x) == y
    decreases b - a
  {
    x := a;
    if Row(l, a) != y {
      RowStep(l, a);
      x := RowReaches(l, a + 1, b, y);
    }
  }

  lemma ColumnBetween(l: Line, a: int, y: int, b: int)
    requires !Flat(l) && Top(l) <= a <= y <= b <= Bottom(l)
    ensures Column(l, a) <= Column(l, y) <= Column(l, b) || Column(l, b) <= Column(l, y) <= Column(l, a)
  {
    ColumnIsRow(l, a);
    ColumnIsRow(l, y);
    ColumnIsRow(l, b);
    RowBetween(Exchanged(l), a, y, b);
  }

  lemma ColumnReaches(l: Line, a: int, b: int, x: int) returns (y: int)
    requires !Flat(l) && Top(l) <= a <= b <= Bottom(l)
    requires Column(l, a) <= x <= Column(l, b) || Column(l, b) <= x <= Column(l, a)
    ensures a <= y <= b && Column(l, y) == x
  {
    ColumnIsRow(l, a);
    ColumnIsRow(l, b);
    y := RowReaches(Exchanged(l), a, b, x);
    ColumnIsRow(l, y);
  }

  // --- Flat lines ---

  /** A pixel left of column -1, in a row that is not below the screen, becomes a whole row. */
  predicate FillsRow(h: int, l: Line) {
    Left(l) < -1 && (Row(l, Left(l)) < h || Row(l, Min(-2, Right(l))) < h)
  }

  /** The line covers a whole row of the screen, and no other row is filled. */
  predicate CoversRow(w: int, h: int, l: Line) {
    var r, s := Row(l, 0), Row(l, Left(l));
    && w - 1 <= Right(l) && Row(l, w - 1) == r && 0 <= r < h
    && (s == r || (r == h - 1 && s > r) || (r == 0 && s < 0))
  }

  /** No column of the screen is crossed above it, and where rows are filled the line
      covers them. */
  predicate FlatFits(w: int, h: int, l: Line) {
    var a, b := Max(Left(l), 0), Min(Right(l), w - 1);
    && (a <= b ==> Row(l, a) >= 0 && Row(l, b) >= 0)
    && (FillsRow(h, l) ==> CoversRow(w, h, l))
  }

  predicate Covers(l: Line, x: int, y: int) { Left(l) <= x <= Right(l) && Row(l, x) == y }

  predicate CoversRowAt(w: int, l: Line, y: int) { forall x :: 0 <= x < w ==> Covers(l, x, y) }

  lemma RowIsCovered(w: int, l: Line, y: int)
    requires Flat(l)
    ensures (forall x :: 0 <= x < w ==> Point(x, y) in l.DmaPixels()) <==> CoversRowAt(w, l, y)
  {
    forall x
      ensures Point(x, y) in l.DmaPixels() <==> Covers(l, x, y)
    {
      FlatPixel(l, Point(x, y));
    }
  }

  lemma FlatMarks(w: int, h: int, l: Line, x: int, y: int)
    requires 0 < w && 0 < h && Flat(l) && Left(l) <= x <= Right(l) && y == Row(l, x)
    ensures MarksLine(w, h, l, Point(x, y))
       <==> (0 <= x < w ==> y >= 0) && (x < -1 && y < h ==> CoversRowAt(w, l, Max(y, 0)))
  {
    RowIsCovered(w, l, Max(y, 0));
    FlatPixel(l, Point(x, Max(y, 0)));
  }

  lemma FlatPixelFits(w: int, h: int, l: Line, x: int, y: int)
    requires 0 < w && 0 < h && Flat(l) && Left(l) <= x <= Right(l) && y == Row(l, x) && FlatFits(w, h, l)
    ensures MarksLine(w, h, l, Point(x, y))
  {
    FlatMarks(w, h, l, x, y);
    if 0 <= x < w {
      RowBetween(l, Max(Left(l), 0), x, Min(Right(l), w - 1));
    } else if x < -1 && y < h {
      RowBetween(l, Left(l), x, Min(-2, Right(l)));
      RowBetween(l, Left(l), x, 0);
      WholeRow(w, l, Row(l, 0));
    }
  }

  lemma WholeRow(w: int, l: Line, r: int)
    requires 0 < w && Flat(l) && Left(l) <= 0 && w - 1 <= Right(l) && Row(l, 0) == r == Row(l, w - 1)
    ensures CoversRowAt(w, l, r)
  {
    forall x | 0 <= x < w
      ensures Covers(l, x, r)
    {
      RowBetween(l, 0, x, w - 1);
    }
  }

  lemma FlatMisfit(w: int, h: int, l: Line) returns (x: int, y: int)
    requires 0 < w && 0 < h && Flat(l) && !FlatFits(w, h, l)
    ensures Left(l) <= x <= Right(l) && y == Row(l, x) && !MarksLine(w, h, l, Point(x, y))
  {
    var a, b := Max(Left(l), 0), Min(Right(l), w - 1);
    if a <= b && Row(l, a) < 0 {
      x, y := a, Row(l, a);
    } else if a <= b && Row(l, b) < 0 {
      x, y := b, Row(l, b);
    } else {
      x, y := RowMisfit(w, h, l, Row(l, 0), Row(l, Left(l)));
    }
    FlatMarks(w, h, l, x, y);
  }

  lemma RowMisfit(w: int, h: int, l: Line, r: int, s: int) returns (x: int, y: int)
    requires 0 < w && 0 < h && Flat(l) && FillsRow(h, l) && !CoversRow(w, h, l)
    requires r == Row(l, 0) && s == Row(l, Left(l))
    ensures Left(l) <= x < -1 && x <= Right(l) && y == Row(l, x) && y < h && !CoversRowAt(w, l, Max(y, 0))
  {
    if s < h {
      x, y := Left(l), s;
    } else {
      x := Min(-2, Right(l));
      y := Row(l, x);
      if w - 1 <= Right(l) && 0 <= r < h - 1 {
        x := RowReaches(l, Left(l), x, h - 1);
        y := h - 1;
      }
    }
    OtherRow(w, l, r, Max(y, 0));
  }

  lemma OtherRow(w: int, l: Line, r: int, y: int)
    requires 0 < w && r == Row(l, 0) && (Right(l) < w - 1 || Row(l, w - 1) != r || r != y)
    ensures !CoversRowAt(w, l, y)
  {
    assert CoversRowAt(w, l, y) ==> Covers(l, 0, y) && Covers(l, w - 1, y);
  }

  lemma FlatIff(w: int, h: int, l: Line)
    requires 0 < w && 0 < h && Flat(l)
    ensures (forall q :: q in l.DmaPixels() ==> MarksLine(w, h, l, q)) <==> FlatFits(w, h, l)
  {
    if FlatFits(w, h, l) {
      forall q | q in l.DmaPixels()
        ensures MarksLine(w, h, l, q)
      {
        FlatPixel(l, q);
        FlatPixelFits(w, h, l, q.x, q.y);
      }
    } else {
      var x, y := FlatMisfit(w, h, l);
      FlatPixel(l, Point(x, y));
    }
  }

  // --- Steep lines ---

  /** Some pixel above the screen is drawn in row 0. */
  predicate FallsDown(w: int, l: Line) {
    && Top(l) < 0
    && var e, f := Column(l, Top(l)), Column(l, Min(Bottom(l), -1));
       Min(e, f) < w && !(e == -1 && f == -1)
  }

  /** The line has a pixel in row 0, and no other one of that row is drawn. */
  predicate CatchesFall(w: int, l: Line) {
    var c, e := Column(l, 0), Column(l, Top(l));
    && 0 <= Bottom(l) && 0 <= c < w
    && (e == c || (c == w - 1 && e > c) || (c == 0 && (e == -1 || (w == 1 && e < -1))))
  }

  /** No row of the screen is crossed left of column -1, and what falls down belongs to
      the line. */
  predicate SteepFits(w: int, h: int, l: Line) {
    var a, b := Max(Top(l), 0), Min(Bottom(l), h - 1);
    && (a <= b ==> Column(l, a) >= -1 && Column(l, b) >= -1)
    && (FallsDown(w, l) ==> CatchesFall(w, l))
  }

  /** What a pixel in column x above the screen draws in row 0 is the line's pixel there,
      in column c. */
  predicate IsCaught(w: int, l: Line, x: int, c: int) {
    x >= w || x == -1 || (0 <= Bottom(l) && if x >= 0 then x == c else w == 1 && c == 0)
  }

  lemma RowIsMarked(w: int, l: Line, y: int, c: int)
    requires 0 < w && !Flat(l) && Top(l) <= y && c == Column(l, y)
    ensures (forall x :: 0 <= x < w ==> Point(x, y) in l.DmaPixels()) <==> y <= Bottom(l) && w == 1 && c == 0
  {
    SteepPixel(l, Point(0, y));
    if w > 1 {
      SteepPixel(l, Point(1, y));
    }
  }

  lemma SteepMarks(w: int, h: int, l: Line, x: int, y: int)
    requires 0 < w && 0 < h && !Flat(l) && Top(l) <= y <= Bottom(l) && x == Column(l, y)
    ensures MarksLine(w, h, l, Point(x, y))
       <==> if y < 0 then IsCaught(w, l, x, Column(l, 0)) else y < h ==> x >= -1
  {
    var z := Max(y, 0);
    SteepPixel(l, Point(x, z));
    RowIsMarked(w, l, z, Column(l, z));
  }

  lemma SteepPixelFits(w: int, h: int, l: Line, x: int, y: int)
    requires 0 < w && 0 < h && !Flat(l) && Top(l) <= y <= Bottom(l) && x == Column(l, y) && SteepFits(w, h, l)
    ensures MarksLine(w, h, l, Point(x, y))
  {
    SteepMarks(w, h, l, x, y);
    if 0 <= y < h {
      ColumnBetween(l, Max(Top(l), 0), y, Min(Bottom(l), h - 1));
    } else if y < 0 {
      ColumnBetween(l, Top(l), y, Min(Bottom(l), -1));
      if 0 <= Bottom(l) {
        ColumnBetween(l, Top(l), y, 0);
      }
    }
  }

  lemma SteepMisfit(w: int, h: int, l: Line) returns (x: int, y: int)
    requires 0 < w && 0 < h && !Flat(l) && !SteepFits(w, h, l)
    ensures Top(l) <= y <= Bottom(l) && x == Column(l, y) && !MarksLine(w, h, l, Point(x, y))
  {
    var a, b := Max(Top(l), 0), Min(Bottom(l), h - 1);
    if a <= b && Column(l, a) < -1 {
      x, y := Column(l, a), a;
    } else if a <= b && Column(l, b) < -1 {
      x, y := Column(l, b), b;
    } else {
      x, y := FallMisfit(w, l, Column(l, 0), Column(l, Top(l)));
    }
    SteepMarks(w, h, l, x, y);
  }

  lemma FallMisfit(w: int, l: Line, c: int, e: int) returns (x: int, y: int)
    requires 0 < w && !Flat(l) && FallsDown(w, l) && !CatchesFall(w, l)
    requires c == Column(l, 0) && e == Column(l, Top(l))
    ensures Top(l) <= y < 0 && y <= Bottom(l) && x == Column(l, y) && !IsCaught(w, l, x, c)
  {
    if 0 <= Bottom(l) && 0 <= c < w {
      x, y := CaughtBeside(w, l, c, e);
    } else {
      x, y := Falling(w, l, e, Column(l, Min(Bottom(l), -1)));
    }
  }

  lemma CaughtBeside(w: int, l: Line, c: int, e: int) returns (x: int, y: int)
    requires 0 < w && !Flat(l) && Top(l) < 0 <= Bottom(l) && c == Column(l, 0) && e == Column(l, Top(l))
    requires 0 <= c < w && e != c && (c == w - 1 ==> e < c) && (c == 0 ==> e != -1 && (w == 1 ==> -1 <= e))
    ensures Top(l) <= y < 0 && x == Column(l, y) && !IsCaught(w, l, x, c)
  {
    x, y := e, Top(l);
    if e == -1 {
      x := 0;
      y := ColumnReaches(l, Top(l), 0, x);
    } else if e >= w {
      x := w - 1;
      y := ColumnReaches(l, Top(l), 0, x);
    }
  }

  lemma Falling(w: int, l: Line, e: int, f: int) returns (x: int, y: int)
    requires 0 < w && !Flat(l) && Top(l) < 0 && Min(e, f) < w && !(e == -1 && f == -1)
    requires e == Column(l, Top(l)) && f == Column(l, Min(Bottom(l), -1))
    ensures Top(l) <= y < 0 && y <= Bottom(l) && x == Column(l, y) && x < w && x != -1
  {
    if e < w && e != -1 {
      x, y := e, Top(l);
    } else if f < w && f != -1 {
      x, y := f, Min(Bottom(l), -1);
    } else {
      x := 0;
      y := ColumnReaches(l, Top(l), Min(Bottom(l), -1), x);
    }
  }

  lemma SteepIff(w: int, h: int, l: Line)
    requires 0 < w && 0 < h && !Flat(l)
    ensures (forall q :: q in l.DmaPixels() ==> MarksLine(w, h, l, q)) <==> SteepFits(w, h, l)
  {
    if SteepFits(w, h, l) {
      forall q | q in l.DmaPixels()
        ensures MarksLine(w, h, l, q)
      {
        SteepPixel(l, q);
        SteepPixelFits(w, h, l, q.x, q.y);
      }
    } else {
      var x, y := SteepMisfit(w, h, l);
      SteepPixel(l, Point(x, y));
    }
  }

  /** A condition on the columns and rows in which the line crosses the edges. */
  predicate LineFits(w: int, h: int, l: Line) { if Flat(l) then FlatFits(w, h, l) else SteepFits(w, h, l) }

  /** A line between any end points is the closed form, cut to the screen, exactly under
      that condition. */
  lemma LineIsClippedIff(w: int, h: int, l: Line)
    requires 0 < w < 0x4000 && 0 < h < 0x4000 && FitsWalk(l)
    ensures (forall p :: OnScreen(w, h, p) ==> (LineDrawn(w, h, l, p) <==> p in l.DmaPixels()))
       <==> LineFits(w, h, l)
  {
    ClippedByPixels(w, h, l);
    if Flat(l) {
      FlatIff(w, h, l);
    } else {
      SteepIff(w, h, l);
    }
  }

  /** The condition holds for all lines that stay within column -1 and row 0, however
      far they reach over the right and the lower edge. */
  lemma LineIsClipped(w: int, h: int, l: Line)
    requires 0 < w < 0x4000 && 0 < h < 0x4000 && FitsWalk(l)
    requires -1 <= l.x1 && -1 <= l.x2 && 0 <= l.y1 && 0 <= l.y2
    ensures forall p :: OnScreen(w, h, p) ==> (LineDrawn(w, h, l, p) <==> p in l.DmaPixels())
  {
    forall k | 0 <= k <= l.Long()
      ensures MarksLine(w, h, l, l.DmaPixel(k))
    {
      WithinBox(l, k);
    }
    ClippedByPixels(w, h, l);
  }

  /** From (-2, 0) to (0, 1) the whole of row 0 is drawn. */
  lemma LeftOverhangFillsRow(w: int, h: int)
    requires 2 < w < 0x4000 && 1 < h < 0x4000
    ensures var l := Line(-2, 0, 0, 1); LineDrawn(w, h, l, Point(2, 0)) && Point(2, 0) !in l.DmaPixels()
  {
    var l := Line(-2, 0, 0, 1);
    Connected(l, 0);
    PixelMarks(w, h, l.DmaPixel(0), Point(2, 0));
    forall k | 0 <= k <= l.Long()
      ensures l.DmaPixel(k) != Point(2, 0)
    {
      WithinBox(l, k);
    }
  }
}
