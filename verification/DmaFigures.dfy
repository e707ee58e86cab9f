/** What the DMA2D driver really draws on a screen of `w` x `h` pixels, including
    what it makes of coordinates that lie off the screen, and when that is the
    figure asked for. */
module DmaFigures {
  import opened CTypes
  import opened Panels
  import opened Lines

  ghost predicate OnScreen(w: int, h: int, p: Point) { 0 <= p.x < w && 0 <= p.y < h }

  /** A horizontal line: the part left of the screen is taken off the length in 16
      unsigned bits, a negative row becomes row 0. */
  ghost predicate HorizontalDrawn(w: int, h: int, x: int16, y: int16, length: uint16, p: Point) {
    && x < w && y < h && length != 0
    && p.y == (if y < 0 then 0 else y) && p.x < w
    && (if x < 0 then 0 <= p.x < ToUint16(length + x) else x <= p.x < x + length)
  }

  ghost function HorizontalPixels(w: int, h: int, x: int16, y: int16, length: uint16): iset<Point> {
    iset p | HorizontalDrawn(w, h, x, y, length, p)
  }

  /** A vertical line: a negative start becomes 0 in both directions, and the part
      above the screen is not taken off the length. */
  ghost predicate VerticalDrawn(w: int, h: int, x: int16, y: int16, length: uint16, p: Point) {
    && x < w && y < h && length != 0
    && p.x == (if x < 0 then 0 else x) && p.y < h
    && (if y < 0 then 0 <= p.y < length else y <= p.y < y + length)
  }

  ghost function VerticalPixels(w: int, h: int, x: int16, y: int16, length: uint16): iset<Point> {
    iset p | VerticalDrawn(w, h, x, y, length, p)
  }

  /** The lines asked for. */
  ghost predicate OnHorizontal(x: int, y: int, length: int, p: Point) { p.y == y && x <= p.x < x + length }
  ghost predicate OnVertical(x: int, y: int, length: int, p: Point) { p.x == x && y <= p.y < y + length }

  /** A horizontal line is clipped correctly exactly when it is filtered out, or
      starts in a row of the screen and does not end left of it, or lies above
      the screen and ends right before its first column. */
  lemma HorizontalIsClippedIff(w: int, h: int, x: int16, y: int16, length: uint16)
    requires 0 < w < 0x4000 && 0 < h < 0x4000
    ensures (forall p :: OnScreen(w, h, p) ==>
                           (HorizontalDrawn(w, h, x, y, length, p) <==> OnHorizontal(x, y, length, p)))
       <==> x >= w || y >= h || length == 0 || (if y >= 0 then x + length >= 0 else x + length == 0)
  {
    if x < w && y < h && length != 0 {
      var p := Point(Max(x, 0), Max(y, 0));
      assert OnScreen(w, h, p);
      assert HorizontalDrawn(w, h, x, y, length, p) <==> x + length != 0;
      assert OnHorizontal(x, y, length, p) <==> y >= 0 && x + length > 0;
    }
  }

  /** A vertical line is clipped correctly exactly when it is filtered out, or
      lies in a column of the screen and does not start above it -- or does, but
      also reaches its last row. */
  lemma VerticalIsClippedIff(w: int, h: int, x: int16, y: int16, length: uint16)
    requires 0 < w < 0x4000 && 0 < h < 0x4000
    ensures (forall p :: OnScreen(w, h, p) ==> (VerticalDrawn(w, h, x, y, length, p) <==> OnVertical(x, y, length, p)))
       <==> x >= w || y >= h || length == 0 || (x >= 0 && (y >= 0 || y + length >= h))
  {
    if x < w && y < h && length != 0 {
      var p, q := Point(Max(x, 0), Max(y, 0)), Point(Max(x, 0), Min(Max(y, 0) + length, h) - 1);
      assert OnScreen(w, h, p) && OnScreen(w, h, q);
      assert VerticalDrawn(w, h, x, y, length, p) && VerticalDrawn(w, h, x, y, length, q);
      assert OnVertical(x, y, length, p) && OnVertical(x, y, length, q) ==> x >= 0 && (y >= 0 || y + length >= h);
    }
  }

  /** What drawing the single pixel `q` really draws. */
  ghost predicate PixelDrawn(w: int, h: int, q: Point, p: Point) {
    HorizontalDrawn(w, h, ToInt16(q.x), ToInt16(q.y), 1, p)
  }

  ghost function DotPixels(w: int, h: int, q: Point): iset<Point> {
    iset p | PixelDrawn(w, h, q, p)
  }

  /** The pixels that a line draws, one by one. */
  ghost predicate LineDrawn(w: int, h: int, l: Line, p: Point) {
    exists k :: 0 <= k <= l.Long() && PixelDrawn(w, h, l.DmaPixel(k), p)
  }

  ghost function LinePixels(w: int, h: int, l: Line): iset<Point> {
    iset p | LineDrawn(w, h, l, p)
  }

  /** ... and those drawn before pixel n. */
  ghost function WalkPixels(w: int, h: int, l: Line, n: nat): iset<Point> {
    if n == 0 then iset{}
    else WalkPixels(w, h, l, n - 1) + DotPixels(w, h, WalkAt(l, n - 1).at)
  }

  /** The line loop's constants and variables. */
  datatype Steps = Steps(xinc1: int, xinc2: int, yinc1: int, yinc2: int, den: int, numadd: int)

  datatype Walk = Walk(at: Point, num: int)

  ghost predicate FitsWalk(l: Line) {
    && -0x8000 <= l.x1 < 0x8000 && -0x8000 <= l.y1 < 0x8000 && -0x8000 <= l.x2 < 0x8000 && -0x8000 <= l.y2 < 0x8000
    && l.Long() <= 0x4000
  }

  ghost function StepsOf(l: Line): Steps {
    var sx, sy := if l.x1 <= l.x2 then 1 else -1, if l.y1 <= l.y2 then 1 else -1;
    if l.Dx() >= l.Dy() then Steps(0, sx, sy, 0, l.Dx(), l.Dy()) else Steps(sx, 0, 0, sy, l.Dy(), l.Dx())
  }

  ghost function NextStep(s: Steps, w: Walk): Walk {
    if w.num + s.numadd >= s.den
    then Walk(Point(w.at.x + s.xinc1 + s.xinc2, w.at.y + s.yinc1 + s.yinc2), w.num + s.numadd - s.den)
    else Walk(Point(w.at.x + s.xinc2, w.at.y + s.yinc2), w.num + s.numadd)
  }

  ghost function WalkAt(l: Line, k: nat): Walk {
    if k == 0 then Walk(Point(l.x1, l.y1), l.Long() / 2) else NextStep(StepsOf(l), WalkAt(l, k - 1))
  }

  /** The line loop's remainder before pixel k, in closed form. */
  ghost function RemainderAt(l: Line, k: int): int { l.Long() / 2 + k * l.Short() - l.DmaShort(k) * l.Long() }

  /** The walk visits the pixels of the closed form. */
  lemma {:induction false} WalkIsClosedForm(l: Line, k: nat)
    requires k <= l.Long()
    ensures WalkAt(l, k) == Walk(l.DmaPixel(k), RemainderAt(l, k))
  {
    if k == 0 {
      Connected(l, 0);
    } else {
      WalkIsClosedForm(l, k - 1);
      Advance(l, k - 1);
    }
  }

  /** One turn of the line loop, for the closed form. */
  lemma Advance(l: Line, k: nat)
    requires k < l.Long()
    ensures NextStep(StepsOf(l), Walk(l.DmaPixel(k), RemainderAt(l, k)))
         == Walk(l.DmaPixel(k + 1), RemainderAt(l, k + 1))
  {
    RemainderStep(l, k);
  }

  /** The remainder stays below the denominator. */
  lemma RemainderInRange(l: Line, k: nat)
    requires k <= l.Long()
    ensures l.Long() > 0 ==> 0 <= WalkAt(l, k).num < l.Long()
    ensures l.Long() == 0 ==> WalkAt(l, k).num == 0
  {
  }

  lemma WalkWithin(l: Line, k: nat)
    requires FitsWalk(l) && k <= l.Long()
    ensures var w := WalkAt(l, k);
            && -0x8000 <= w.at.x < 0x8000 && -0x8000 <= w.at.y < 0x8000 && 0 <= w.num <= l.Long()
            && w.num + l.Short() < 0x8000
  {
    WalkIsClosedForm(l, k);
    RemainderInRange(l, k);
    WithinBox(l, k);
  }

  /** The loop variables keep to their C types up to the last pixel. */
  lemma WalkFits(l: Line, k: nat)
    requires FitsWalk(l) && k <= l.Long()
    ensures var w := WalkAt(l, k);
            && -0x8000 <= w.at.x < 0x8000 && -0x8000 <= w.at.y < 0x8000 && 0 <= w.num <= l.Long()
            && w.num + l.Short() < 0x8000
    ensures k < l.Long() ==>
              var w := NextStep(StepsOf(l), WalkAt(l, k));
              && w == WalkAt(l, k + 1)
              && -0x8000 <= w.at.x < 0x8000 && -0x8000 <= w.at.y < 0x8000
  {
    WalkWithin(l, k);
    if k < l.Long() {
      WalkWithin(l, k + 1);
    }
  }

  lemma RemainderStep(l: Line, k: nat)
    requires l.Long() > 0
    ensures var num, num' := RemainderAt(l, k), RemainderAt(l, k + 1);
            && l.DmaShort(k + 1) == l.DmaShort(k) + (if num + l.Short() >= l.Long() then 1 else 0)
            && num' == num + l.Short() - (if num + l.Short() >= l.Long() then l.Long() else 0)
  {
    var j := l.DmaShort(k);
    var num := l.Long() / 2 + k * l.Short() - j * l.Long();
    assert (k + 1) * l.Short() == k * l.Short() + l.Short();
    assert (j + 1) * l.Long() == j * l.Long() + l.Long();
    Rounding(l, k, j);
    Rounding(l, k + 1, if num + l.Short() >= l.Long() then j + 1 else j);
  }

  /** The loop draws the pixels of the closed form. */
  lemma {:induction false} WalkPixelsAt(w: int, h: int, l: Line, n: nat, p: Point)
    requires n <= l.Long() + 1
    ensures p in WalkPixels(w, h, l, n) <==> exists k :: 0 <= k < n && PixelDrawn(w, h, l.DmaPixel(k), p)
  {
    if n > 0 {
      WalkPixelsAt(w, h, l, n - 1, p);
      WalkIsClosedForm(l, n - 1);
      assert p in WalkPixels(w, h, l, n) <==> p in WalkPixels(w, h, l, n - 1) || PixelDrawn(w, h, l.DmaPixel(n - 1), p);
    }
  }

  lemma WalkDrawsLine(w: int, h: int, l: Line)
    ensures WalkPixels(w, h, l, l.Long() + 1) == LinePixels(w, h, l)
  {
    forall p
      ensures p in WalkPixels(w, h, l, l.Long() + 1) <==> p in LinePixels(w, h, l)
    {
      WalkPixelsAt(w, h, l, l.Long() + 1, p);
    }
  }

  lemma PixelOnScreen(w: int, h: int, q: Point, p: Point)
    requires 0 < w < 0x4000 && 0 < h < 0x4000 && OnScreen(w, h, q)
    ensures PixelDrawn(w, h, q, p) <==> p == q
  {
  }
}
