/** The geometry shared by both display drivers: a rectangular panel of
    `width` x `height` cells that starts at cell `base` of the frame memory, and
    the way each rotation numbers its pixels. */
module Panels {
  datatype Point = Point(x: int, y: int)

  /** Upright: rows from the top; UpsideDown: turned by 180 degrees;
      Clockwise: x runs down the panel; CounterClockwise: x runs up the panel. */
  datatype Rotation = Upright | UpsideDown | Clockwise | CounterClockwise

  datatype Panel = Panel(width: int, height: int, rotation: Rotation, base: int) {
    predicate Valid() { 0 < width && 0 < height && 0 <= base }

    predicate Sideways() { rotation.Clockwise? || rotation.CounterClockwise? }

    /** The size of the screen as the caller sees it. */
    function Columns(): int { if Sideways() then height else width }
    function Rows(): int { if Sideways() then width else height }

    /** The rectangle of pixels lies on the screen; it may be empty. */
    predicate Holds(x: int, y: int, columns: int, rows: int) {
      0 <= x && 0 <= y && 0 <= columns && 0 <= rows && x + columns <= Columns() && y + rows <= Rows()
    }

    predicate OnScreen(p: Point) { 0 <= p.x < Columns() && 0 <= p.y < Rows() }

    /** The panel's row and column in which pixel `p` lies. */
    function Place(p: Point): (int, int) {
      match rotation
      case Upright => (p.y, p.x)
      case UpsideDown => (height - 1 - p.y, width - 1 - p.x)
      case Clockwise => (p.x, width - 1 - p.y)
      case CounterClockwise => (height - 1 - p.x, p.y)
    }

    /** The cell of the frame memory that displays pixel `p`. */
    function Cell(p: Point): int {
      var (row, column) := Place(p);
      base + row * width + column
    }

    /** Cells that belong to the panel. */
    predicate Shows(c: int) { base <= c < base + width * height }

    function RowOf(c: int): int requires Valid() { (c - base) / width }
    function ColumnOf(c: int): int requires Valid() { (c - base) % width }

    /** The pixel that a cell displays. */
    function PixelAt(c: int): Point
      requires Valid()
    {
      var row, column := RowOf(c), ColumnOf(c);
      match rotation
      case Upright => Point(column, row)
      case UpsideDown => Point(width - 1 - column, height - 1 - row)
      case Clockwise => Point(row, width - 1 - column)
      case CounterClockwise => Point(height - 1 - row, column)
    }

    /** Row and column locate a cell uniquely. */
    lemma Locate(c: int, row: int, column: int)
      requires Valid() && 0 <= column < width
      ensures c == base + row * width + column <==> RowOf(c) == row && ColumnOf(c) == column
    {
      if c == base + row * width + column {
        DivModUnique(c - base, width, row, column);
      }
    }

    lemma ShowsByRow(c: int)
      requires Valid()
      ensures Shows(c) <==> 0 <= RowOf(c) < height
      ensures 0 <= ColumnOf(c) < width
      ensures c == base + RowOf(c) * width + ColumnOf(c)
    {
      MulMonotone(RowOf(c), height, width);
    }

    /** Every rotation numbers the cells of the panel one to one. */
    lemma Bijection(p: Point, c: int)
      requires Valid()
      ensures OnScreen(p) ==> Shows(Cell(p)) && PixelAt(Cell(p)) == p
      ensures Shows(c) ==> OnScreen(PixelAt(c)) && Cell(PixelAt(c)) == c
      ensures OnScreen(p) && Shows(c) ==> (c == Cell(p) <==> PixelAt(c) == p)
    {
      ShowsByRow(c);
      if OnScreen(p) {
        var (row, column) := Place(p);
        Locate(Cell(p), row, column);
        ShowsByRow(Cell(p));
      }
    }

    /** The frame memory after every pixel of `s` that is on the screen has been
        given `color`.  Cells outside the panel and all other pixels keep theirs. */
    ghost function Paint(cells: seq<int>, s: iset<Point>, color: int): (r: seq<int>)
      requires Valid()
      ensures |r| == |cells|
    {
      PaintFirst(cells, s, color, |cells|)
    }

    /** ... of the first n cells. */
    ghost function PaintFirst(cells: seq<int>, s: iset<Point>, color: int, n: nat): (r: seq<int>)
      requires Valid() && n <= |cells|
      ensures |r| == n
    {
      if n == 0 then []
      else PaintFirst(cells, s, color, n - 1) + [if Painted(s, n - 1) then color else cells[n - 1]]
    }

    ghost predicate Painted(s: iset<Point>, c: int)
      requires Valid()
    {
      Shows(c) && PixelAt(c) in s
    }

    lemma {:induction false} PaintFirstAt(cells: seq<int>, s: iset<Point>, color: int, n: nat, c: nat)
      requires Valid() && c < n <= |cells|
      ensures PaintFirst(cells, s, color, n)[c] == if Painted(s, c) then color else cells[c]
    {
      if c < n - 1 {
        PaintFirstAt(cells, s, color, n - 1, c);
      }
    }

    lemma PaintAt(cells: seq<int>, s: iset<Point>, color: int)
      requires Valid()
      ensures forall c :: 0 <= c < |cells| ==> Paint(cells, s, color)[c] == if Painted(s, c) then color else cells[c]
    {
      forall c | 0 <= c < |cells|
        ensures Paint(cells, s, color)[c] == if Painted(s, c) then color else cells[c]
      {
        PaintFirstAt(cells, s, color, |cells|, c);
      }
    }

    /** What a pixel shows after painting. */
    lemma ReadBack(cells: seq<int>, s: iset<Point>, color: int, p: Point)
      requires Valid() && OnScreen(p) && base + width * height <= |cells|
      ensures 0 <= Cell(p) < |cells|
      ensures Paint(cells, s, color)[Cell(p)] == if p in s then color else cells[Cell(p)]
    {
      Bijection(p, Cell(p));
      PaintAt(cells, s, color);
    }

    /** Painting a single pixel writes its cell. */
    lemma PaintOne(cells: seq<int>, p: Point, color: int)
      requires Valid() && OnScreen(p) && base + width * height <= |cells|
      ensures 0 <= Cell(p) < |cells| && Paint(cells, iset{p}, color) == cells[Cell(p) := color]
    {
      Bijection(p, Cell(p));
      PaintAt(cells, iset{p}, color);
      forall c | 0 <= c < |cells| && Shows(c)
        ensures PixelAt(c) == p <==> c == Cell(p)
      {
        Bijection(PixelAt(c), c);
      }
    }

    lemma PaintTwice(cells: seq<int>, s: iset<Point>, t: iset<Point>, color: int)
      requires Valid()
      ensures Paint(Paint(cells, s, color), t, color) == Paint(cells, s + t, color)
    {
      PaintAt(cells, s, color);
      PaintAt(Paint(cells, s, color), t, color);
      PaintAt(cells, s + t, color);
    }

    lemma PaintNothing(cells: seq<int>, color: int)
      requires Valid()
      ensures Paint(cells, iset{}, color) == cells
    {
      PaintAt(cells, iset{}, color);
    }

    /** Two sets with the same on-screen pixels paint the same picture. */
    lemma PaintClipped(cells: seq<int>, s: iset<Point>, t: iset<Point>, color: int)
      requires Valid()
      requires forall p :: OnScreen(p) ==> (p in s <==> p in t)
      ensures Paint(cells, s, color) == Paint(cells, t, color)
    {
      PaintAt(cells, s, color);
      PaintAt(cells, t, color);
      forall c | 0 <= c < |cells| && Shows(c)
        ensures PixelAt(c) in s <==> PixelAt(c) in t
      {
        Bijection(PixelAt(c), c);
      }
    }

    /** In every color two sets paint the same picture ... */
    ghost predicate SamePicture(cells: seq<int>, s: iset<Point>, t: iset<Point>)
      requires Valid()
    {
      forall color :: Paint(cells, s, color) == Paint(cells, t, color)
    }

    lemma SamePixel(cells: seq<int>, s: iset<Point>, t: iset<Point>, p: Point)
      requires Valid() && base + width * height <= |cells| && SamePicture(cells, s, t) && OnScreen(p)
      ensures p in s <==> p in t
    {
      ReadBack(cells, s, 0, p);
      var color := cells[Cell(p)] + 1;
      ReadBack(cells, s, color, p);
      ReadBack(cells, t, color, p);
      assert Paint(cells, s, color) == Paint(cells, t, color);
    }

    lemma Clipped(cells: seq<int>, s: iset<Point>, t: iset<Point>)
      requires Valid() && forall p :: OnScreen(p) ==> (p in s <==> p in t)
      ensures SamePicture(cells, s, t)
    {
      forall color
        ensures Paint(cells, s, color) == Paint(cells, t, color)
      {
        PaintClipped(cells, s, t, color);
      }
    }

    /** ... exactly if they have the same on-screen pixels. */
    lemma SamePictureIff(cells: seq<int>, s: iset<Point>, t: iset<Point>)
      requires Valid() && base + width * height <= |cells|
      ensures SamePicture(cells, s, t) <==> forall p :: OnScreen(p) ==> (p in s <==> p in t)
    {
      if SamePicture(cells, s, t) {
        forall p | OnScreen(p)
          ensures p in s <==> p in t
        {
          SamePixel(cells, s, t, p);
        }
      } else if forall p :: OnScreen(p) ==> (p in s <==> p in t) {
        Clipped(cells, s, t);
      }
    }
  }

  lemma DivModUnique(n: int, w: int, q: int, r: int)
    requires 0 < w && 0 <= r < w && n == q * w + r
    ensures n / w == q && n % w == r
  {
    assert (n / w - q) * w == r - n % w;
    MulMonotone(n / w - q, 0, w);
    MulMonotone(0, n / w - q, w);
  }

  lemma MulMonotone(a: int, b: int, w: int)
    requires 0 < w
    ensures a <= b <==> a * w <= b * w
    ensures a < b <==> a * w <= b * w - w
  {
    var d := b - a;
    assert d * w == b * w - a * w;
    if d > 0 {
      assert (d - 1) * w >= 0;
    } else {
      assert d * w <= 0;
    }
  }
}
