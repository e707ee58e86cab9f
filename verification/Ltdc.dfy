/** The ILI9341 driver that draws straight into the LTDC frame memory. */
module Ltdc {
  import opened CTypes
  import opened Panels
  import opened Lines
  import opened Circles
  import opened FilledCircle
  import opened CircleLoops

  const WIDTH := 240
  const HEIGHT := 320
  const PIXELS := 76800

  datatype Orientation = Portrait1 | Portrait2 | Landscape1 | Landscape2

  class Display {
    /** Frame memory in 16-bit cells, and the driver's option record. */
    var frame: array<int>
    var width: uint16
    var height: uint16
    var orient: Orientation
    var layerOffset: uint32

    predicate Valid()
      reads this
    {
      && (if orient.Portrait1? || orient.Portrait2? then width == WIDTH && height == HEIGHT
          else width == HEIGHT && height == WIDTH)
      && (layerOffset == 0 || layerOffset == 2 * PIXELS)
      && 2 * PIXELS < frame.Length
    }

    /** Where the selected layer's pixels live.  Portrait1 numbers the cells from 1
        instead of 0, so there the picture lies one cell farther on. */
    function Screen(): (s: Panel)
      reads this
      requires Valid()
      ensures s.Valid() && s.Columns() == width && s.Rows() == height
    {
      var rotation := match orient
        case Portrait1 => UpsideDown
        case Portrait2 => Upright
        case Landscape1 => CounterClockwise
        case Landscape2 => Clockwise;
      Panel(WIDTH, HEIGHT, rotation, layerOffset / 2 + if orient.Portrait1? then 1 else 0)
    }

    constructor (memory: array<int>)
      requires 2 * PIXELS < memory.Length
      ensures Valid() && frame == memory && orient == Portrait1 && layerOffset == 0
    {
      frame, orient, layerOffset := memory, Portrait1, 0;
      width, height := WIDTH, HEIGHT;
    }

    method Rotate(orientation: Orientation)
      requires Valid()
      modifies this`orient, this`width, this`height
      ensures Valid() && orient == orientation
      ensures (width, height) == if orient == Portrait1 || orient == Portrait2 then (240, 320) else (320, 240)
    {
      orient := orientation;
      if orientation == Portrait1 || orientation == Portrait2 {
        width := WIDTH;
        height := HEIGHT;
      } else {
        width := HEIGHT;
        height := WIDTH;
      }
    }

    method SetLayer1()
      requires Valid()
      modifies this`layerOffset
      ensures Valid() && layerOffset == 0
    {
      layerOffset := 0;
    }

    method SetLayer2()
      requires Valid()
      modifies this`layerOffset
      ensures Valid() && layerOffset == 153600
    {
      layerOffset := 2 * PIXELS;
    }

    method DrawPixel(x: uint16, y: uint16, color: uint32)
      requires Valid()
      modifies frame
      ensures Valid()
      ensures frame[..] == Screen().Paint(old(frame[..]), iset{Point(x, y)}, ToUint16(color))
      ensures x < width && y < height ==>
                var first := if orient == Portrait1 then 76800 else if orient == Portrait2 then 0
                             else if orient == Landscape1 then 76560 else 239;
                var right := if orient == Portrait1 then -1 else if orient == Portrait2 then 1
                             else if orient == Landscape1 then -240 else 240;
                var down := if orient == Portrait1 then -240 else if orient == Portrait2 then 240
                            else if orient == Landscape1 then 1 else -1;
                var cell := layerOffset / 2 + first + x * right + y * down;
                && 0 <= cell < frame.Length
                && frame[..] == old(frame[..])[cell := color % 0x1_0000]
      ensures x >= width || y >= height ==> frame[..] == old(frame[..])
    {
      ghost var screen, before := Screen(), frame[..];
      if x >= width || y >= height {
        screen.PaintClipped(before, iset{}, iset{Point(x, y)}, ToUint16(color));
        screen.PaintNothing(before, ToUint16(color));
        return;
      }
      var address: uint32;
      if orient == Portrait1 {
        address := layerOffset + 2 * (PIXELS - x - width * y);
      } else if orient == Portrait2 {
        address := layerOffset + 2 * (x + width * y);
      } else if orient == Landscape1 {
        var column, row := y, HEIGHT - 1 - x;
        address := layerOffset + 2 * (column + WIDTH * row);
      } else {
        var row, column := x, WIDTH - 1 - y;
        address := layerOffset + 2 * (column + WIDTH * row);
      }
      assert address / 2 == screen.Cell(Point(x, y));
      screen.PaintOne(before, Point(x, y), ToUint16(color));
      frame[address / 2] := ToUint16(color);
    }

    /** Where each orientation puts the picture on the glass, whose cells are numbered in
        240 columns from the upper left: the cell of the origin, and how it changes to
        the right and downwards. */
    lemma PlaceOnGlass(x: int, y: int)
      requires Valid()
      ensures Screen().Cell(Point(0, 0)) == layerOffset / 2 + match orient
                case Portrait1 => 76800 case Portrait2 => 0 case Landscape1 => 76560 case Landscape2 => 239
      ensures Screen().Cell(Point(x + 1, y)) == Screen().Cell(Point(x, y)) + match orient
                case Portrait1 => -1 case Portrait2 => 1 case Landscape1 => -240 case Landscape2 => 240
      ensures Screen().Cell(Point(x, y + 1)) == Screen().Cell(Point(x, y)) + match orient
                case Portrait1 => -240 case Portrait2 => 240 case Landscape1 => 1 case Landscape2 => -1
    {
    }

    /** A pixel is stored within the selected layer, except that Portrait1 stores
        the origin in the first cell behind it. */
    lemma OwnLayer(p: Point)
      requires Valid() && Screen().OnScreen(p)
      ensures layerOffset / 2 <= Screen().Cell(p) < layerOffset / 2 + PIXELS
         <==> !(orient == Portrait1 && p == Point(0, 0))
    {
    }

    /** A figure drawn in the selected layer leaves every other cell as it is, those of
        the other layer in particular, except that in Portrait1 the origin goes to the
        first cell behind the layer. */
    lemma OtherLayerIsKept(cells: seq<int>, figure: iset<Point>, ink: int, c: nat)
      requires Valid() && c < |cells| && !(layerOffset / 2 <= c < layerOffset / 2 + PIXELS)
      ensures Screen().Paint(cells, figure, ink)[c]
           == if orient == Portrait1 && c == layerOffset / 2 + PIXELS && Point(0, 0) in figure then ink else cells[c]
    {
      Screen().PaintAt(cells, figure, ink);
      if orient == Portrait1 && c == layerOffset / 2 + PIXELS {
        Screen().Bijection(Point(0, 0), c);
      }
    }

    /** One more pixel of a figure of which `drawn` has been drawn over `before`. */
    method Plot(x: uint16, y: uint16, color: uint32, ghost before: seq<int>, ghost drawn: seq<Point>)
      returns (ghost drawn': seq<Point>)
      requires Valid() && frame[..] == Screen().Paint(before, Members(drawn), ToUint16(color))
      modifies frame
      ensures Valid()
      ensures drawn' == drawn + [Point(x, y)]
      ensures frame[..] == Screen().Paint(before, Members(drawn'), ToUint16(color))
    {
      DrawPixel(x, y, color);
      MoreMembers(Screen(), before, drawn, Point(x, y), ToUint16(color));
      drawn' := drawn + [Point(x, y)];
    }

    /** The end points a line is really drawn between. */
    function Clamped(x0: uint16, y0: uint16, x1: uint16, y1: uint16): (l: Line)
      reads this
      requires Valid()
      ensures Screen().OnScreen(Point(l.x1, l.y1)) && Screen().OnScreen(Point(l.x2, l.y2))
    {
      Line(Min(x0, width - 1), Min(y0, height - 1), Min(x1, width - 1), Min(y1, height - 1))
    }

    method DrawLine(x0: uint16, y0: uint16, x1: uint16, y1: uint16, color: uint32)
      returns (ghost drawn: seq<Point>)
      requires Valid()
      modifies frame
      ensures Valid()
      ensures TracesLine(Clamped(x0, y0, x1, y1), drawn)
      ensures frame[..] == Screen().Paint(old(frame[..]), Clamped(x0, y0, x1, y1).LtdcPixels(), ToUint16(color))
    {
      var x0, y0, x1, y1 := x0, y0, x1, y1;
      if x0 >= width { x0 := width - 1; }
      if x1 >= width { x1 := width - 1; }
      if y0 >= height { y0 := height - 1; }
      if y1 >= height { y1 := height - 1; }
      drawn := WalkLine(x0, y0, x1, y1, color);
    }

    /** The `while (1)` loop terminates; it draws Long + 1 pixels, in the order of
        the closed form, and the last of them is the second end point. */
    method WalkLine(x0: uint16, y0: uint16, x1: uint16, y1: uint16, color: uint32)
      returns (ghost drawn: seq<Point>)
      requires Valid() && x0 < width && x1 < width && y0 < height && y1 < height
      modifies frame
      ensures Valid()
      ensures TracesLine(Line(x0, y0, x1, y1), drawn)
      ensures frame[..] == Screen().Paint(old(frame[..]), Line(x0, y0, x1, y1).LtdcPixels(), ToUint16(color))
    {
      ghost var l, screen, before := Line(x0, y0, x1, y1), Screen(), frame[..];
      var x0: uint16, y0: uint16 := x0, y0;
      var dx: int16 := if x0 < x1 then x1 - x0 else x0 - x1;
      var dy: int16 := if y0 < y1 then y1 - y0 else y0 - y1;
      var sx: int16 := if x0 < x1 then 1 else -1;
      var sy: int16 := if y0 < y1 then 1 else -1;
      // C's division by two truncates towards zero, also for the negated dy.
      var err: int16 := if dx > dy then dx / 2 else -(dy / 2);

      ghost var slope := Slope(dx, dy, sx, sy);
      assert slope == SlopeOf(l);

      ghost var k: nat := 0;
      drawn := [];
      screen.PaintNothing(before, ToUint16(color));
      assert Members(drawn) == iset{};
      while true
        invariant k <= l.Long() && (drawn, Walk(Point(x0, y0), err)) == (Trace(l, k), WalkAt(l, k))
        invariant frame[..] == screen.Paint(before, Members(drawn), ToUint16(color))
        decreases l.Long() - k
      {
        drawn := Plot(x0, y0, color, before, drawn);
        WalkEnds(l, k);
        if x0 == x1 && y0 == y1 {
          break;
        }
        x0, y0, err := MoveAlong(l, k, x0, y0, err, dx, dy, sx, sy);
        k := k + 1;
      }
      AllMembers(l, drawn);
    }

    /** A pixel given by signed coordinates: the conversion to 16 unsigned bits
        takes every negative coordinate off the screen. */
    method DrawSigned(x: int, y: int, color: uint32)
      requires Valid() && -0xC000 <= x < 0xC000 && -0xC000 <= y < 0xC000
      modifies frame
      ensures Valid()
      ensures frame[..] == Screen().Paint(old(frame[..]), iset{Point(x, y)}, ToUint16(color))
    {
      Screen().PaintClipped(frame[..], iset{Point(ToUint16(x), ToUint16(y))}, iset{Point(x, y)}, ToUint16(color));
      DrawPixel(ToUint16(x), ToUint16(y), color);
    }

    method DrawFour(x0: int16, y0: int16, u: int16, v: int16, color: uint32)
      requires Valid() && -0x4000 <= u <= 0x4000 && -0x4000 <= v <= 0x4000
      modifies frame
      ensures Valid()
      ensures frame[..] == Screen().Paint(old(frame[..]), FourAt(x0, y0, u, v), ToUint16(color))
    {
      ghost var screen, before, ink := Screen(), frame[..], ToUint16(color);
      var a, b, c, d := Point(x0 + u, y0 + v), Point(x0 - u, y0 + v), Point(x0 + u, y0 - v), Point(x0 - u, y0 - v);
      DrawSigned(a.x, a.y, color);
      DrawSigned(b.x, b.y, color);
      screen.PaintTwice(before, iset{a}, iset{b}, ink);
      DrawSigned(c.x, c.y, color);
      screen.PaintTwice(before, iset{a} + iset{b}, iset{c}, ink);
      DrawSigned(d.x, d.y, color);
      screen.PaintTwice(before, iset{a} + iset{b} + iset{c}, iset{d}, ink);
      assert iset{a} + iset{b} + iset{c} + iset{d} == FourAt(x0, y0, u, v);
    }

    /** The eight pixels of an octant point. */
    method DrawReflections(x0: int16, y0: int16, x: int16, y: int16, color: uint32)
      requires Valid() && -0x4000 <= x <= 0x4000 && -0x4000 <= y <= 0x4000
      modifies frame
      ensures Valid()
      ensures frame[..] == Screen().Paint(old(frame[..]), ReflectionsAt(x0, y0, Abs(x), Abs(y)), ToUint16(color))
    {
      ghost var before := frame[..];
      DrawFour(x0, y0, x, y, color);
      DrawFour(x0, y0, y, x, color);
      Screen().PaintTwice(before, FourAt(x0, y0, x, y), FourAt(x0, y0, y, x), ToUint16(color));
      assert FourAt(x0, y0, x, y) + FourAt(x0, y0, y, x) == ReflectionsAt(x0, y0, Abs(x), Abs(y));
    }

    /** The body of the outline's loop. */
    method DrawRingTurn(x0: int16, y0: int16, ghost r: nat, x: int16, y: int16, f: int16, ddFx: int16, ddFy: int16,
                        color: uint32, ghost before: seq<int>)
      returns (x': int16, y': int16, f': int16, ddFx': int16, ddFy': int16)
      requires Valid() && CircleLoop(r, x, y, f, ddFx, ddFy) && x < y && r <= 0x4000
      requires frame[..] == Screen().Paint(before, RingSoFar(x0, y0, r, x), ToUint16(color))
      modifies frame
      ensures Valid()
      ensures CircleLoop(r, x', y', f', ddFx', ddFy') && x' - y' > x - y
      ensures frame[..] == Screen().Paint(before, RingSoFar(x0, y0, r, x'), ToUint16(color))
    {
      WalkInOctant(r, x);
      RingTurn(x0, y0, r, x, y, f);
      x', y', f', ddFx', ddFy' := Turn(r, x, y, f, ddFx, ddFy);
      Screen().PaintTwice(before, RingSoFar(x0, y0, r, x), ReflectionsAt(x0, y0, x', y'), ToUint16(color));
      DrawReflections(x0, y0, x', y', color);
    }

    /** The outline, wherever its centre lies, is exactly the closed-form ring cut
        to the screen.  (For a negative radius only the four compass points are
        drawn.)  A radius beyond 0x4000 does not fit the loop's variables. */
    method DrawCircle(x0: int16, y0: int16, r: int16, color: uint32)
      requires Valid() && -0x4000 < r <= 0x4000
      modifies frame
      ensures Valid()
      ensures r >= 0 ==> frame[..] == Screen().Paint(old(frame[..]), RingAt(x0, y0, r), ToUint16(color))
      ensures r < 0 ==> frame[..] == Screen().Paint(old(frame[..]), ReflectionsAt(x0, y0, 0, -r), ToUint16(color))
    {
      ghost var screen, before, ink := Screen(), frame[..], ToUint16(color);
      var f: int16 := 1 - r;
      var ddFx: int16 := 1;
      var ddFy: int16 := -2 * r;
      var x: int16 := 0;
      var y: int16 := r;

      DrawReflections(x0, y0, 0, r, color);
      if r >= 0 {
        RingStart(x0, y0, r);
      }
      while x < y
        invariant r < 0 ==> x == 0 && y == r
        invariant r < 0 ==> frame[..] == screen.Paint(before, ReflectionsAt(x0, y0, 0, -r), ink)
        invariant r >= 0 ==> CircleLoop(r, x, y, f, ddFx, ddFy)
        invariant r >= 0 ==> frame[..] == screen.Paint(before, RingSoFar(x0, y0, r, x), ink)
        decreases y - x
      {
        x, y, f, ddFx, ddFy := DrawRingTurn(x0, y0, r, x, y, f, ddFx, ddFy, color, before);
      }
      if r >= 0 {
        WalkInOctant(r, x);
        RingEnd(x0, y0, r, x, y, f);
      }
    }

    /** A horizontal line between signed columns: each coordinate is first cut to
        16 unsigned bits, then clamped. */
    method DrawRun(xa: int, y: int, xb: int, color: uint32)
      requires Valid() && -0xC000 <= xa < 0xC000 && -0xC000 <= xb < 0xC000 && -0xC000 <= y < 0xC000
      modifies frame
      ensures Valid()
      ensures frame[..] == Screen().Paint(old(frame[..]), Run(width, height, xa, y, xb), ToUint16(color))
    {
      ghost var l := Clamped(ToUint16(xa), ToUint16(y), ToUint16(xb), ToUint16(y));
      assert l == Line(Cut(xa, width), Cut(y, height), Cut(xb, width), Cut(y, height));
      forall p
        ensures p in l.LtdcPixels() <==> p in Run(width, height, xa, y, xb)
      {
        Horizontal(l, p);
      }
      assert l.LtdcPixels() == Run(width, height, xa, y, xb);
      ghost var drawn := DrawLine(ToUint16(xa), ToUint16(y), ToUint16(xb), ToUint16(y), color);
    }

    /** The four runs of an octant point. */
    method DrawFourRuns(x0: int16, y0: int16, x: int16, y: int16, color: uint32)
      requires Valid() && -0x4000 <= x <= 0x4000 && -0x4000 <= y <= 0x4000
      modifies frame
      ensures Valid()
      ensures frame[..] == Screen().Paint(old(frame[..]), Runs(width, height, x0, y0, x, y), ToUint16(color))
    {
      ghost var screen, before, ink := Screen(), frame[..], ToUint16(color);
      ghost var a, b := Run(width, height, x0 - x, y0 + y, x0 + x), Run(width, height, x0 + x, y0 - y, x0 - x);
      ghost var c, d := Run(width, height, x0 + y, y0 + x, x0 - y), Run(width, height, x0 + y, y0 - x, x0 - y);
      DrawRun(x0 - x, y0 + y, x0 + x, color);
      DrawRun(x0 + x, y0 - y, x0 - x, color);
      screen.PaintTwice(before, a, b, ink);
      DrawRun(x0 + y, y0 + x, x0 - y, color);
      screen.PaintTwice(before, a + b, c, ink);
      DrawRun(x0 + y, y0 - x, x0 - y, color);
      screen.PaintTwice(before, a + b + c, d, ink);
      assert a + b + c + d == Runs(width, height, x0, y0, x, y);
    }

    /** ... over a figure of which `done` has been drawn over `before`. */
    method DrawRuns(x0: int16, y0: int16, x: int16, y: int16, color: uint32, ghost before: seq<int>,
            ghost done: iset<Point>)
      returns (ghost done': iset<Point>)
      requires Valid() && -0x4000 <= x <= 0x4000 && -0x4000 <= y <= 0x4000
      requires frame[..] == Screen().Paint(before, done, ToUint16(color))
      modifies frame
      ensures Valid()
      ensures done' == done + Runs(width, height, x0, y0, x, y)
      ensures frame[..] == Screen().Paint(before, done', ToUint16(color))
    {
      done' := done + Runs(width, height, x0, y0, x, y);
      Screen().PaintTwice(before, done, Runs(width, height, x0, y0, x, y), ToUint16(color));
      DrawFourRuns(x0, y0, x, y, color);
    }

    /** What the filled circle draws before its loop. */
    method DrawCentre(x0: int16, y0: int16, r: int16, color: uint32)
      requires Valid() && -0x4000 < r <= 0x4000
      modifies frame
      ensures Valid()
      ensures frame[..] == Screen().Paint(old(frame[..]),
                             ReflectionsAt(x0, y0, 0, Abs(r)) + Run(width, height, x0 - r, y0, x0 + r), ToUint16(color))
    {
      ghost var before := frame[..];
      DrawReflections(x0, y0, 0, r, color);
      DrawRun(x0 - r, y0, x0 + r, color);
      Screen().PaintTwice(before, ReflectionsAt(x0, y0, 0, Abs(r)), Run(width, height, x0 - r, y0, x0 + r),
              ToUint16(color));
    }

    /** The body of the filled circle's loop: `done` and what the loop still draws
        always make up `all`. */
    method DrawTurn(x0: int16, y0: int16, ghost r: nat, x: int16, y: int16, f: int16, ddFx: int16, ddFy: int16,
                    color: uint32, ghost before: seq<int>, ghost done: iset<Point>, ghost all: iset<Point>)
      returns (x': int16, y': int16, f': int16, ddFx': int16, ddFy': int16, ghost done': iset<Point>)
      requires Valid() && CircleLoop(r, x, y, f, ddFx, ddFy) && x < y && r <= 0x4000
      requires frame[..] == Screen().Paint(before, done, ToUint16(color))
      requires done + RunsFrom(width, height, x0, y0, x, y, f) == all
      modifies frame
      ensures Valid()
      ensures CircleLoop(r, x', y', f', ddFx', ddFy') && x' - y' > x - y
      ensures frame[..] == Screen().Paint(before, done', ToUint16(color))
      ensures done' + RunsFrom(width, height, x0, y0, x', y', f') == all
    {
      OneTurn(width, height, x0, y0, x, y, f);
      x', y', f', ddFx', ddFy' := Turn(r, x, y, f, ddFx, ddFy);
      done' := DrawRuns(x0, y0, x', y', color, before, done);
    }

    /** Draws what FilledCircle.Drawn says; DiscIsPaintedIff tells when that is the
        closed-form disc. */
    method DrawFilledCircle(x0: int16, y0: int16, r: int16, color: uint32)
      requires Valid() && -0x4000 < r <= 0x4000
      modifies frame
      ensures Valid()
      ensures frame[..] == Screen().Paint(old(frame[..]), Drawn(width, height, x0, y0, r), ToUint16(color))
    {
      ghost var screen, before := Screen(), frame[..];
      var f: int16 := 1 - r;
      var ddFx: int16 := 1;
      var ddFy: int16 := -2 * r;
      var x: int16 := 0;
      var y: int16 := r;

      DrawCentre(x0, y0, r, color);
      ghost var all := Drawn(width, height, x0, y0, r);
      ghost var done := ReflectionsAt(x0, y0, 0, Abs(r)) + Run(width, height, x0 - r, y0, x0 + r);
      while x < y
        invariant x < y ==> r >= 0 && CircleLoop(r, x, y, f, ddFx, ddFy)
        invariant frame[..] == screen.Paint(before, done, ToUint16(color))
        invariant done + RunsFrom(width, height, x0, y0, x, y, f) == all
        decreases y - x
      {
        x, y, f, ddFx, ddFy, done := DrawTurn(x0, y0, r, x, y, f, ddFx, ddFy, color, before, done, all);
      }
      NoTurn(width, height, x0, y0, x, y, f);
      assert done == all;
    }

    /** A filled circle whose centre is on the display comes out as the closed-form
        disc exactly when it does not hang over the left edge, and not over the upper
        edge in a way that shows. */
    lemma DiscIsPaintedIff(cells: seq<int>, x0: int, y0: int, r: nat)
      requires Valid() && 0 <= x0 < width && 0 <= y0 < height && |cells| == frame.Length
      ensures Screen().SamePicture(cells, Drawn(width, height, x0, y0, r), DiscAt(x0, y0, r))
         <==> r <= x0 && TopIsHidden(height, y0, r)
    {
      Screen().SamePictureIff(cells, Drawn(width, height, x0, y0, r), DiscAt(x0, y0, r));
      DrawnIsDiscIff(width, height, x0, y0, r);
    }
  }

  /** A horizontal line is the full run between its end points. */
  lemma Horizontal(l: Line, p: Point)
    requires l.y1 == l.y2
    ensures p in l.LtdcPixels() <==> Min(l.x1, l.x2) <= p.x <= Max(l.x1, l.x2) && p.y == l.y1
  {
    forall k | 0 <= k <= l.Long()
      ensures l.LtdcPixel(k) == Point(l.AlongX(k), l.y1)
    {
      ShortInRange(l, k);
    }
    if Min(l.x1, l.x2) <= p.x <= Max(l.x1, l.x2) && p.y == l.y1 {
      assert p == l.LtdcPixel(Abs(p.x - l.x1));
    }
  }

  ghost function FourAt(x0: int, y0: int, u: int, v: int): iset<Point> {
    iset p: Point | Abs(p.x - x0) == Abs(u) && Abs(p.y - y0) == Abs(v)
  }

  /** The second half of the line loop's body. */
  method MoveOn(x: uint16, y: uint16, error: int16, dx: int16, dy: int16, sx: int16, sy: int16)
    returns (x0: uint16, y0: uint16, err: int16)
    requires -0x2000 < error < 0x2000 && -0x1000 < dx < 0x1000 && -0x1000 < dy < 0x1000
    requires var w := NextStep(Slope(dx, dy, sx, sy), Walk(Point(x, y), error));
             0 <= w.at.x < 0x1_0000 && 0 <= w.at.y < 0x1_0000
    ensures Walk(Point(x0, y0), err) == NextStep(Slope(dx, dy, sx, sy), Walk(Point(x, y), error))
  {
    x0, y0, err := x, y, error;
    var e2 := err;
    if e2 > -dx {
      err := err - dy;
      x0 := x0 + sx;
    }
    if e2 < dy {
      err := err + dx;
      y0 := y0 + sy;
    }
  }

  /** ... from pixel k of line `l` to the next one. */
  method MoveAlong(ghost l: Line, ghost k: nat, x: uint16, y: uint16, error: int16, dx: int16, dy: int16, sx: int16,
                   sy: int16)
    returns (x0: uint16, y0: uint16, err: int16)
    requires k < l.Long() && 0 <= l.x1 < 0x1000 && 0 <= l.x2 < 0x1000 && 0 <= l.y1 < 0x1000 && 0 <= l.y2 < 0x1000
    requires Walk(Point(x, y), error) == WalkAt(l, k) && Slope(dx, dy, sx, sy) == SlopeOf(l)
    ensures Walk(Point(x0, y0), err) == WalkAt(l, k + 1)
  {
    WalkFits(l, k);
    x0, y0, err := MoveOn(x, y, error, dx, dy, sx, sy);
  }

  /** The loop variables of the line walk, and their values before pixel k. */
  datatype Walk = Walk(at: Point, err: int)

  ghost function WalkAt(l: Line, k: nat): Walk {
    if k == 0 then Walk(Point(l.x1, l.y1), if l.Dx() > l.Dy() then l.Dx() / 2 else -(l.Dy() / 2))
    else NextStep(SlopeOf(l), WalkAt(l, k - 1))
  }

  /** The pixels drawn before pixel k. */
  ghost function Trace(l: Line, k: nat): (t: seq<Point>)
    ensures |t| == k
  {
    if k == 0 then [] else Trace(l, k - 1) + [WalkAt(l, k - 1).at]
  }

  lemma {:induction false} TraceAt(l: Line, n: nat, k: nat)
    requires k < n
    ensures Trace(l, n)[k] == WalkAt(l, k).at
  {
    if k < n - 1 {
      TraceAt(l, n - 1, k);
    }
  }

  datatype Slope = Slope(dx: int, dy: int, sx: int, sy: int)

  ghost function SlopeOf(l: Line): Slope {
    Slope(l.Dx(), l.Dy(), if l.x1 < l.x2 then 1 else -1, if l.y1 < l.y2 then 1 else -1)
  }

  ghost function NextStep(s: Slope, w: Walk): Walk {
    var moveX, moveY := w.err > -s.dx, w.err < s.dy;
    Walk(Point(if moveX then w.at.x + s.sx else w.at.x, if moveY then w.at.y + s.sy else w.at.y),
         (if moveX then w.err - s.dy else w.err) + (if moveY then s.dx else 0))
  }

  /** The pixels of line `l`, each drawn once, from one end to the other. */
  ghost predicate TracesLine(l: Line, drawn: seq<Point>) {
    && |drawn| == l.Long() + 1 && drawn[l.Long()] == Point(l.x2, l.y2)
    && (forall k :: 0 <= k <= l.Long() ==> drawn[k] == l.LtdcPixel(k))
  }

  ghost function Members(s: seq<Point>): iset<Point> { iset p | p in s }

  lemma MoreMembers(screen: Panel, cells: seq<int>, s: seq<Point>, p: Point, color: int)
    requires screen.Valid()
    ensures screen.Paint(screen.Paint(cells, Members(s), color), iset{p}, color)
         == screen.Paint(cells, Members(s + [p]), color)
  {
    screen.PaintTwice(cells, Members(s), iset{p}, color);
    assert Members(s) + iset{p} == Members(s + [p]);
  }

  lemma AllMembers(l: Line, s: seq<Point>)
    requires s == Trace(l, l.Long() + 1)
    ensures TracesLine(l, s)
    ensures Members(s) == l.LtdcPixels()
  {
    forall k | 0 <= k <= l.Long()
      ensures s[k] == l.LtdcPixel(k)
    {
      TraceAt(l, l.Long() + 1, k);
      WalkIsClosedForm(l, k);
    }
    forall k | 0 <= k <= l.Long()
      ensures l.LtdcPixel(k) in s
    {
      assert s[k] == l.LtdcPixel(k);
    }
    Connected(l, l.Long());
  }

  /** The line loop's error term before pixel k, in closed form.  The driver keeps
      it positive while it leads with x and negative while it leads with y. */
  ghost function ErrorAt(l: Line, k: int): int {
    var e := l.Long() / 2 - k * l.Short() + l.LtdcShort(k) * l.Long();
    if l.Dx() > l.Dy() then e else -e
  }

  /** The walk visits the pixels of the closed form. */
  lemma {:induction false} WalkIsClosedForm(l: Line, k: nat)
    requires k <= l.Long()
    ensures WalkAt(l, k) == Walk(l.LtdcPixel(k), ErrorAt(l, k))
  {
    if k == 0 {
      Connected(l, 0);
    } else {
      WalkIsClosedForm(l, k - 1);
      Advance(l, k - 1);
    }
  }

  /** The error term stays in [0, dx) or (-dy, 0], and the exit test of the loop
      holds for the last pixel and for no earlier one. */
  lemma WalkInRange(l: Line, k: nat)
    requires k <= l.Long()
    ensures l.Dx() > l.Dy() ==> 0 <= WalkAt(l, k).err < l.Dx()
    ensures l.Dx() <= l.Dy() && 0 < l.Dy() ==> 0 <= -WalkAt(l, k).err < l.Dy()
    ensures l.Long() == 0 ==> WalkAt(l, k).err == 0
    ensures Min(l.x1, l.x2) <= WalkAt(l, k).at.x <= Max(l.x1, l.x2)
    ensures Min(l.y1, l.y2) <= WalkAt(l, k).at.y <= Max(l.y1, l.y2)
    ensures WalkAt(l, k).at == Point(l.x2, l.y2) <==> k == l.Long()
  {
    WalkIsClosedForm(l, k);
    WithinBox(l, k);
    Connected(l, k);
    if l.Long() > 0 {
      Rounding(l, k, l.LtdcShort(k));
    }
  }

  lemma WalkEnds(l: Line, k: nat)
    requires k <= l.Long()
    ensures WalkAt(l, k).at == Point(l.x2, l.y2) <==> k == l.Long()
  {
    WalkInRange(l, k);
  }

  /** Between points of the screen the loop variables keep to their C types. */
  lemma WalkFits(l: Line, k: nat)
    requires k < l.Long() && 0 <= l.x1 < 0x1000 && 0 <= l.x2 < 0x1000 && 0 <= l.y1 < 0x1000 && 0 <= l.y2 < 0x1000
    ensures WalkAt(l, k + 1) == NextStep(SlopeOf(l), WalkAt(l, k))
    ensures var w, w' := WalkAt(l, k), WalkAt(l, k + 1);
            && 0 <= w'.at.x < 0x1000 && 0 <= w'.at.y < 0x1000
            && -0x1000 < w.err < 0x1000 && -0x1000 < w'.err < 0x1000
  {
    WalkInRange(l, k);
    WalkInRange(l, k + 1);
  }

  /** One turn of the line loop, for the closed form. */
  lemma Advance(l: Line, k: nat)
    requires k < l.Long()
    ensures NextStep(SlopeOf(l), Walk(l.LtdcPixel(k), ErrorAt(l, k))) == Walk(l.LtdcPixel(k + 1), ErrorAt(l, k + 1))
  {
    ErrorStep(l, k);
    if l.Dx() == l.Dy() {
      Rounding(l, k, k);
      Rounding(l, k + 1, k + 1);
    }
  }

  lemma ErrorStep(l: Line, k: nat)
    requires l.Long() > 0
    ensures var e := l.Long() / 2 - k * l.Short() + l.LtdcShort(k) * l.Long();
            var e' := l.Long() / 2 - (k + 1) * l.Short() + l.LtdcShort(k + 1) * l.Long();
            && l.LtdcShort(k + 1) == l.LtdcShort(k) + (if e < l.Short() then 1 else 0)
            && e' == e - l.Short() + (if e < l.Short() then l.Long() else 0)
            && 0 <= e < l.Long()
  {
    var j := l.LtdcShort(k);
    var e := l.Long() / 2 - k * l.Short() + j * l.Long();
    assert (k + 1) * l.Short() == k * l.Short() + l.Short();
    assert (j + 1) * l.Long() == j * l.Long() + l.Long();
    Rounding(l, k, j);
    Rounding(l, k + 1, if e < l.Short() then j + 1 else j);
  }
}
