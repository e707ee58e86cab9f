/** The graphics driver that lets the DMA2D controller fill blocks of the frame
    memory. */
module Dma2d {
  import opened CTypes
  import opened Panels
  import opened Lines
  import opened DmaFigures
  import DmaLines
  import opened DmaCircle
  import opened DmaRing
  import opened Circles
  import opened CircleLoops

  /** The largest width and height that fit the controller's pixels-per-line field. */
  const MAX_SIDE := 0x3fff

  /** So many cells fit the 32 address bits, with room for one more line. */
  const MAX_CELLS := 0x7fff_c000

  type Side = x: int | 0 < x <= MAX_SIDE witness 1
  type Orientation = x: int | 0 <= x < 4

  /** The cells that a transfer of `lines` lines of `run` cells, `stride` apart, fills. */
  ghost predicate InBlock(c: int, start: int, stride: int, lines: int, run: int) {
    0 < stride && start <= c && (c - start) / stride < lines && (c - start) % stride < run
  }

  ghost function Fill(cells: seq<int>, start: int, stride: int, lines: int, run: int, color: int): seq<int> {
    seq(|cells|, c requires 0 <= c < |cells| => if InBlock(c, start, stride, lines, run) then color else cells[c])
  }

  /** The structure from which the controller takes its registers. */
  class Registers {
    var outputAddress: uint32
    var outputOffset: uint32
    var numberOfLine: uint32
    var pixelPerLine: uint32
    var outputColor: uint16

    constructor () {
      outputAddress, outputOffset, numberOfLine, pixelPerLine, outputColor := 0, 0, 0, 0, 0;
    }
  }

  class Display {
    /** Frame memory in 16-bit cells; all addresses below count cells, not bytes. */
    var memory: array<int>
    const panelWidth: Side
    const panelHeight: Side
    /** The driver's settings. */
    var currentWidth: uint16
    var currentHeight: uint16
    var offset: uint32
    var orientation: Orientation
    const dma: Registers

    predicate Valid()
      reads `memory, `currentWidth, `currentHeight, `offset, `orientation
    {
      && (currentWidth, currentHeight)
         == (if orientation < 2 then (panelWidth, panelHeight) else (panelHeight, panelWidth))
      && offset + panelWidth * panelHeight <= memory.Length <= MAX_CELLS
    }

    function Screen(): (s: Panel)
      reads `memory, `currentWidth, `currentHeight, `offset, `orientation
      requires Valid()
      ensures s.Valid() && s.Columns() == currentWidth && s.Rows() == currentHeight
    {
      var rotation := match orientation
        case 0 => UpsideDown
        case 1 => Upright
        case 2 => CounterClockwise
        case _ => Clockwise;
      Panel(panelWidth, panelHeight, rotation, offset)
    }

    /** The settings after initialisation and a first SetOrientation.  (The
        initialisation by itself leaves width and height swapped.) */
    constructor (cells: array<int>, width: Side, height: Side)
      requires width * height <= cells.Length <= MAX_CELLS
      ensures Valid() && memory == cells && panelWidth == width && panelHeight == height && orientation == 0
                && offset == 0
    {
      memory, panelWidth, panelHeight := cells, width, height;
      currentWidth, currentHeight, orientation := width, height, 0;
      offset := 0;
      dma := new Registers();
    }

    method SetOrientation(o: uint8)
      requires Valid()
      modifies this`orientation, this`currentWidth, this`currentHeight
      ensures Valid() && orientation == if o > 3 then old(orientation) else o
      ensures o <= 3 ==> (currentWidth, currentHeight)
                         == if o <= 1 then (panelWidth, panelHeight) else (panelHeight, panelWidth)
    {
      if o > 3 {
        return;
      }
      orientation := o;
      if o == 0 || o == 1 {
        currentHeight, currentWidth := panelHeight, panelWidth;
      } else {
        currentHeight, currentWidth := panelWidth, panelHeight;
      }
    }

    method SetMemory(address: uint32, lineOffset: uint32, lines: uint32, run: uint32)
      requires offset + address < 0x1_0000_0000
      modifies dma`outputAddress, dma`outputOffset, dma`numberOfLine, dma`pixelPerLine
      ensures dma.outputAddress == offset + address && dma.outputOffset == lineOffset
      ensures dma.numberOfLine == lines && dma.pixelPerLine == run
    {
      dma.outputAddress, dma.outputOffset := offset + address, lineOffset;
      dma.numberOfLine, dma.pixelPerLine := lines, run;
    }

    /** The controller writes the color, line by line. */
    method InitAndTransfer()
      requires 0 < dma.pixelPerLine + dma.outputOffset
      requires 0 < dma.numberOfLine && 0 < dma.pixelPerLine ==>
                 dma.outputAddress + (dma.numberOfLine - 1) * (dma.pixelPerLine + dma.outputOffset) + dma.pixelPerLine
                 <= memory.Length
      modifies memory
      ensures memory[..] == Fill(old(memory[..]), dma.outputAddress, dma.pixelPerLine + dma.outputOffset,
                dma.numberOfLine, dma.pixelPerLine, dma.outputColor)
    {
      var start, stride := dma.outputAddress, dma.pixelPerLine + dma.outputOffset;
      ghost var before := memory[..];
      for l := 0 to dma.numberOfLine
        invariant forall c :: 0 <= c < memory.Length ==>
                    memory[c] == if InBlock(c, start, stride, l, dma.pixelPerLine) then dma.outputColor else before[c]
      {
        for p := 0 to dma.pixelPerLine
          invariant forall c :: 0 <= c < memory.Length ==>
                      memory[c]
                      == if InBlock(c, start, stride, l, dma.pixelPerLine)
                            || start + l * stride <= c < start + l * stride + p
                         then dma.outputColor else before[c]
        {
          LineFits(l, dma.numberOfLine, stride);
          memory[start + l * stride + p] := dma.outputColor;
        }
        forall c
          ensures InBlock(c, start, stride, l + 1, dma.pixelPerLine)
             <==> (InBlock(c, start, stride, l, dma.pixelPerLine)
                   || start + l * stride <= c < start + l * stride + dma.pixelPerLine)
        {
          NextLine(c, start, stride, l, dma.pixelPerLine);
        }
      }
    }

    /** The color's red, green and blue fields, as the controller packs them. */
    method SetColors(color: uint32)
      modifies dma`outputColor
      ensures dma.outputColor == ToUint16(color)
    {
      var blue := color % 0x20;
      var green := color / 0x20 % 0x40;
      var red := color / 0x800 % 0x20;
      PackedColor(color);
      dma.outputColor := red * 0x800 + green * 0x20 + blue;
    }

    /** Where each orientation puts the picture on the panel: the cell of the origin, and
        how it changes to the right and downwards. */
    lemma PlaceOnPanel(x: int, y: int)
      requires Valid()
      ensures var w: int := panelWidth;
              && Screen().Cell(Point(0, 0))
                 == offset + (if orientation == 0 then w * panelHeight - 1 else if orientation == 1 then 0
                              else if orientation == 2 then w * panelHeight - w else w - 1)
              && Screen().Cell(Point(x + 1, y))
                 == Screen().Cell(Point(x, y)) + (if orientation == 0 then -1 else if orientation == 1 then 1
                                                  else if orientation == 2 then -w else w)
              && Screen().Cell(Point(x, y + 1))
                 == Screen().Cell(Point(x, y)) + (if orientation == 0 then -w else if orientation == 1 then w
                                                  else if orientation == 2 then 1 else -1)
    {
      var w, h := panelWidth, panelHeight;
      RowsApart(w, h - 1);
      if orientation == 0 {
        RowsApart(w, h - 2 - y);
      } else if orientation == 1 {
        RowsApart(w, y);
      } else if orientation == 2 {
        RowsApart(w, h - 2 - x);
      } else {
        RowsApart(w, x);
      }
    }

    /** The cell of a pixel, as the driver computes it, also off the screen. */
    method CellOf(x: uint16, y: uint16) returns (cell: int)
      requires Valid()
      ensures cell == Screen().Cell(Point(x, y))
      ensures cell == offset + if orientation == 0 then panelWidth * panelHeight - 1 - x - y * panelWidth
                               else if orientation == 1 then x + y * panelWidth
                               else if orientation == 2 then (panelHeight - 1) * panelWidth - x * panelWidth + y
                               else panelWidth - 1 + x * panelWidth - y
      ensures Screen().OnScreen(Point(x, y)) ==> offset <= cell < offset + panelWidth * panelHeight
    {
      if orientation == 1 {
        cell := offset + (y * panelWidth + x);
      } else if orientation == 0 {
        cell := offset + ((panelHeight - y - 1) * panelWidth + (panelWidth - x - 1));
      } else if orientation == 3 {
        cell := offset + (x * panelWidth + panelWidth - y - 1);
      } else {
        cell := offset + ((panelHeight - x - 1) * panelWidth + y);
      }
      Screen().Bijection(Point(x, y), 0);
    }

    /** DrawPixel and GetPixel do not check their coordinates; they must not lead out of
        the memory. */
    method DrawPixel(x: uint16, y: uint16, color: uint32)
      requires Valid() && 0 <= Screen().Cell(Point(x, y)) < memory.Length
      modifies memory
      ensures Valid()
      ensures memory[..] == old(memory[..])[Screen().Cell(Point(x, y)) := ToUint16(color)]
      ensures Screen().OnScreen(Point(x, y)) ==>
                memory[..] == Screen().Paint(old(memory[..]), iset{Point(x, y)}, ToUint16(color))
    {
      var cell := CellOf(x, y);
      if Screen().OnScreen(Point(x, y)) {
        Screen().PaintOne(memory[..], Point(x, y), ToUint16(color));
      }
      memory[cell] := ToUint16(color);
    }

    method GetPixel(x: uint16, y: uint16) returns (color: int)
      requires Valid() && 0 <= Screen().Cell(Point(x, y)) < memory.Length
      ensures color == memory[Screen().Cell(Point(x, y))]
    {
      var cell := CellOf(x, y);
      color := memory[cell];
    }

    method DrawHorizontalLine(x: int16, y: int16, length: uint16, color: uint32)
      requires Valid()
      modifies memory, dma
      ensures Valid()
      ensures memory[..] == Screen().Paint(old(memory[..]),
                HorizontalPixels(currentWidth, currentHeight, x, y, length), ToUint16(color))
    {
      ghost var screen, before := Screen(), memory[..];
      ghost var drawn := HorizontalPixels(currentWidth, currentHeight, x, y, length);
      if x >= currentWidth || y >= currentHeight || length == 0 {
        NothingDrawn(screen, before, drawn, ToUint16(color));
        return;
      }
      var x, y, length := x, y, length;
      if x < 0 {
        length := ToUint16(length + x);
        x := 0;
      }
      if y < 0 {
        y := 0;
      }
      if x + length >= currentWidth {
        length := currentWidth - x;
      }
      SetColors(color);
      SetHorizontal(x, y, length);
      TransferRectangle(x, y, length, 1, drawn);
    }

    /** The registers describe the block that displays the pixels from (x, y) to
        (x + columns - 1, y + rows - 1). */
    ghost predicate Describes(x: int, y: int, columns: int, rows: int)
      reads this, dma
      requires Valid()
    {
      var b := BlockOf(Screen(), x, y, columns, rows);
      && dma.outputAddress == offset + b.row * panelWidth + b.column
      && dma.numberOfLine == b.lines && dma.pixelPerLine == b.run && b.run + dma.outputOffset == panelWidth
    }

    /** SetMemory for a block within the panel. */
    method SetBlock(address: int, lineOffset: uint32, lines: uint32, run: uint32, ghost row: int, ghost column: int)
      requires Valid() && address == row * panelWidth + column && run + lineOffset == panelWidth
      requires 0 <= row && 0 <= column && row + lines <= panelHeight && column + run <= panelWidth
      modifies dma`outputAddress, dma`outputOffset, dma`numberOfLine, dma`pixelPerLine
      ensures Valid()
      ensures dma.outputAddress == offset + (row * panelWidth + column)
      ensures dma.outputAddress == offset + row * panelWidth + column
      ensures dma.outputOffset == lineOffset && dma.numberOfLine == lines && dma.pixelPerLine == run
    {
      BlockFits(panelWidth, panelHeight, row, column, lines, run);
      SetMemory(address, lineOffset, lines, run);
    }

    method SetHorizontal(x: int16, y: int16, length: uint16)
      requires Valid() && 0 <= x && 0 <= y < currentHeight && x + length <= currentWidth
      modifies dma`outputAddress, dma`outputOffset, dma`numberOfLine, dma`pixelPerLine
      ensures Valid()
      ensures Describes(x, y, length, 1)
    {
      var w, h := panelWidth, panelHeight;
      if orientation == 1 {
        SetBlock(y * w + x, w - length, 1, length, y, x);
      } else if orientation == 0 {
        SetBlock((h - 1 - y) * w + w - x - length, w - length, 1, length, h - 1 - y, w - x - length);
      } else if orientation == 3 {
        SetBlock(w - y - 1 + w * x, w - 1, length, 1, x, w - y - 1);
      } else {
        SetBlock(y + w * (h - length - x), w - 1, length, 1, h - length - x, y);
      }
    }

    method DrawVerticalLine(x: int16, y: int16, length: uint16, color: uint32)
      requires Valid()
      modifies memory, dma
      ensures Valid()
      ensures memory[..] == Screen().Paint(old(memory[..]),
                VerticalPixels(currentWidth, currentHeight, x, y, length), ToUint16(color))
    {
      ghost var screen, before := Screen(), memory[..];
      ghost var drawn := VerticalPixels(currentWidth, currentHeight, x, y, length);
      if x >= currentWidth || y >= currentHeight || length == 0 {
        NothingDrawn(screen, before, drawn, ToUint16(color));
        return;
      }
      var x, y, length := x, y, length;
      if x < 0 {
        x := 0;
      }
      if y < 0 {
        y := 0;
      }
      if y + length >= currentHeight {
        length := currentHeight - y;
      }
      SetColors(color);
      SetVertical(x, y, length);
      TransferRectangle(x, y, 1, length, drawn);
    }

    method SetVertical(x: int16, y: int16, length: uint16)
      requires Valid() && 0 <= x < currentWidth && 0 <= y && y + length <= currentHeight
      modifies dma`outputAddress, dma`outputOffset, dma`numberOfLine, dma`pixelPerLine
      ensures Valid()
      ensures Describes(x, y, 1, length)
    {
      var w, h := panelWidth, panelHeight;
      if orientation == 1 {
        SetBlock(y * w + x, w - 1, length, 1, y, x);
      } else if orientation == 0 {
        SetBlock((h - length - y) * w + w - x - 1, w - 1, length, 1, h - length - y, w - x - 1);
      } else if orientation == 3 {
        SetBlock(w - y - length + w * x, w - length, 1, length, x, w - y - length);
      } else {
        SetBlock(y + w * (h - 1 - x), w - length, 1, length, h - 1 - x, y);
      }
    }

    /** Draws the Long + 1 pixels of the closed form.  Spans of more than 0x4000
        pixels do not fit the 16 bits of the loop's remainder. */
    method DrawLine(x1: int16, y1: int16, x2: int16, y2: int16, color: uint32)
      requires Valid() && FitsWalk(Line(x1, y1, x2, y2))
      modifies memory, dma
      ensures Valid()
      ensures memory[..] == Screen().Paint(old(memory[..]),
                              LinePixels(currentWidth, currentHeight, Line(x1, y1, x2, y2)), ToUint16(color))
    {
      ghost var l, before := Line(x1, y1, x2, y2), memory[..];
      ghost var screen, w, h := Screen(), currentWidth, currentHeight;
      var dx: int16, dy: int16 := Abs(x2 - x1), Abs(y2 - y1);
      var s := ChooseSteps(x1, y1, x2, y2, dx, dy);
      var x: int16, y: int16, num: int16 := x1, y1, s.den / 2;
      Screen().PaintNothing(before, ToUint16(color));
      var curpixel: int16 := 0;
      while curpixel <= s.den
        invariant 0 <= curpixel <= s.den + 1
        invariant curpixel <= s.den ==> Walk(Point(x, y), num) == WalkAt(l, curpixel)
        invariant memory[..] == screen.Paint(before, WalkPixels(w, h, l, curpixel), ToUint16(color))
      {
        x, y, num := DrawStep(s, x, y, num, color, before, l, curpixel);
        curpixel := curpixel + 1;
      }
      WalkDrawsLine(w, h, l);
    }

    /** A line comes out as the closed form, cut to the screen, exactly under the
        condition on its end points that DmaLines works out. */
    lemma LineIsPaintedIff(cells: seq<int>, l: Line)
      requires Valid() && FitsWalk(l) && |cells| == memory.Length
      ensures Screen().SamePicture(cells, LinePixels(currentWidth, currentHeight, l), l.DmaPixels())
         <==> DmaLines.LineFits(currentWidth, currentHeight, l)
    {
      Screen().SamePictureIff(cells, LinePixels(currentWidth, currentHeight, l), l.DmaPixels());
      DmaLines.LineIsClippedIff(currentWidth, currentHeight, l);
    }

    /** The body of the line's loop. */
    method DrawStep(s: Steps, x: int16, y: int16, num: int16, color: uint32, ghost before: seq<int>, ghost l: Line,
                    ghost k: nat)
      returns (x': int16, y': int16, num': int16)
      requires Valid() && FitsWalk(l) && k <= l.Long() && s == StepsOf(l) && SmallSteps(s)
      requires Walk(Point(x, y), num) == WalkAt(l, k)
      requires memory[..] == Screen().Paint(before, WalkPixels(currentWidth, currentHeight, l, k), ToUint16(color))
      modifies memory, dma
      ensures Valid()
      ensures k < l.Long() ==> Walk(Point(x', y'), num') == WalkAt(l, k + 1)
      ensures memory[..] == Screen().Paint(before, WalkPixels(currentWidth, currentHeight, l, k + 1), ToUint16(color))
    {
      ghost var w, h := currentWidth, currentHeight;
      WalkFits(l, k);
      assert WalkPixels(w, h, l, k + 1) == WalkPixels(w, h, l, k) + DotPixels(w, h, Point(x, y));
      DrawDot(x, y, color, before, WalkPixels(w, h, l, k), WalkPixels(w, h, l, k + 1));
      x', y', num' := MoveOn(s, x, y, num);
    }

    /** The pixel routine of the line loop: a horizontal line of length 1. */
    method DrawDot(x: int16, y: int16, color: uint32, ghost before: seq<int>, ghost done: iset<Point>,
            ghost more: iset<Point>)
      requires Valid() && memory[..] == Screen().Paint(before, done, ToUint16(color))
      requires more == done + DotPixels(currentWidth, currentHeight, Point(x, y))
      modifies memory, dma
      ensures Valid()
      ensures memory[..] == Screen().Paint(before, more, ToUint16(color))
    {
      ghost var dot := HorizontalPixels(currentWidth, currentHeight, x, y, 1);
      assert dot == DotPixels(currentWidth, currentHeight, Point(x, y));
      Screen().PaintTwice(before, done, dot, ToUint16(color));
      DrawHorizontalLine(x, y, 1, color);
    }

    /** One pixel, as a vertical line of length 1. */
    method DrawPoint(p: Point, color: uint32)
      requires Valid()
      modifies memory, dma
      ensures Valid()
      ensures memory[..] == Screen().Paint(old(memory[..]),
                              DotsOf(currentWidth, currentHeight, iset{p}), ToUint16(color))
    {
      DotOfOne(currentWidth, currentHeight, p.x, p.y);
      assert Dot(currentWidth, currentHeight, p.x, p.y)
          == VerticalPixels(currentWidth, currentHeight, ToInt16(p.x), ToInt16(p.y), 1);
      DrawVerticalLine(ToInt16(p.x), ToInt16(p.y), 1, color);
    }

    method DrawRun(x: int, y: int, length: int, color: uint32)
      requires Valid()
      modifies memory, dma
      ensures Valid()
      ensures memory[..] == Screen().Paint(old(memory[..]),
                Run(currentWidth, currentHeight, x, y, length), ToUint16(color))
    {
      assert Run(currentWidth, currentHeight, x, y, length)
          == HorizontalPixels(currentWidth, currentHeight, ToInt16(x), ToInt16(y), ToUint16(length));
      DrawHorizontalLine(ToInt16(x), ToInt16(y), ToUint16(length), color);
    }

    method DrawPair(a: Point, b: Point, color: uint32)
      requires Valid()
      modifies memory, dma
      ensures Valid()
      ensures memory[..] == Screen().Paint(old(memory[..]),
                              DotsOf(currentWidth, currentHeight, Pair(a, b)), ToUint16(color))
    {
      PaintDotsTwice(Screen(), memory[..], currentWidth, currentHeight, iset{a}, iset{b}, ToUint16(color));
      DrawPoint(a, color);
      DrawPoint(b, color);
    }

    method DrawPoints(a: Point, b: Point, c: Point, d: Point, color: uint32)
      requires Valid()
      modifies memory, dma
      ensures Valid()
      ensures memory[..] == Screen().Paint(old(memory[..]),
                              DotsOf(currentWidth, currentHeight, Pair(a, b) + Pair(c, d)), ToUint16(color))
    {
      PaintDotsTwice(Screen(), memory[..], currentWidth, currentHeight, Pair(a, b), Pair(c, d), ToUint16(color));
      DrawPair(a, b, color);
      DrawPair(c, d, color);
    }

    method DrawCompass(x0: uint16, y0: uint16, r: uint16, color: uint32)
      requires Valid()
      modifies memory, dma
      ensures Valid()
      ensures memory[..] == Screen().Paint(old(memory[..]),
                Compass(currentWidth, currentHeight, x0, y0, r), ToUint16(color))
    {
      CompassReflects(x0, y0, r);
      DrawPoints(Point(x0, y0 + r), Point(x0, y0 - r), Point(x0 + r, y0), Point(x0 - r, y0), color);
    }

    /** The compass points and the centre row. */
    method DrawCentre(x0: uint16, y0: uint16, r: uint16, color: uint32)
      requires Valid()
      modifies memory, dma
      ensures Valid()
      ensures memory[..] == Screen().Paint(old(memory[..]),
                Centre(currentWidth, currentHeight, x0, y0, r), ToUint16(color))
    {
      ghost var w, h, before := currentWidth, currentHeight, memory[..];
      DrawCompass(x0, y0, r, color);
      DrawRun(x0 - r, y0, 2 * r, color);
      Screen().PaintTwice(before, Compass(w, h, x0, y0, r), Run(w, h, x0 - r, y0, 2 * r), ToUint16(color));
    }

    /** The two runs of the same length above and below the centre. */
    method DrawRunPair(x: int, y0: int, y: int, length: int, color: uint32)
      requires Valid()
      modifies memory, dma
      ensures Valid()
      ensures memory[..] == Screen().Paint(old(memory[..]),
                RunPair(currentWidth, currentHeight, x, y0, y, length), ToUint16(color))
    {
      ghost var w, h, before := currentWidth, currentHeight, memory[..];
      DrawRun(x, y0 + y, length, color);
      DrawRun(x, y0 - y, length, color);
      Screen().PaintTwice(before, Run(w, h, x, y0 + y, length), Run(w, h, x, y0 - y, length), ToUint16(color));
    }

    /** The four runs of an octant point. */
    method DrawFourRuns(x0: uint16, y0: uint16, x: int16, y: int16, color: uint32)
      requires Valid()
      modifies memory, dma
      ensures Valid()
      ensures memory[..] == Screen().Paint(old(memory[..]),
                Runs(currentWidth, currentHeight, x0, y0, x, y), ToUint16(color))
    {
      ghost var w, h, before := currentWidth, currentHeight, memory[..];
      DrawRunPair(x0 - x, y0, y, 2 * x, color);
      DrawRunPair(x0 - y, y0, x, 2 * y, color);
      Screen().PaintTwice(before, RunPair(w, h, x0 - x, y0, y, 2 * x), RunPair(w, h, x0 - y, y0, x, 2 * y),
              ToUint16(color));
    }

    /** ... over a figure of which `done` has been drawn over `before`. */
    method DrawRuns(x0: uint16, y0: uint16, x: int16, y: int16, color: uint32, ghost before: seq<int>,
            ghost done: iset<Point>)
      requires Valid() && memory[..] == Screen().Paint(before, done, ToUint16(color))
      modifies memory, dma
      ensures Valid()
      ensures memory[..] == Screen().Paint(before,
                done + Runs(currentWidth, currentHeight, x0, y0, x, y), ToUint16(color))
    {
      Screen().PaintTwice(before, done, Runs(currentWidth, currentHeight, x0, y0, x, y), ToUint16(color));
      DrawFourRuns(x0, y0, x, y, color);
    }

    /** The body of the filled circle's loop. */
    method DrawTurn(x0: uint16, y0: uint16, ghost r: nat, x: int16, y: int16, f: int16, ddFx: int16, ddFy: int16,
                    color: uint32, ghost before: seq<int>)
      returns (x': int16, y': int16, f': int16, ddFx': int16, ddFy': int16)
      requires Valid() && CircleLoop(r, x, y, f, ddFx, ddFy) && x < y && r <= 0x4000
      requires memory[..] == Screen().Paint(before,
                DrawnBefore(currentWidth, currentHeight, x0, y0, r, x), ToUint16(color))
      modifies memory, dma
      ensures Valid()
      ensures CircleLoop(r, x', y', f', ddFx', ddFy') && x' - y' > x - y
      ensures memory[..] == Screen().Paint(before,
                DrawnBefore(currentWidth, currentHeight, x0, y0, r, x'), ToUint16(color))
    {
      x', y', f', ddFx', ddFy' := Turn(r, x, y, f, ddFx, ddFy);
      DrawRuns(x0, y0, x', y', color, before, DrawnBefore(currentWidth, currentHeight, x0, y0, r, x));
    }

    /** Draws what DmaCircle.Drawn says; DmaCircle.DrawnIsShortDisc gives its closed
        form on the screen, and DiscIsPaintedIff tells when that is the disc. */
    method DrawFilledCircle(x0: uint16, y0: uint16, r: uint16, color: uint32)
      requires Valid() && r <= 0x4000
      modifies memory, dma
      ensures Valid()
      ensures memory[..] == Screen().Paint(old(memory[..]),
                Drawn(currentWidth, currentHeight, x0, y0, r), ToUint16(color))
    {
      ghost var screen, before := Screen(), memory[..];
      var f: int16 := 1 - r;
      var ddFx: int16 := 1;
      var ddFy: int16 := -2 * (r as int);
      var x: int16 := 0;
      var y: int16 := r;

      DrawCentre(x0, y0, r, color);
      ghost var w, h := currentWidth, currentHeight;
      while x < y
        invariant CircleLoop(r, x, y, f, ddFx, ddFy)
        invariant memory[..] == screen.Paint(before, DrawnBefore(w, h, x0, y0, r, x), ToUint16(color))
        decreases y - x
      {
        x, y, f, ddFx, ddFy := DrawTurn(x0, y0, r, x, y, f, ddFx, ddFy, color, before);
      }
      DrawnInTheEnd(w, h, x0, y0, r, x);
    }

    /** A filled circle comes out as the closed-form disc exactly when the last pixels of
        its rows, which the driver leaves out, lie off the screen, or there are none. */
    lemma DiscIsPaintedIff(cells: seq<int>, x0: int, y0: int, r: nat)
      requires Valid() && 0 <= x0 < 0x4000 && 0 <= y0 < 0x4000 && r <= 0x4000
      requires |cells| == memory.Length
      ensures Screen().SamePicture(cells, Drawn(currentWidth, currentHeight, x0, y0, r), DiscAt(x0, y0, r))
         <==> EndsBeyond(currentWidth, currentHeight, x0, y0, r)
    {
      Screen().SamePictureIff(cells, Drawn(currentWidth, currentHeight, x0, y0, r), DiscAt(x0, y0, r));
      DrawnIsDiscIff(currentWidth, currentHeight, x0, y0, r);
    }

    method DrawFour(x0: int, y0: int, u: int, v: int, color: uint32)
      requires Valid()
      modifies memory, dma
      ensures Valid()
      ensures memory[..] == Screen().Paint(old(memory[..]),
                              DotsOf(currentWidth, currentHeight, Four(x0, y0, u, v)), ToUint16(color))
    {
      DrawPoints(Point(x0 + u, y0 + v), Point(x0 - u, y0 + v), Point(x0 + u, y0 - v), Point(x0 - u, y0 - v), color);
    }

    /** The eight pixels of an octant point. */
    method DrawReflections(x0: int, y0: int, x: int, y: int, color: uint32)
      requires Valid() && 0 <= x && 0 <= y
      modifies memory, dma
      ensures Valid()
      ensures memory[..] == Screen().Paint(old(memory[..]),
                              DotsOf(currentWidth, currentHeight, ReflectionsAt(x0, y0, x, y)), ToUint16(color))
    {
      PaintDotsTwice(Screen(), memory[..], currentWidth, currentHeight, Four(x0, y0, x, y), Four(x0, y0, y, x),
                     ToUint16(color));
      EightReflect(x0, y0, x, y);
      DrawFour(x0, y0, x, y, color);
      DrawFour(x0, y0, y, x, color);
    }

    /** The body of the outline's loop. */
    method DrawRingTurn(x0: uint16, y0: uint16, ghost r: nat, x: int16, y: int16, f: int16, ddFx: int16, ddFy: int16,
                        color: uint32, ghost before: seq<int>)
      returns (x': int16, y': int16, f': int16, ddFx': int16, ddFy': int16)
      requires Valid() && CircleLoop(r, x, y, f, ddFx, ddFy) && x < y && r <= 0x4000
      requires memory[..] == Screen().Paint(before,
                               DotsOf(currentWidth, currentHeight, RingSoFar(x0, y0, r, x)), ToUint16(color))
      modifies memory, dma
      ensures Valid()
      ensures CircleLoop(r, x', y', f', ddFx', ddFy') && x' - y' > x - y
      ensures memory[..] == Screen().Paint(before,
                              DotsOf(currentWidth, currentHeight, RingSoFar(x0, y0, r, x')), ToUint16(color))
    {
      WalkInOctant(r, x);
      RingTurn(x0, y0, r, x, y, f);
      x', y', f', ddFx', ddFy' := Turn(r, x, y, f, ddFx, ddFy);
      PaintDotsTwice(Screen(), before, currentWidth, currentHeight, RingSoFar(x0, y0, r, x),
                     ReflectionsAt(x0, y0, x', y'), ToUint16(color));
      DrawReflections(x0, y0, x', y', color);
    }

    /** The outline: every pixel of the ring is drawn, as a vertical line of length 1.
        DmaRing.RingIsClippedIff tells when that is the ring cut to the screen. */
    method DrawCircle(x0: uint16, y0: uint16, r: uint16, color: uint32)
      requires Valid() && r <= 0x4000
      modifies memory, dma
      ensures Valid()
      ensures memory[..] == Screen().Paint(old(memory[..]),
                              DotsOf(currentWidth, currentHeight, RingAt(x0, y0, r)), ToUint16(color))
    {
      ghost var screen, before := Screen(), memory[..];
      var f: int16 := 1 - r;
      var ddFx: int16 := 1;
      var ddFy: int16 := -2 * (r as int);
      var x: int16 := 0;
      var y: int16 := r;

      DrawCompass(x0, y0, r, color);
      RingStart(x0, y0, r);
      ghost var w, h := currentWidth, currentHeight;
      while x < y
        invariant CircleLoop(r, x, y, f, ddFx, ddFy)
        invariant memory[..] == screen.Paint(before, DotsOf(w, h, RingSoFar(x0, y0, r, x)), ToUint16(color))
        decreases y - x
      {
        x, y, f, ddFx, ddFy := DrawRingTurn(x0, y0, r, x, y, f, ddFx, ddFy, color, before);
      }
      WalkInOctant(r, x);
      RingEnd(x0, y0, r, x, y, f);
    }

    /** The part of a rectangle's width and height that fits the screen. */
    function Clip(from: int, size: int, limit: int): int { if from + size >= limit then limit - from else size }

    ghost predicate InRectangle(x: uint16, y: uint16, w: uint16, h: uint16, p: Point) {
      x <= p.x < x + w && y <= p.y < y + h
    }

    ghost function RectanglePixels(x: uint16, y: uint16, w: uint16, h: uint16): iset<Point> {
      iset p | InRectangle(x, y, w, h, p)
    }

    /** The cell at which the transfer of a clipped rectangle starts.  For
        orientation 2 the driver adds x where the column of the block is y. */
    ghost function RectangleStart(x: int, y: int, columns: int, rows: int): int
      reads `memory, `currentWidth, `currentHeight, `offset, `orientation
      requires Valid()
    {
      var b := BlockOf(Screen(), x, y, columns, rows);
      offset + b.row * panelWidth + if orientation == 2 then x else b.column
    }

    method DrawFilledRectangle(x: uint16, y: uint16, width: uint16, height: uint16, color: uint32)
      requires Valid()
      modifies memory, dma
      ensures Valid()
      ensures x >= currentWidth || y >= currentHeight ==> memory[..] == old(memory[..])
      ensures x < currentWidth && y < currentHeight ==>
                var columns, rows := Clip(x, width, currentWidth), Clip(y, height, currentHeight);
                var b := BlockOf(Screen(), x, y, columns, rows);
                memory[..]
                == Fill(old(memory[..]), RectangleStart(x, y, columns, rows), panelWidth, b.lines, b.run,
                        ToUint16(color))
    {
      if x >= currentWidth || y >= currentHeight {
        return;
      }
      var width, height := width, height;
      if y + height >= currentHeight {
        height := currentHeight - y;
      }
      if x + width >= currentWidth {
        width := currentWidth - x;
      }
      FillRectangle(x, y, width, height, color);
    }

    method FillRectangle(x: uint16, y: uint16, width: uint16, height: uint16, color: uint32)
      requires Valid() && x < currentWidth && y < currentHeight && x + width <= currentWidth
                && y + height <= currentHeight
      modifies memory, dma
      ensures Valid()
      ensures var b := BlockOf(Screen(), x, y, width, height);
              memory[..]
              == Fill(old(memory[..]), RectangleStart(x, y, width, height), panelWidth, b.lines, b.run, ToUint16(color))
    {
      SetColors(color);
      SetRectangle(x, y, width, height);
      RectangleInMemory(x, y, width, height);
      InitAndTransfer();
    }

    method SetRectangle(x: uint16, y: uint16, width: uint16, height: uint16)
      requires Valid() && x < currentWidth && y < currentHeight && x + width <= currentWidth
                && y + height <= currentHeight
      modifies dma`outputAddress, dma`outputOffset, dma`numberOfLine, dma`pixelPerLine
      ensures Valid()
      ensures var b := BlockOf(Screen(), x, y, width, height);
              && dma.outputAddress == RectangleStart(x, y, width, height)
              && dma.numberOfLine == b.lines && dma.pixelPerLine == b.run && b.run + dma.outputOffset == panelWidth
    {
      var w, h := panelWidth, panelHeight;
      if orientation == 1 {
        SetBlock(y * w + x, w - width, height, width, y, x);
      } else if orientation == 0 {
        SetBlock((h - height - y) * w + w - x - width, w - width, height, width, h - height - y, w - x - width);
      } else if orientation == 3 {
        SetBlock(w - y - height + w * x, w - height, width, height, x, w - y - height);
      } else {
        SetMisplaced(x, width, height);
      }
    }

    /** Orientation 2 of SetRectangle. */
    method SetMisplaced(x: uint16, width: uint16, height: uint16)
      requires Valid() && orientation == 2 && x < currentWidth && x + width <= currentWidth && height <= currentHeight
      modifies dma`outputAddress, dma`outputOffset, dma`numberOfLine, dma`pixelPerLine
      ensures Valid()
      ensures dma.outputAddress == offset + (panelHeight - width - x) * panelWidth + x
      ensures dma.outputOffset == panelWidth - height && dma.numberOfLine == width && dma.pixelPerLine == height
    {
      var w, h := panelWidth, panelHeight;
      MisplacedFits(w, h, x, width, height);
      SetMemory(x + w * (h - width - x), w - height, width, height);
    }

    lemma RectangleInMemory(x: int, y: int, columns: int, rows: int)
      requires Valid() && Screen().Holds(x, y, columns, rows)
      ensures var b := BlockOf(Screen(), x, y, columns, rows);
              0 < b.lines && 0 < b.run ==>
                && 0 <= RectangleStart(x, y, columns, rows)
                && RectangleStart(x, y, columns, rows) + (b.lines - 1) * panelWidth + b.run <= memory.Length
    {
      var b := BlockOf(Screen(), x, y, columns, rows);
      if orientation == 2 {
        MisplacedFits(panelWidth, panelHeight, x, columns, rows);
      } else {
        BlockFits(panelWidth, panelHeight, b.row, b.column, b.lines, b.run);
      }
    }

    /** The transfer paints the rectangle asked for, cut to the screen. */
    ghost predicate DrawsRectangle(cells: seq<int>, x: uint16, y: uint16, width: uint16, height: uint16)
      reads `memory, `currentWidth, `currentHeight, `offset, `orientation
      requires Valid() && x < currentWidth && y < currentHeight
    {
      var columns, rows := Clip(x, width, currentWidth), Clip(y, height, currentHeight);
      var b := BlockOf(Screen(), x, y, columns, rows);
      forall color :: Fill(cells, RectangleStart(x, y, columns, rows), panelWidth, b.lines, b.run, color)
                      == Screen().Paint(cells, RectanglePixels(x, y, width, height), color)
    }

    /** It does so exactly when the orientation is not 2, or x == y, or the
        rectangle is empty. */
    lemma RectangleIsClippedIff(cells: seq<int>, x: uint16, y: uint16, width: uint16, height: uint16)
      requires Valid() && x < currentWidth && y < currentHeight && |cells| == memory.Length
      ensures DrawsRectangle(cells, x, y, width, height)
         <==> orientation != 2 || x == y || width == 0 || height == 0
    {
      var columns, rows := Clip(x, width, currentWidth), Clip(y, height, currentHeight);
      var b := BlockOf(Screen(), x, y, columns, rows);
      var start, right := RectangleStart(x, y, columns, rows), offset + b.row * panelWidth + b.column;
      RightPlace(cells, x, y, width, height);
      if start != right {
        if width > 0 && height > 0 {
          RectangleInMemory(x, y, columns, rows);
          BlockFits(panelWidth, panelHeight, b.row, b.column, b.lines, b.run);
          LineFits(0, b.lines, panelWidth);
          BlocksDiffer(cells, start, right, panelWidth, b.lines, b.run);
        } else {
          EmptyBlock(cells, start, right, panelWidth, b.lines, b.run);
        }
      }
    }

    lemma RightPlace(cells: seq<int>, x: uint16, y: uint16, width: uint16, height: uint16)
      requires Valid() && x < currentWidth && y < currentHeight
      ensures var columns, rows := Clip(x, width, currentWidth), Clip(y, height, currentHeight);
              var b := BlockOf(Screen(), x, y, columns, rows);
              forall color :: Fill(cells, offset + b.row * panelWidth + b.column, panelWidth, b.lines, b.run, color)
                              == Screen().Paint(cells, RectanglePixels(x, y, width, height), color)
    {
      var b := BlockOf(Screen(), x, y, Clip(x, width, currentWidth), Clip(y, height, currentHeight));
      forall color
        ensures Fill(cells, offset + b.row * panelWidth + b.column, panelWidth, b.lines, b.run, color)
             == Screen().Paint(cells, RectanglePixels(x, y, width, height), color)
      {
        BlockIsPicture(Screen(), cells, b, RectanglePixels(x, y, width, height), color);
      }
    }

    /** Starts the transfer of the pixels that the registers describe. */
    method TransferRectangle(ghost x: int, ghost y: int, ghost columns: int, ghost rows: int, ghost drawn: iset<Point>)
      requires Valid() && Describes(x, y, columns, rows) && Screen().Holds(x, y, columns, rows)
      requires forall p :: Screen().OnScreen(p) ==> (p in drawn <==> x <= p.x < x + columns && y <= p.y < y + rows)
      modifies memory
      ensures Valid()
      ensures memory[..] == Screen().Paint(old(memory[..]), drawn, dma.outputColor)
    {
      ghost var b := BlockOf(Screen(), x, y, columns, rows);
      BlockFits(panelWidth, panelHeight, b.row, b.column, b.lines, b.run);
      BlockIsPicture(Screen(), memory[..], b, drawn, dma.outputColor);
      InitAndTransfer();
    }
  }

  /** The branches before the loop. */
  method ChooseSteps(x1: int16, y1: int16, x2: int16, y2: int16, dx: int16, dy: int16) returns (s: Steps)
    requires dx == Abs(x2 - x1) && dy == Abs(y2 - y1)
    ensures s == StepsOf(Line(x1, y1, x2, y2)) && s.den == Line(x1, y1, x2, y2).Long()
    ensures s.den <= 0x4000 ==> SmallSteps(s)
  {
    var xinc1, xinc2, yinc1, yinc2;
    if x2 >= x1 {
      xinc1, xinc2 := 1, 1;
    } else {
      xinc1, xinc2 := -1, -1;
    }
    if y2 >= y1 {
      yinc1, yinc2 := 1, 1;
    } else {
      yinc1, yinc2 := -1, -1;
    }
    if dx >= dy {
      xinc1, yinc2 := 0, 0;
      s := Steps(xinc1, xinc2, yinc1, yinc2, dx, dy);
    } else {
      xinc2, yinc1 := 0, 0;
      s := Steps(xinc1, xinc2, yinc1, yinc2, dy, dx);
    }
  }

  ghost predicate SmallSteps(s: Steps) {
    && (s.xinc1 == 0 || s.xinc2 == 0) && -1 <= s.xinc1 <= 1 && -1 <= s.xinc2 <= 1
    && (s.yinc1 == 0 || s.yinc2 == 0) && -1 <= s.yinc1 <= 1 && -1 <= s.yinc2 <= 1
    && 0 <= s.numadd <= s.den <= 0x4000
  }

  /** The second half of the line loop's body.  Behind the last pixel x and y may
      step out of their 16 bits; the conversion wraps, and they are not used. */
  method MoveOn(s: Steps, x: int16, y: int16, num: int16) returns (x': int16, y': int16, num': int16)
    requires SmallSteps(s) && 0 <= num <= s.den && num + s.numadd < 0x8000
    ensures var w := NextStep(s, Walk(Point(x, y), num));
            x' == ToInt16(w.at.x) && y' == ToInt16(w.at.y) && num' == w.num
  {
    x', y', num' := x, y, num;
    num' := num' + s.numadd;
    if num' >= s.den {
      num' := num' - s.den;
      x' := ToInt16(x' + s.xinc1);
      y' := ToInt16(y' + s.yinc1);
    }
    x' := ToInt16(x' + s.xinc2);
    y' := ToInt16(y' + s.yinc2);
  }

  datatype Block = Block(row: int, column: int, lines: int, run: int)

  /** The block of cells that displays a rectangle of pixels. */
  ghost function BlockOf(screen: Panel, x: int, y: int, columns: int, rows: int): Block {
    match screen.rotation
    case Upright => Block(y, x, rows, columns)
    case UpsideDown => Block(screen.height - rows - y, screen.width - x - columns, rows, columns)
    case Clockwise => Block(x, screen.width - y - rows, columns, rows)
    case CounterClockwise => Block(screen.height - columns - x, y, columns, rows)
  }

  /** Two blocks of the same shape that start at different cells differ. */
  lemma BlocksDiffer(cells: seq<int>, start: int, right: int, stride: int, lines: int, run: int)
    requires 0 <= start < |cells| && 0 <= right < |cells| && start != right
    requires 0 < lines && 0 < run && 0 < stride
    ensures exists color :: Fill(cells, start, stride, lines, run, color)
                            != Fill(cells, right, stride, lines, run, color)
  {
    var first := if start < right then start else right;
    var color := cells[first] + 1;
    assert Fill(cells, first, stride, lines, run, color)[first] == color;
    assert Fill(cells, if start < right then right else start, stride, lines, run, color)[first] == cells[first];
  }

  lemma EmptyBlock(cells: seq<int>, start: int, right: int, stride: int, lines: int, run: int)
    requires 0 < stride && (lines == 0 || run == 0)
    ensures forall color :: Fill(cells, start, stride, lines, run, color)
                            == Fill(cells, right, stride, lines, run, color)
  {
  }

  /** Where orientation 2 puts a rectangle: in the wrong place, but still within
      the panel. */
  lemma MisplacedFits(w: int, h: int, x: int, columns: int, rows: int)
    requires 0 < w && 0 <= x && 0 <= columns && x + columns <= h && 0 <= rows <= w
    ensures 0 <= (h - columns - x) * w + x <= w * h + x
    ensures 0 < columns ==> (h - columns - x) * w + x + (columns - 1) * w + rows <= w * h
  {
  }

  lemma RowsApart(w: int, row: int)
    ensures (row + 1) * w == row * w + w
  {
  }

  lemma PackedColor(color: nat)
    ensures color / 0x800 % 0x20 * 0x800 + color / 0x20 % 0x40 * 0x20 + color % 0x20 == color % 0x1_0000
  {
    var a := color / 0x20;
    var b := a / 0x40;
    assert color / 0x800 == b;
    assert color == b / 0x20 * 0x1_0000 + b % 0x20 * 0x800 + a % 0x40 * 0x20 + color % 0x20;
  }

  lemma NothingDrawn(screen: Panel, cells: seq<int>, drawn: iset<Point>, color: int)
    requires screen.Valid() && forall p :: p !in drawn
    ensures screen.Paint(cells, drawn, color) == cells
  {
    assert drawn == iset{};
    screen.PaintNothing(cells, color);
  }

  /** A block that starts within the panel stays within the controller's range. */
  lemma BlockFits(w: int, h: int, row: int, column: int, lines: int, run: int)
    requires 0 < w && 0 <= row && 0 <= lines && row + lines <= h && 0 <= column && 0 <= run && column + run <= w
    ensures 0 <= row * w + column <= w * h + w
    ensures 0 < lines ==> row * w + column + (lines - 1) * w + run <= w * h
  {
  }

  ghost predicate Within(screen: Panel, b: Block) {
    0 <= b.row && 0 <= b.column && 0 <= b.lines && b.row + b.lines <= screen.height && 0 <= b.run
            && b.column + b.run <= screen.width
  }

  /** Filling the block paints the rectangle of pixels. */
  lemma BlockIsPicture(screen: Panel, cells: seq<int>, b: Block, drawn: iset<Point>, color: int)
    requires screen.Valid() && Within(screen, b)
    requires forall p :: screen.OnScreen(p) ==> (p in drawn <==> InPlace(b, screen.Place(p)))
    ensures Fill(cells, screen.base + b.row * screen.width + b.column, screen.width, b.lines, b.run, color)
         == screen.Paint(cells, drawn, color)
  {
    screen.PaintAt(cells, drawn, color);
    forall c | 0 <= c < |cells|
      ensures InBlock(c, screen.base + b.row * screen.width + b.column, screen.width, b.lines, b.run)
         <==> screen.Shows(c) && screen.PixelAt(c) in drawn
    {
      BlockByRow(screen, c, b);
      screen.ShowsByRow(c);
      if screen.Shows(c) {
        screen.Bijection(screen.PixelAt(c), c);
        assert screen.Place(screen.PixelAt(c)) == (screen.RowOf(c), screen.ColumnOf(c));
      }
    }
  }

  ghost predicate InPlace(b: Block, place: (int, int)) {
    b.row <= place.0 < b.row + b.lines && b.column <= place.1 < b.column + b.run
  }

  lemma BlockByRow(screen: Panel, c: int, b: Block)
    requires screen.Valid() && Within(screen, b)
    ensures InBlock(c, screen.base + b.row * screen.width + b.column, screen.width, b.lines, b.run)
       <==> InPlace(b, (screen.RowOf(c), screen.ColumnOf(c)))
  {
    screen.ShowsByRow(c);
    OffsetOfPlace(screen.width, b.row, b.column, screen.RowOf(c), screen.ColumnOf(c));
  }

  /** A cell's distance from the start of the block, split into lines. */
  lemma OffsetOfPlace(w: int, row: int, column: int, i: int, j: int)
    requires 0 < w && 0 <= column <= w && 0 <= j < w
    ensures var d := i * w + j - (row * w + column);
            && (j >= column ==> d / w == i - row && d % w == j - column)
            && (j < column ==> d / w == i - row - 1 && d % w == w + j - column)
            && (0 <= d <==> 0 <= d / w)
  {
    var d := i * w + j - (row * w + column);
    SplitOffset(w, row, i);
    if j >= column {
      DivModUnique(d, w, i - row, j - column);
    } else {
      DivModUnique(d, w, i - row - 1, w + j - column);
    }
    SignOfQuotient(d, w);
  }

  lemma SplitOffset(w: int, row: int, i: int)
    ensures i * w - row * w == (i - row) * w == (i - row - 1) * w + w
  {
  }

  lemma SignOfQuotient(n: int, w: int)
    requires 0 < w
    ensures 0 <= n <==> 0 <= n / w
  {
  }

  lemma LineFits(l: nat, n: nat, stride: nat)
    requires l < n
    ensures 0 <= l * stride <= (n - 1) * stride
  {
  }

  lemma NextLine(c: int, start: int, stride: nat, l: nat, run: nat)
    requires 0 < stride && run <= stride
    ensures InBlock(c, start, stride, l + 1, run)
       <==> InBlock(c, start, stride, l, run) || start + l * stride <= c < start + l * stride + run
  {
    var q := (c - start) / stride;
    Quotient(c - start, stride, l);
    if q == l {
      assert (c - start) % stride == c - start - l * stride;
    }
  }
}
