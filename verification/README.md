# STM32F4 library: a verified model

The library drives the peripherals of STM32F4 microcontrollers.  This project models
the parts of it that contain real algorithms, keeps their C integer types and branches,
and proves what they do for every input and over every run.

| files | part of the library |
|---|---|
| `CTypes`, `Numerals`, `Bits`, `Folds` | C integer types, numbers as text, packed words, runs of state machines |
| `Panels` | the screen as frame memory: four orientations, painting a set of pixels |
| `Lines`, `Circles`, `CircleLoops` | closed forms of lines, rings and discs, and the loops that reach them |
| `Ltdc`, `FilledCircle` | the LTDC display driver: pixels, lines, circles |
| `Dma2d`, `DmaFigures`, `DmaLines`, `DmaCircle`, `DmaRing` | the DMA2D driver: strided block transfers and the figures made of them |
| `Printf`, `PrintfMeaning`, `PrintfResults` | the number printers, the format interpreter, what formats mean, and what a caller finds in the buffer |
| `GpsNumbers`, `Gps`, `GpsRuns`, `GpsBuffers`, `GpsChecksum`, `GpsTerms`, `GpsParser` | the NMEA receiver: transition function, theorems about runs, buffers, checksum and terms, the driver's methods |
| `FatFs` | cutting off the beginning of a file in place |
| `Buttons` | the press classifier |
| `Gpio`, `Exti` | packed pin configuration, ownership of interrupt lines |

Code that changes state step by step is a class or a method over an array, proved against
a function of the old state; what the library promises is then proved about that function,
without naming it: in numbers, bits and characters.
A picture is described by the set of pixels that has been painted: every drawing method
says that the frame memory afterwards is the old memory painted with a set of points, and
lemmas say which set that is.  Sets are cut to the screen by `Panel.Paint` itself, and two
sets are the same picture if and only if they agree on the screen
(`Panels.Panel.SamePictureIff`).

`dafny verify dfyconfig.toml` checks the whole project.

## What was found

The model keeps the code as it is.  Where it does not do what it is for, a lemma gives the
exact condition under which it does.

- The two line routines are reversals of each other.  They draw the same pixels except at
  exact ties, where they are one step apart (`Lines.LinesAgreeUnlessTie`).
- A horizontal line of the DMA2D driver that ends left of the screen wraps its length, and
  one that starts above the screen is drawn in row 0 (`DmaFigures.HorizontalIsClippedIff`).
  A vertical line that starts above the screen is not shortened, and one left of the
  screen is drawn in column 0 (`DmaFigures.VerticalIsClippedIff`).
- A line of the DMA2D driver with a pixel left of column -1 fills a whole row, since a
  length of 1 turns negative and wraps (`DmaLines.LeftOverhangFillsRow`); above the screen
  its pixels go to row 0.  `DmaLines.LineIsClippedIff` tells from the end points when the
  picture is right all the same: a flat line must not cross the columns of the screen above
  it, and must itself cover the row that is filled; a steep line must not cross the rows of
  the screen left of column -1, and what falls into row 0 must be its pixel there.
- The pixels of a circle's outline that hang over the left or the upper edge are drawn in
  column 0 or row 0.  For a centre on the screen this always shows
  (`DmaRing.RingOnScreenIff`); `DmaRing.RingIsClippedIff` has the exact condition also for
  centres to the right of the screen and below it.
- A filled rectangle in orientation 2 is placed with x where the column is y
  (tm_stm32f4_dma2d_graphic.c, line 192): right if and only if x equals y or the rectangle
  is empty (`Dma2d.Display.RectangleIsClippedIff`).
- The runs of the DMA2D filled circle are one pixel too short.  The picture is right if and
  only if the missing pixels lie beyond the right edge, or there are none
  (`DmaCircle.DrawnIsDiscIff`), as for the circle around (239, 100) with radius 5 on 240 x 320
  pixels (`DmaCircle.RightEdgeExample`); a circle that hangs over no edge is right only up
  to a radius of 1.
- The LTDC filled circle clamps the ends of its runs.  Off the left edge they become
  unsigned and jump to the last column, which always shows.  A row above the screen goes to
  the last row, which shows if the disc is narrower there: on 240 x 320 pixels the
  circle around (225, 200) with radius 220 is right, the one around (120, 100) with radius
  110 is not (`FilledCircle.TopOverhangExamples`).  What hangs over at the right or below
  never shows.  `FilledCircle.DrawnIsDiscIff` has the exact condition.
- In Portrait1 the LTDC driver stores the origin one cell behind its layer
  (`Ltdc.Display.OwnLayer`).
- `vsnprintf` cuts texts made of characters at the length, but a number or a string can
  pass it ("%d" of 12345 writes five characters for a length of 3, `Printf.NumberOverruns`);
  `Printf.WithinIff` has the exact condition.  A text of exactly the length loses its
  last character, the result is the length that was kept, and after a bad conversion the
  NUL is missing.  A field that does not fit loses filler instead of its end: "%8d" of 12
  for a length of 5 leaves "   1" (`PrintfResults.CutShows`), and
  `PrintfResults.KeptIsMeantIff` has the exact condition under which that does not show.
  C11 (sections 7.21.6.5 and 7.21.6.12) asks for the length of the whole text.  The filler
  stands in front of the sign even if it is a zero, and a width is taken modulo 256.
- The NMEA driver's switch key is an or of shifted statement and term number.  Below 32
  every term sets its own flag (`GpsRuns.TermSetsItsFlag`); from 32 on a term is taken for
  another one, often of another statement: term 34 of GPGGA sets the flag of term 2 of
  GPRMC, term 33 sets none (`GpsRuns.LateTermExamples`).  `GpsRuns.SetsOwnFlagIff` has the exact condition.
- The NMEA driver does not check the room in its buffers: a term of 15 characters runs past
  `GPS_Term` (`GpsBuffers.LongTermOverflows`), a first term of 7 past the copy of the name,
  and a late term that is taken for a satellite number past the array of these.
  `GpsBuffers.SafeIffRoom` tells from a stream when that happens.
- `TM_FATFS_TruncateBeginning` does not look at the result of `f_truncate`: it can report
  success with the old end of the file still there, exactly if that operation alone failed.
  The position does not go to the start if there was nothing to do
  (`FatFs.TruncateBeginning`).

## Model

| member | source | states |
|---|---|---|
| Panels.Panel.Bijection | SourceCode/tm/tm_stm32f4_dma2d_graphic.c:81-91 | the address map of DrawPixel and its inverse are bijections between the pixels of the screen and the cells of the panel, in all four orientations |
| Panels.Panel.ReadBack | SourceCode/tm/tm_stm32f4_dma2d_graphic.c:81-104 | a pixel reads back the color it was painted with, and every other pixel the one it had |
| Panels.Panel.PaintOne | SourceCode/tm/tm_stm32f4_dma2d_graphic.c:81-91 | painting one pixel changes one cell and no other |
| Panels.Panel.PaintTwice | SourceCode/tm/tm_stm32f4_dma2d_graphic.c:466-498 | painting one set of pixels after another is painting their union |
| Panels.Panel.PaintClipped | SourceCode/tm/tm_stm32f4_ili9341_ltdc.c:472-500 | what lies off the screen makes no difference to the picture |
| Panels.Panel.SamePictureIff | SourceCode/tm/tm_stm32f4_ili9341_ltdc.c:472-500 | two sets paint the same picture in every color if and only if they have the same pixels on the screen |
| Lines.HalfPixel | SourceCode/tm/tm_stm32f4_dma2d_graphic.c:400-453 | every pixel of either line routine lies within half a pixel of the true line, and where only one pixel is nearer than that, both take it |
| Lines.LinesAgreeUnlessTie | SourceCode/tm/tm_stm32f4_dma2d_graphic.c:400-453 | pixel k is the same in both line routines if and only if it is no exact tie; at a tie they are one step apart |
| Lines.LtdcIsReversedDma | SourceCode/tm/tm_stm32f4_ili9341_ltdc.c:650-690 | pixel k of one routine is pixel Long - k of the other one drawing the line backwards |
| Lines.LtdcSetIsReversedDmaSet | SourceCode/tm/tm_stm32f4_ili9341_ltdc.c:650-690 | so one routine draws the same set of pixels as the other one does for the exchanged end points |
| Lines.Connected | SourceCode/tm/tm_stm32f4_dma2d_graphic.c:400-453 | lines start and end at their end points and have no gaps |
| Lines.WithinBox | SourceCode/tm/tm_stm32f4_ili9341_ltdc.c:650-690 | no pixel of a line leaves the rectangle that its end points span |
| Circles.OctantStep | SourceCode/tm/tm_stm32f4_dma2d_graphic.c:479-486 | the loop keeps the decision value exact and the plotted point the nearest one to the circle |
| Circles.DecisionBound | SourceCode/tm/tm_stm32f4_dma2d_graphic.c:467-486 | the decision value stays between -2y and 2x + 1 |
| Circles.PlotError | SourceCode/tm/tm_stm32f4_dma2d_graphic.c:479-496 | a plotted pixel misses the circle by at most y in the squared distance and lies on the closed-form ring |
| Circles.NearestUnique | SourceCode/tm/tm_stm32f4_ili9341_ltdc.c:801-833 | there is only one nearest integer to the square root, so the ring is fixed by it |
| Circles.DiscApproximates | SourceCode/tm/tm_stm32f4_ili9341_ltdc.c:835-864 | the closed-form disc contains every lattice point within the radius and none with a squared distance over r*r + r |
| Circles.RingIsEdge | SourceCode/tm/tm_stm32f4_ili9341_ltdc.c:801-833 | the outline is the outermost layer of the filled circle |
| Circles.NoGaps | SourceCode/tm/tm_stm32f4_ili9341_ltdc.c:801-833 | every column and every row within the radius has a pixel of the outline |
| Circles.WalkDown | SourceCode/tm/tm_stm32f4_ili9341_ltdc.c:813-822 | y falls by at most one for every step of x |
| Circles.WalkInOctant | SourceCode/tm/tm_stm32f4_ili9341_ltdc.c:801-822 | the loop invariant holds at every step that the loop takes from its start |
| Circles.RingTurn | SourceCode/tm/tm_stm32f4_ili9341_ltdc.c:813-832 | one turn of the loop adds the eight reflections and completes the ring by one more column |
| Circles.RingEnd | SourceCode/tm/tm_stm32f4_ili9341_ltdc.c:813-833 | when x reaches y the whole ring is there |
| Circles.RunsMakeDisc | SourceCode/tm/tm_stm32f4_ili9341_ltdc.c:845-863 | the horizontal runs of all turns make up exactly the closed-form disc |
| CircleLoops.Turn | SourceCode/tm/tm_stm32f4_dma2d_graphic.c:479-486 | the loop body takes the invariant to the next column, and no 16-bit store overflows for radii up to 0x4000 |
| Ltdc.Display.DrawPixel | SourceCode/tm/tm_stm32f4_ili9341_ltdc.c:472-500 | exactly one cell is written if the pixel is on the screen, in each orientation the one that is spelled out in numbers; nothing otherwise |
| Ltdc.Display.PlaceOnGlass | SourceCode/tm/tm_stm32f4_ili9341_ltdc.c:480-497 | where each orientation puts the picture on the glass: the cell of the origin, and by how much it changes to the right and downwards |
| Ltdc.Display.OwnLayer | SourceCode/tm/tm_stm32f4_ili9341_ltdc.c:478-500 | every pixel is stored within its layer, except the origin in Portrait1, which goes one cell past its end |
| Ltdc.Display.Rotate | SourceCode/tm/tm_stm32f4_ili9341_ltdc.c:514-525 | width and height are 240 and 320, and exchanged for the landscape orientations |
| Ltdc.Display.OtherLayerIsKept | SourceCode/tm/tm_stm32f4_ili9341_ltdc.c:527-535 | with one layer selected no figure touches a cell of the other one, except that in Portrait1 the origin goes to the first cell behind the selected layer |
| Ltdc.Display.DrawLine | SourceCode/tm/tm_stm32f4_ili9341_ltdc.c:650-690 | after clamping, exactly the closed-form pixels are painted, in their order |
| Ltdc.Display.WalkLine | SourceCode/tm/tm_stm32f4_ili9341_ltdc.c:669-689 | the endless loop ends, after Long + 1 pixels, at the second end point |
| Ltdc.WalkIsClosedForm | SourceCode/tm/tm_stm32f4_ili9341_ltdc.c:669-689 | the state of the loop after k steps is the closed form of pixel k |
| Ltdc.WalkInRange | SourceCode/tm/tm_stm32f4_ili9341_ltdc.c:669-689 | the error term stays in [0, dx) for flat lines and in (-dy, 0] for steep ones |
| Ltdc.WalkEnds | SourceCode/tm/tm_stm32f4_ili9341_ltdc.c:677-679 | the end point is met at the last pixel and never before |
| Ltdc.Horizontal | SourceCode/tm/tm_stm32f4_ili9341_ltdc.c:650-690 | a horizontal line is the full run between its ends |
| Ltdc.Display.DrawCircle | SourceCode/tm/tm_stm32f4_ili9341_ltdc.c:801-833 | the outline is exactly the closed-form ring cut to the screen, wherever its centre lies |
| Ltdc.Display.DrawFilledCircle | SourceCode/tm/tm_stm32f4_ili9341_ltdc.c:835-864 | exactly the pixels of FilledCircle.Drawn are painted |
| Ltdc.Display.DiscIsPaintedIff | SourceCode/tm/tm_stm32f4_ili9341_ltdc.c:835-864 | for a centre on the display the picture is the disc cut to the display if and only if nothing hangs over the left edge and the row just above the display is no wider than the last row: the exact condition |
| FilledCircle.DrawnOnScreen | SourceCode/tm/tm_stm32f4_ili9341_ltdc.c:835-864 | with no overhang at the left, what is drawn is the disc and, in the last row, also the row of the disc just above the screen, whatever hangs over the other three edges |
| FilledCircle.LeftOverhang | SourceCode/tm/tm_stm32f4_ili9341_ltdc.c:835-864 | with an overhang at the left a pixel on the screen comes out wrong, which is constructed, wherever the rows lie |
| FilledCircle.DrawnIsDiscIff | SourceCode/tm/tm_stm32f4_ili9341_ltdc.c:835-864 | hence, pixel by pixel and for every centre on the screen, the exact condition for the disc |
| FilledCircle.LowerHalfHidesTop | SourceCode/tm/tm_stm32f4_ili9341_ltdc.c:835-864 | an overhang at the top never shows if the centre lies in the lower half |
| Dma2d.Display.SetOrientation | SourceCode/tm/tm_stm32f4_dma2d_graphic.c:106-125 | width and height follow the orientation; an orientation above 3 is ignored |
| Dma2d.Display.InitAndTransfer | SourceCode/tm/tm_stm32f4_dma2d_graphic.c:596-615 | a transfer writes the lines of the strided block and no other cell |
| Dma2d.Display.CellOf | SourceCode/tm/tm_stm32f4_dma2d_graphic.c:81-104 | the computed address, spelled out for each orientation, is the cell of the pixel, on the screen and off it; on the screen it belongs to the layer |
| Dma2d.Display.PlaceOnPanel | SourceCode/tm/tm_stm32f4_dma2d_graphic.c:81-91 | where each orientation puts the picture on the panel: the cell of the origin, and by how much it changes to the right and downwards |
| Dma2d.Display.DrawPixel | SourceCode/tm/tm_stm32f4_dma2d_graphic.c:81-91 | exactly the cell at the computed address is written, also for coordinates off the screen; on the screen one pixel is painted |
| Dma2d.Display.GetPixel | SourceCode/tm/tm_stm32f4_dma2d_graphic.c:93-104 | the cell that DrawPixel writes is read |
| Dma2d.BlockIsPicture | SourceCode/tm/tm_stm32f4_dma2d_graphic.c:596-623 | filling a strided block is painting the rectangle of pixels it holds |
| Dma2d.Display.DrawHorizontalLine | SourceCode/tm/tm_stm32f4_dma2d_graphic.c:343-398 | the strided transfer paints exactly DmaFigures.HorizontalPixels, for every orientation and every argument |
| Dma2d.Display.DrawVerticalLine | SourceCode/tm/tm_stm32f4_dma2d_graphic.c:287-341 | the strided transfer paints exactly DmaFigures.VerticalPixels, for every orientation and every argument |
| DmaFigures.HorizontalIsClippedIff | SourceCode/tm/tm_stm32f4_dma2d_graphic.c:343-372 | those are the clipped line unless it starts above the screen or wraps its length to the left of it: the exact condition |
| DmaFigures.VerticalIsClippedIff | SourceCode/tm/tm_stm32f4_dma2d_graphic.c:287-315 | those are the clipped line unless it starts left of the screen, or above it without reaching the last row: the exact condition |
| Dma2d.Display.DrawFilledRectangle | SourceCode/tm/tm_stm32f4_dma2d_graphic.c:148-197 | the block that is filled, for every orientation, after cutting width and height to the screen |
| Dma2d.Display.RectangleIsClippedIff | SourceCode/tm/tm_stm32f4_dma2d_graphic.c:148-197 | that block is the clipped rectangle if and only if the orientation is not 2, or x equals y, or the rectangle is empty |
| Dma2d.Display.DrawLine | SourceCode/tm/tm_stm32f4_dma2d_graphic.c:400-453 | the closed-form pixels are painted, each as a horizontal line of length 1 |
| DmaFigures.WalkIsClosedForm | SourceCode/tm/tm_stm32f4_dma2d_graphic.c:441-452 | the state of the loop after k steps is pixel k with its remainder |
| DmaFigures.RemainderInRange | SourceCode/tm/tm_stm32f4_dma2d_graphic.c:441-452 | the remainder stays below the denominator |
| DmaFigures.WalkFits | SourceCode/tm/tm_stm32f4_dma2d_graphic.c:400-453 | nothing overflows 16 bits for spans up to 0x4000 |
| DmaLines.RowBetween | SourceCode/tm/tm_stm32f4_dma2d_graphic.c:441-452 | between two columns of a flat line its rows lie between theirs |
| DmaLines.RowReaches | SourceCode/tm/tm_stm32f4_dma2d_graphic.c:441-452 | and it reaches every row between theirs |
| DmaLines.ClippedByPixels | SourceCode/tm/tm_stm32f4_dma2d_graphic.c:400-453 | a line is right if and only if what each of its pixels draws belongs to it |
| DmaLines.LineIsClippedIff | SourceCode/tm/tm_stm32f4_dma2d_graphic.c:400-453 | for any end points the line is drawn cut to the screen if and only if a condition on the rows or columns holds in which it crosses the edges of the screen: no column of the screen is crossed above it and a row that is filled is covered by the line, or, for a steep line, no row of the screen is crossed left of column -1 and what falls into row 0 is the line there: the exact condition |
| Dma2d.Display.LineIsPaintedIff | SourceCode/tm/tm_stm32f4_dma2d_graphic.c:400-453 | under that condition, and no other, the picture is the line cut to the screen |
| DmaLines.LineIsClipped | SourceCode/tm/tm_stm32f4_dma2d_graphic.c:400-453 | so it is for all lines that stay within column -1 and row 0 |
| Dma2d.Display.DrawCircle | SourceCode/tm/tm_stm32f4_dma2d_graphic.c:466-498 | every pixel of the closed-form ring is drawn, as a vertical line of length 1 |
| DmaRing.RingIsClippedIff | SourceCode/tm/tm_stm32f4_dma2d_graphic.c:466-498 | for a centre on the screen, right of it or below it, that is the ring cut to the screen if and only if in the row and the column nearest to the centre nothing hangs over the left or upper edge beside the ring: the exact condition |
| DmaRing.RingOnScreenIff | SourceCode/tm/tm_stm32f4_dma2d_graphic.c:466-498 | for a centre on the screen the condition says that nothing hangs over the left or the upper edge |
| DmaRing.NearerSmears | SourceCode/tm/tm_stm32f4_dma2d_graphic.c:466-498 | a row that is nearer to the centre shows an overhang if one farther away does |
| DmaRing.LeftIsSmeared | SourceCode/tm/tm_stm32f4_dma2d_graphic.c:466-498 | what hangs over at the left is drawn in column 0, where the ring has no pixel; such a pixel is constructed |
| DmaRing.TopIsSmeared | SourceCode/tm/tm_stm32f4_dma2d_graphic.c:466-498 | and what hangs over at the top in row 0 |
| Dma2d.Display.DrawFilledCircle | SourceCode/tm/tm_stm32f4_dma2d_graphic.c:500-529 | exactly DmaCircle.Drawn is painted |
| DmaCircle.DrawnIsShortDisc | SourceCode/tm/tm_stm32f4_dma2d_graphic.c:500-529 | for a centre on the screen, right of it or below it, whatever hangs over, what is drawn is the disc without the last column of its rows, but with the compass points |
| DmaCircle.DrawnIsDiscIff | SourceCode/tm/tm_stm32f4_dma2d_graphic.c:500-529 | hence, pixel by pixel, the exact condition for the disc: the row farthest from the centre row ends beyond the right edge, or there is none, or the radius is at most 1, or the circle lies below the screen |
| Dma2d.Display.DiscIsPaintedIff | SourceCode/tm/tm_stm32f4_dma2d_graphic.c:500-529 | under that condition, and no other, the picture is the disc cut to the screen |
| DmaCircle.WithoutOverhang | SourceCode/tm/tm_stm32f4_dma2d_graphic.c:500-529 | for a circle that hangs over no edge the condition says that the radius is at most 1 |
| Dma2d.PackedColor | SourceCode/tm/tm_stm32f4_dma2d_graphic.c:177-179 | reducing a color to the fields of the controller is the same as taking its 16 bits |
| Printf.PutChar | SourceCode/printf.c:51-55 | one cell is written |
| Printf.PutString | SourceCode/printf.c:65-76 | the characters are copied and counted |
| Printf.PutUnsignedInt | SourceCode/printf.c:88-122 | exactly filler and canonical digits are written, the result is their number, all other cells are kept |
| Printf.PutSignedInt | SourceCode/printf.c:134-198 | filler, then the sign, then the canonical digits of the magnitude; all other cells are kept |
| Printf.PutHexa | SourceCode/printf.c:213-259 | filler and canonical hexadecimal digits in the case asked for; all other cells are kept |
| Numerals.ValueOfNumeral | SourceCode/printf.c:88-122 | the digits that are printed have the number as their value |
| Numerals.DecimalIsDigits | SourceCode/printf.c:88-122 | only decimal digits are printed |
| Numerals.NoLeadingZero | SourceCode/printf.c:88-122 | and no leading zero, except for 0 itself |
| Numerals.LengthOfUint32 | SourceCode/printf.c:88-122 | 32 bits take at most 10 decimal and 8 hexadecimal digits |
| Printf.ParseItem | SourceCode/printf.c:294-346 | the next character or conversion of the format, with its filler and width |
| PrintfMeaning.CharacterIsMeant | SourceCode/printf.c:292-297 | a character that is no percent sign stands for itself |
| PrintfMeaning.PercentIsMeant | SourceCode/printf.c:299-304 | two percent signs stand for one |
| PrintfMeaning.ConversionIsMeant | SourceCode/printf.c:306-350 | a conversion stands for filler up to its width modulo 256 and a core that is told by reading it back: the signed value for d and i, the word for u, hexadecimal digits in small letters for x and in capitals for X, one byte for c, the argument for s |
| PrintfMeaning.UnknownLetterEnds | SourceCode/printf.c:342-343 | any other letter ends the text |
| Printf.ConversionIsRead | SourceCode/printf.c:311-346 | wherever a conversion is written with filler and width, it is read as that, its width modulo 256; one with another letter is refused |
| Printf.Vsnprintf | SourceCode/printf.c:277-364 | buffer and result are those of the text that the interpreter produces, cut off at the length |
| Printf.ProducesMeaning | SourceCode/printf.c:277-364 | if what the format means is shorter than the length, that is what is produced |
| Printf.FieldFits | SourceCode/printf.c:327-331 | a field that fits is not changed by the cut of its width |
| Printf.PlainIsCutOff | SourceCode/printf.c:277-364 | formats of characters, "%%" and "%c" produce exactly the first length characters |
| Printf.WithinIff | SourceCode/printf.c:277-364 | never more than length characters are written if and only if, as long as there is room, the characters that each field has without filler fit: the exact condition, told from format and arguments |
| PrintfResults.StringIsLeft | SourceCode/printf.c:351-364 | a text within the length is left as a C string whose length is the result; after a bad conversion the NUL is missing |
| PrintfResults.KeptIsMeantIff | SourceCode/printf.c:277-364 | what is kept is what the format means, cut one short of the length, if and only if no field with more than one character of room and of text loses filler: the exact condition, told from format and arguments |
| PrintfResults.FrontOfPadded | SourceCode/printf.c:327-331 | the same for a single field |
| PrintfResults.KeptIsMeant | SourceCode/printf.c:277-364 | the condition holds if the meaning is shorter than the buffer or the format is plain |
| PrintfResults.Snprintf | SourceCode/printf.c:378-388 | under the condition of WithinIff a buffer of length cells is enough; the string that is left, the result and all cells beyond; under that of KeptIsMeantIff the string is the meaning, cut off |
| GpsNumbers.Atoi | SourceCode/tm/tm_stm32f4_gps.c:688-696 | the value and the number of the leading digits, modulo the 32 and 8 bits they are kept in |
| GpsNumbers.DecimalRoundTrip | SourceCode/tm/tm_stm32f4_gps.c:688-696 | reading what PutUnsignedInt printed with zeros as filler gives the number back, with no overflow on the way, and the count of its characters if and only if there are fewer than 256 |
| GpsNumbers.ChecksumRoundTrip | SourceCode/tm/tm_stm32f4_gps.c:706-715 | two digits printed by PutHexa read back as the byte, in either case |
| GpsParser.StringStartsWith | SourceCode/tm/tm_stm32f4_gps.c:679-686 | true if and only if the second string is a prefix of the first |
| GpsParser.Collector.FlagsOk | SourceCode/tm/tm_stm32f4_gps.c:717-736 | true if and only if all 19 flags and all custom terms are there |
| GpsParser.Collector.ClearFlags | SourceCode/tm/tm_stm32f4_gps.c:738-749 | no flag and no custom term is left, the rest is kept |
| GpsRuns.FlagsAfterTerm | SourceCode/tm/tm_stm32f4_gps.c:751-849 | the flags after any term: the flag of its key is set, also by an empty term; the satellite numbers that are not empty set theirs only with the last one |
| GpsTerms.StatementsAreKnown | SourceCode/tm/tm_stm32f4_gps.c:333-345 | the statement is told by the first six characters, spelled out |
| GpsTerms.FirstTermNames | SourceCode/tm/tm_stm32f4_gps.c:333-352 | the first term sets statement and name and nothing else of the data |
| GpsTerms.CustomsAreUpdated | SourceCode/tm/tm_stm32f4_gps.c:354-366 | a custom term gets the text of every term with its number in a sentence whose name begins with the statement it asks for, and no other custom term changes |
| GpsTerms.TermTells | SourceCode/tm/tm_stm32f4_gps.c:369-599 | the numbers of satellites, descriptions and sentences after any term, and which terms change them |
| GpsTerms.NumbersAreCounted | SourceCode/tm/tm_stm32f4_gps.c:555-569 | the count of satellite numbers after any of the first 32 terms |
| GpsTerms.OtherCharactersTell | SourceCode/tm/tm_stm32f4_gps.c:270-279 | the line feed of the last GPGSV sentence sets flag 18, and no other character tells anything |
| GpsTerms.CompleteOnlyIf | SourceCode/tm/tm_stm32f4_gps.c:717-736 | complete data have the 19 flags 0 to 18 and all custom terms |
| GpsTerms.CompleteIf | SourceCode/tm/tm_stm32f4_gps.c:717-736 | and data that have these are complete |
| GpsTerms.ReportedDataAreForgotten | SourceCode/tm/tm_stm32f4_gps.c:235-246 | the character after a report leaves no flag and no custom term |
| GpsParser.Collector.CheckTerm | SourceCode/tm/tm_stm32f4_gps.c:327-627 | the new data, flags and custom terms after any term of any statement |
| GpsParser.Parser.Return | SourceCode/tm/tm_stm32f4_gps.c:629-677 | the reported status and the first-time variable |
| GpsParser.Parser.Do | SourceCode/tm/tm_stm32f4_gps.c:235-325 | one character takes the whole state of the driver to the next one of the transition function, about which GpsBuffers, GpsChecksum and GpsTerms say in plain numbers what it does |
| GpsParser.Parser.Update | SourceCode/tm/tm_stm32f4_gps.c:94-116 | characters are taken up to the first report of new data |
| GpsParser.UpdateStopsAtFirstReport | SourceCode/tm/tm_stm32f4_gps.c:94-116 | an update is the run over the buffer up to its first report of new data, or over all of it if there is none |
| GpsRuns.FitsIsSafe | SourceCode/tm/tm_stm32f4_gps.c:235-325 | a stream whose terms, names and sentences keep to given lengths never leaves the buffers, whatever came before |
| GpsBuffers.SafeIffRoom | SourceCode/tm/tm_stm32f4_gps.c:235-325 | a stream without NUL stays within the buffers if and only if there is room for each of its characters, told from the text and number of the current term and the last statement: the exact condition |
| GpsBuffers.LongTermOverflows | SourceCode/tm/tm_stm32f4_gps.c:247-321 | a term of 15 characters or more runs past GPS_Term, whatever came before |
| GpsRuns.OrIsSum | SourceCode/tm/tm_stm32f4_gps.c:369-369 | the shifted statement and a term number below 32 do not overlap |
| GpsRuns.TermSetsItsFlag | SourceCode/tm/tm_stm32f4_gps.h:194-263 | below 32 a term sets a flag if and only if the flag stands for it |
| GpsRuns.FlagOfAnyTerm | SourceCode/tm/tm_stm32f4_gps.c:369-369 | which flag any term sets, from term 32 on too: that of the term which the upper bits of its number turn it into |
| GpsRuns.SetsOwnFlagIff | SourceCode/tm/tm_stm32f4_gps.c:369-369 | a term sets no flag but its own if and only if its number is below 32 or what it is taken for has no flag: the exact condition |
| GpsRuns.SentenceIsHeld | SourceCode/tm/tm_stm32f4_gps.c:235-321 | at the end of a sentence the receiver holds the exclusive or of its body and the two digits |
| GpsRuns.ChecksumDecides | SourceCode/tm/tm_stm32f4_gps.c:242-321 | at the carriage return all data are kept if the digits are the exclusive or of the body, and cleared otherwise |
| GpsChecksum.FlipsBits | SourceCode/tm/tm_stm32f4_gps.c:51-51 | adding a character to the checksum flips just the bits that it has set |
| GpsChecksum.ParityIsHeld | SourceCode/tm/tm_stm32f4_gps.c:242-321 | at the end of a sentence bit i of the held checksum is set if and only if an odd number of the characters between dollar sign and star have bit i set |
| GpsChecksum.ParityIsAccepted | SourceCode/tm/tm_stm32f4_gps.c:280-294 | all data are kept if the two digits spell those parities |
| GpsChecksum.WrongBitIsRejected | SourceCode/tm/tm_stm32f4_gps.c:280-294 | and all flags and custom terms are lost if any bit differs |
| GpsRuns.PrintedChecksumIsAccepted | SourceCode/tm/tm_stm32f4_gps.c:280-294 | a checksum printed by PutHexa is always accepted |
| GpsRuns.OneFlagAtMost | SourceCode/tm/tm_stm32f4_gps.c:327-627 | a character adds at most one flag |
| GpsRuns.WaitsUntilFirstData | SourceCode/tm/tm_stm32f4_gps.c:629-677 | over every run the status is NewData if and only if all is there, and FirstDataWaiting exactly until the first such report |
| GpsRuns.ReportsAreApart | SourceCode/tm/tm_stm32f4_gps.c:235-325 | two reports of new data are at least 19 characters apart |
| FatFs.MoveBlock | SourceCode/tm/tm_stm32f4_fatfs.c:85-101 | one block goes to the front; wherever it fails only bytes that belong there have been written |
| FatFs.UnreadIsIntact | SourceCode/tm/tm_stm32f4_fatfs.c:85-101 | a block is read before any of its bytes is overwritten |
| FatFs.ShiftGrows | SourceCode/tm/tm_stm32f4_fatfs.c:85-101 | writing a part of the block makes the moved front longer by that part |
| FatFs.MoveTail | SourceCode/tm/tm_stm32f4_fatfs.c:85-101 | the loop moves all that is to stay if and only if every operation succeeds |
| FatFs.CutAt | SourceCode/tm/tm_stm32f4_fatfs.c:104-107 | the end is cut off if and only if the truncation succeeds, which the result does not tell |
| FatFs.TruncateBeginning | SourceCode/tm/tm_stm32f4_fatfs.c:59-108 | contents, position and result for every file, index and pattern of failures |
| Buttons.Button.CheckButton | SourceCode/tm/tm_stm32f4_button.c:104-171 | one reading takes the state machine to its next state, with the calls it makes |
| Buttons.Update | SourceCode/tm/tm_stm32f4_button.c:94-101 | every button is polled once and none disturbs another |
| Buttons.RunIsAsMeant | SourceCode/tm/tm_stm32f4_button.c:104-171 | over every run the handler is called just as the samples alone say |
| Buttons.PressIsCalledIff | SourceCode/tm/tm_stm32f4_button.c:110-124 | the handler is told of a press if and only if the sample is the first of it |
| Buttons.LongOnlyIf | SourceCode/tm/tm_stm32f4_button.c:126-139 | it is told of a long press only at the first sample of an unbroken press that is later than the long time after its start, in the 32 bits of the clock |
| Buttons.LongIf | SourceCode/tm/tm_stm32f4_button.c:126-139 | and it is told at every such sample |
| Buttons.NormalOnlyIf | SourceCode/tm/tm_stm32f4_button.c:140-154 | it is told of a normal press only where an unbroken press has just ended that was never long, later than the normal time after its start |
| Buttons.NormalIf | SourceCode/tm/tm_stm32f4_button.c:140-154 | and it is told at every such sample |
| Buttons.PlainLong | SourceCode/tm/tm_stm32f4_button.c:126-139 | the same as one equivalence in plain times, while the clock does not wrap |
| Buttons.PlainNormal | SourceCode/tm/tm_stm32f4_button.c:140-154 | the same for normal presses |
| Buttons.PressesTakeTime | SourceCode/tm/tm_stm32f4_button.c:104-171 | a long press is unbroken for more than the long time; a normal press ends after more than the normal time and was not reported long |
| Buttons.CallsAreInOrder | SourceCode/tm/tm_stm32f4_button.c:104-171 | the calls of every run form (OnPressed (Normal or Long)?)* |
| Bits.FieldOfWith | SourceCode/tm/tm_stm32f4_gpio.c:333-346 | writing one field of a packed register keeps all the others |
| Bits.AndOfOneBit | SourceCode/tm/tm_stm32f4_gpio.c:329-331 | the mask test picks out one bit |
| Gpio.PinFieldIsQuotient | SourceCode/tm/tm_stm32f4_gpio.c:334-346 | the field of a pin is the register divided by a power of two and cut to the width |
| Gpio.Port.AlternateIsNibble | SourceCode/tm/tm_stm32f4_gpio.c:58-58 | the alternate function of a pin is one of eight nibbles in one of two registers |
| Gpio.Port.SetPinAsInput | SourceCode/tm/tm_stm32f4_gpio.c:77-87 | exactly the masked pins become inputs |
| Gpio.Port.SetPinAsOutput | SourceCode/tm/tm_stm32f4_gpio.c:89-99 | exactly the masked pins become outputs |
| Gpio.Port.SetPinAsAnalog | SourceCode/tm/tm_stm32f4_gpio.c:101-111 | exactly the masked pins become analog |
| Gpio.Port.Init | SourceCode/tm/tm_stm32f4_gpio.c:323-348 | exactly the masked pins get mode and pull resistor, and output type and speed if they are outputs |
| Gpio.Port.InitAlternate | SourceCode/tm/tm_stm32f4_gpio.c:39-63 | exactly the masked pins get their alternate function, and the configuration with it |
| Gpio.GetPinSource | SourceCode/tm/tm_stm32f4_gpio.c:191-204 | the result is the place of the highest bit |
| Bits.SingleBit | SourceCode/tm/tm_stm32f4_exti.c:27-27 | the test for a single line holds just for powers of two |
| Exti.Controller.AttachLine | SourceCode/tm/tm_stm32f4_exti.c:43-147 | a line that is in use is refused; a free one is enabled with edges, port and pin, and no other line changes |
| Exti.Controller.Attach | SourceCode/tm/tm_stm32f4_exti.c:21-147 | a mask of several lines is attached line by line up to the first one in use |
| Exti.AttachesUpToBusy | SourceCode/tm/tm_stm32f4_exti.c:27-51 | success if and only if every masked line was free; otherwise exactly the masked lines below the first busy one are attached |
| Exti.AttachesIfUnused | SourceCode/tm/tm_stm32f4_exti.c:44-51 | free means that neither the interrupt nor the event mask of the line is set |
| Exti.EdgesAfterAttach | SourceCode/tm/tm_stm32f4_exti.c:108-136 | an attached line has its interrupt mask, not its event mask, the edges of the trigger and no other, and the port |
| Exti.InputsSuitTrigger | SourceCode/tm/tm_stm32f4_exti.c:88-99 | its pin becomes an input with pull-up for the falling edge, pull-down for the rising one and none for both |
| Exti.FreeUntilFirstBusy | SourceCode/tm/tm_stm32f4_exti.c:89-99 | the pins that become inputs are those of the lines that are attached |
| Exti.Controller.Detach | SourceCode/tm/tm_stm32f4_exti.c:149-160 | exactly the masked lines are freed |
| Exti.LinesServeOwners | SourceCode/tm/tm_stm32f4_exti.c:21-160 | over every run from cleared registers a line that has an owner has the edges of the owner's trigger and no other and names the owner's port, and a free one has neither mask nor edge |
| Exti.Controller.RegistersServeOwners | SourceCode/tm/tm_stm32f4_exti.c:21-160 | the same about the bits of the registers |

## Left out

- Ltdc.Display.DrawCircle: radii beyond 0x4000 are not modelled, because the loop's 16-bit variables overflow for them.
- Ltdc.Display.DrawFilledCircle: radii beyond 0x4000 are not modelled, for the same reason.
- Ltdc.Display.DiscIsPaintedIff: centres off the display are left out; what is drawn for them is `FilledCircle.Drawn`.
- FilledCircle.DrawnIsDiscIff: centres off the screen are left out; all four ends of every run are clamped for them.
- Dma2d.Display.DrawLine: lines that span more than 0x4000 pixels are not modelled, because the remainder overflows 16 bits for them.
- Dma2d.Display.DrawCircle: radii beyond 0x4000 are not modelled, because the loop's 16-bit variables overflow for them.
- Dma2d.Display.DrawFilledCircle: radii beyond 0x4000 are not modelled, for the same reason.
- Dma2d.Display.DiscIsPaintedIff: coordinates of the centre from 0x4000 on are left out, because with the radius they can leave the 16 signed bits that a line takes.
- DmaCircle.DrawnIsDiscIff: coordinates of the centre from 0x4000 on are left out, for the same reason.
- DmaRing.RingIsClippedIff: coordinates of the centre from 0x4000 on are left out, for the same reason.
- Dma2d.Display.DrawPixel: coordinates are excluded whose address, which the routine does not check, lies outside the memory; the same holds for GetPixel.
- Dma2d.Display.InitAndTransfer: the transfer has to lie within the memory, and one of no lines or pixels is taken to write nothing; the controller's registers are narrower than the 32 bits modelled.
- Dma2d.Display.SetOrientation: drawing starts after it; what `TM_DMA2DGRAPHIC_Init` does by itself leaves width and height exchanged, and the check of the drawing routines that it has been called is left out.
- Printf.Vsnprintf: a length of 0 is excluded, because the terminating NUL then goes in front of the buffer; the buffer has to hold what is produced (`Printf.WithinIff` tells when that is no more than the length), arguments have to fit their conversions, and "%s" arguments are never null.
- PrintfResults.Snprintf: a length of 0 and formats that write beyond the length are excluded, because a buffer of that length does not hold what they write.
- Printf.PutUnsignedInt: widths that underflow when counted down once per digit are excluded; the same holds for the other two number printers.
- GpsParser.Parser.Do: characters that would leave the term buffer, the copy of the statement's name or the array of satellite numbers are excluded; `GpsBuffers.SafeIffRoom` says which streams contain none.
- GpsRuns.ChecksumDecides: the sentence has to stay within the buffers, for the same reason.
- GpsParser.Collector.CheckTerm: the decoded positions, times and satellite descriptions are not modelled, only the numbers that decide about flags; all four statements are enabled.
- GpsParser.Parser.Return: copying the decoded data to the caller is not modelled, because those data are not.
- FatFs.TruncateBeginning: the file operations are modelled by their contract, each one failing or succeeding in full by a pattern given in advance; a failed read or write may have moved some bytes.
- Buttons.RunIsAsMeant: the run starts in the first stage; the driver leaves that to the memory it is given.  The clock wraps as 32 bits do.
- Gpio.Port.Init: options are taken to be in the range of their fields; the clock is not modelled.
- Exti.Controller.Attach: the interrupt channel and its priority are not modelled.
- Exti.Controller.AttachLine: the interrupt channel and its priority are not modelled.
- Addresses are counted in cells of 16 bits, and a layer is its offset in cells.
- The memory a text is written to is an array with a place in it, not a pointer; null pointers and printing to streams are not modelled.
- Static variables are grouped into the fields of a few classes; custom NMEA terms are values of the driver and not shared with the caller.
- Rounded rectangles, corners, triangles and polygons: the same loops and lines once more.
- Rectangles, fonts, layers' opacity and copying in the LTDC driver: nested loops without a further claim.
- The SPI copy of the display driver: the same line and circle loops.
- Distances, unit conversions and all other floating point: rounding is the point there.
- Set-up of clocks, pins, buses and interrupts, delays, sensors, and vendor headers: input and output or constant tables.
