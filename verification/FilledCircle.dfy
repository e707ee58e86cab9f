/** The filled circle of the LTDC driver as it is really drawn on a screen of
    `w` x `h` pixels, including what its line routine makes of coordinates that
    lie off the screen, and when that is the right picture. */
module FilledCircle {
  import opened CTypes
  import opened Panels
  import opened Circles

  /** Any coordinate off the screen, on either side, becomes the last one. */
  function Cut(v: int, n: int): int { if 0 <= v < n then v else n - 1 }

  /** The pixels of a horizontal line from (xa, y) to (xb, y). */
  ghost predicate InRun(w: int, h: int, xa: int, y: int, xb: int, p: Point) {
    var a, b := Cut(xa, w), Cut(xb, w);
    (a <= p.x <= b || b <= p.x <= a) && p.y == Cut(y, h)
  }

  ghost function Run(w: int, h: int, xa: int, y: int, xb: int): iset<Point> {
    iset p | InRun(w, h, xa, y, xb, p)
  }

  /** The four runs drawn for an octant point. */
  ghost predicate InTurn(w: int, h: int, x0: int, y0: int, x: int, y: int, p: Point) {
    || InRun(w, h, x0 - x, y0 + y, x0 + x, p)
    || InRun(w, h, x0 + x, y0 - y, x0 - x, p)
    || InRun(w, h, x0 + y, y0 + x, x0 - y, p)
    || InRun(w, h, x0 + y, y0 - x, x0 - y, p)
  }

  ghost function Runs(w: int, h: int, x0: int, y0: int, x: int, y: int): iset<Point> {
    iset p | InTurn(w, h, x0, y0, x, y, p)
  }

  /** What the loop still draws. */
  ghost predicate InTurnsFrom(w: int, h: int, x0: int, y0: int, x: int, y: int, f: int, p: Point)
    decreases y - x
  {
    x < y &&
      var y' := if f >= 0 then y - 1 else y;
      InTurn(w, h, x0, y0, x + 1, y', p) || InTurnsFrom(w, h, x0, y0, x + 1, y', NextDecision(x, y, f), p)
  }

  ghost function RunsFrom(w: int, h: int, x0: int, y0: int, x: int, y: int, f: int): iset<Point> {
    iset p | InTurnsFrom(w, h, x0, y0, x, y, f, p)
  }

  lemma OneTurn(w: int, h: int, x0: int, y0: int, x: int, y: int, f: int)
    requires x < y
    ensures var y' := if f >= 0 then y - 1 else y;
            RunsFrom(w, h, x0, y0, x, y, f)
            == Runs(w, h, x0, y0, x + 1, y') + RunsFrom(w, h, x0, y0, x + 1, y', NextDecision(x, y, f))
  {
  }

  lemma NoTurn(w: int, h: int, x0: int, y0: int, x: int, y: int, f: int)
    requires x >= y
    ensures RunsFrom(w, h, x0, y0, x, y, f) == iset{}
  {
  }

  /** Everything the routine draws. */
  ghost function Drawn(w: int, h: int, x0: int, y0: int, r: int): iset<Point> {
    ReflectionsAt(x0, y0, 0, Abs(r)) + Run(w, h, x0 - r, y0, x0 + r) + RunsFrom(w, h, x0, y0, 0, r, 1 - r)
  }

  ghost predicate OnScreen(w: int, h: int, p: Point) { 0 <= p.x < w && 0 <= p.y < h }

  /** With the centre on the screen and no overhang at the left, a run keeps its
      columns; its row becomes the last one if it lies off the screen. */
  lemma RunKeepsColumns(w: int, h: int, x0: int, y0: int, x: nat, b: int, p: Point)
    requires x <= x0 < w && OnScreen(w, h, p)
    ensures InRun(w, h, x0 - x, y0 + b, x0 + x, p) <==> Abs(p.x - x0) <= x && p.y == Cut(y0 + b, h)
    ensures InRun(w, h, x0 + x, y0 + b, x0 - x, p) <==> Abs(p.x - x0) <= x && p.y == Cut(y0 + b, h)
  {
  }

  lemma TurnIsDrawn(w: int, h: int, x0: int, y0: int, x: nat, y: nat, b: int, p: Point)
    requires x <= x0 < w && y <= x0 && OnScreen(w, h, p)
    requires InRuns(x, y, p.x - x0, b) && p.y == Cut(y0 + b, h)
    ensures InTurn(w, h, x0, y0, x, y, p)
  {
    RunKeepsColumns(w, h, x0, y0, x, b, p);
    RunKeepsColumns(w, h, x0, y0, y, b, p);
  }

  lemma DrawnIsTurn(w: int, h: int, x0: int, y0: int, x: nat, y: nat, p: Point) returns (b: int)
    requires x <= x0 < w && y <= x0 && OnScreen(w, h, p)
    requires InTurn(w, h, x0, y0, x, y, p)
    ensures InRuns(x, y, p.x - x0, b) && p.y == Cut(y0 + b, h)
  {
    RunKeepsColumns(w, h, x0, y0, x, y, p);
    RunKeepsColumns(w, h, x0, y0, x, 0 - y, p);
    RunKeepsColumns(w, h, x0, y0, y, x, p);
    RunKeepsColumns(w, h, x0, y0, y, 0 - x, p);
    b := if InRun(w, h, x0 - x, y0 + y, x0 + x, p) then y
         else if InRun(w, h, x0 + x, y0 - y, x0 - x, p) then 0 - y
         else if InRun(w, h, x0 + y, y0 + x, x0 - y, p) then x else 0 - x;
  }

  /** So the loop draws its runs, each in the row it is moved to ... */
  lemma {:induction false} RunsAreDrawn(w: int, h: int, x0: int, y0: int, x: nat, y: nat, f: int, b: int, p: Point)
    requires y <= x0 < w && OnScreen(w, h, p)
    requires InRunsFrom(x, y, f, p.x - x0, b) && p.y == Cut(y0 + b, h)
    ensures InTurnsFrom(w, h, x0, y0, x, y, f, p)
    decreases y - x
  {
    var y' := if f >= 0 then y - 1 else y;
    if InRuns(x + 1, y', p.x - x0, b) {
      TurnIsDrawn(w, h, x0, y0, x + 1, y', b, p);
    } else {
      RunsAreDrawn(w, h, x0, y0, x + 1, y', NextDecision(x, y, f), b, p);
    }
  }

  /** ... and nothing else. */
  lemma {:induction false} DrawnAreRuns(w: int, h: int, x0: int, y0: int, x: nat, y: nat, f: int,
                                        p: Point) returns (b: int)
    requires y <= x0 < w && OnScreen(w, h, p)
    requires InTurnsFrom(w, h, x0, y0, x, y, f, p)
    ensures InRunsFrom(x, y, f, p.x - x0, b) && p.y == Cut(y0 + b, h)
    decreases y - x
  {
    var y' := if f >= 0 then y - 1 else y;
    if InTurn(w, h, x0, y0, x + 1, y', p) {
      b := DrawnIsTurn(w, h, x0, y0, x + 1, y', p);
    } else {
      b := DrawnAreRuns(w, h, x0, y0, x + 1, y', NextDecision(x, y, f), p);
    }
  }

  lemma CentreRow(w: int, h: int, x0: int, y0: int, r: nat, p: Point)
    requires r <= x0 < w && 0 <= y0 < h && OnScreen(w, h, p)
    ensures p in ReflectionsAt(x0, y0, 0, r) || InRun(w, h, x0 - r, y0, x0 + r, p)
       <==> InRuns(0, r, p.x - x0, p.y - y0)
  {
    RunKeepsColumns(w, h, x0, y0, r, 0, p);
  }

  /** The loop has a run through the highest and the lowest pixel. */
  lemma TopRun(r: nat, b: int)
    requires 0 < r && Abs(b) == r
    ensures InRunsFrom(0, r, 1 - r, 0, b)
  {
    var y' := if 1 - r >= 0 then r - 1 else r;
    assert InRuns(1, y', 0, b);
  }

  /** What is drawn on the screen when the circle does not hang over the left edge:
      the disc, and in the last row also the row of the disc just above the screen.
      (What hangs over the lower edge is narrower than the last row.) */
  lemma DrawnOnScreen(w: int, h: int, x0: int, y0: int, r: nat, p: Point)
    requires r <= x0 < w && 0 <= y0 < h && OnScreen(w, h, p)
    ensures p in Drawn(w, h, x0, y0, r)
       <==> Disc(r, p.x - x0, p.y - y0) || (p.y == h - 1 && Disc(r, p.x - x0, y0 + 1))
  {
    CentreRow(w, h, x0, y0, r, p);
    RunsMakeDisc(r, p.x - x0, p.y - y0);
    if InTurnsFrom(w, h, x0, y0, 0, r, 1 - r, p) {
      LoopWithinDisc(w, h, x0, y0, r, p);
    }
    if InRunsFrom(0, r, 1 - r, p.x - x0, p.y - y0) {
      RunsAreDrawn(w, h, x0, y0, 0, r, 1 - r, p.y - y0, p);
    }
    if p.y == h - 1 && Disc(r, p.x - x0, y0 + 1) {
      RowAboveIsDrawn(w, h, x0, y0, r, p);
    }
  }

  lemma LoopWithinDisc(w: int, h: int, x0: int, y0: int, r: nat, p: Point)
    requires r <= x0 < w && 0 <= y0 < h && OnScreen(w, h, p)
    requires InTurnsFrom(w, h, x0, y0, 0, r, 1 - r, p)
    ensures Disc(r, p.x - x0, p.y - y0) || (p.y == h - 1 && Disc(r, p.x - x0, y0 + 1))
  {
    var b := DrawnAreRuns(w, h, x0, y0, 0, r, 1 - r, p);
    RunsMakeDisc(r, p.x - x0, b);
    DiscColumn(r, p.x - x0, b, if 0 <= y0 + b then p.y - y0 else y0 + 1);
  }

  lemma RowAboveIsDrawn(w: int, h: int, x0: int, y0: int, r: nat, p: Point)
    requires r <= x0 < w && 0 <= y0 < h && OnScreen(w, h, p)
    requires p.y == h - 1 && Disc(r, p.x - x0, y0 + 1)
    ensures InTurnsFrom(w, h, x0, y0, 0, r, 1 - r, p)
  {
    var a, b := p.x - x0, 0 - y0 - 1;
    DiscOfAbs(r, a, b);
    DiscOfAbs(r, a, y0 + 1);
    RunsMakeDisc(r, a, b);
    if InRuns(0, r, a, b) {
      TopRun(r, b);
    }
    RunsAreDrawn(w, h, x0, y0, 0, r, 1 - r, b, p);
  }

  /** The picture is right if the circle does not hang over the left or the top edge. */
  lemma DrawnIsDisc(w: int, h: int, x0: int, y0: int, r: nat, p: Point)
    requires r <= x0 < w && r <= y0 < h && OnScreen(w, h, p)
    ensures p in Drawn(w, h, x0, y0, r) <==> p in DiscAt(x0, y0, r)
  {
    DrawnOnScreen(w, h, x0, y0, r, p);
    OutsideDisc(r, p.x - x0, y0 + 1);
  }

  lemma OutsideDisc(r: nat, a: int, b: int)
    requires r < Abs(a) || r < Abs(b)
    ensures !Disc(r, a, b)
  {
    if r > 0 {
      DiscApproximates(r, a, b);
    }
  }

  // --- Hanging over the left edge ---

  /** Then a row as wide as the circle is turned inside out, so that one of its end
      columns comes out wrong: in the centre row, or in the row above it if the
      centre row is the last one, where rows off the screen go as well. */
  lemma LeftOverhang(w: int, h: int, x0: int, y0: int, r: nat) returns (p: Point)
    requires 2 < w && 1 < h && 0 <= x0 < w && x0 < r && 0 <= y0 < h
    ensures OnScreen(w, h, p) && (p in Drawn(w, h, x0, y0, r) <==> p !in DiscAt(x0, y0, r))
  {
    if x0 + r < w - 1 {
      p := Point(w - 1, y0);
      RightEndIsPainted(w, h, x0, y0, r);
    } else if y0 < h - 1 {
      p := Point(0, y0);
      LeftEndIsMissed(w, h, x0, y0, r);
    } else {
      p := Point(0, y0 - 1);
      NextLeftEndIsMissed(w, h, x0, y0, r);
    }
  }

  lemma RightEndIsPainted(w: int, h: int, x0: int, y0: int, r: nat)
    requires 0 <= x0 < r && x0 + r < w - 1 && 0 <= y0 < h
    ensures Point(w - 1, y0) in Drawn(w, h, x0, y0, r) && Point(w - 1, y0) !in DiscAt(x0, y0, r)
  {
    assert InRun(w, h, x0 - r, y0, x0 + r, Point(w - 1, y0));
    OutsideDisc(r, w - 1 - x0, 0);
  }

  lemma LeftEndIsMissed(w: int, h: int, x0: int, y0: int, r: nat)
    requires 1 < w && 0 <= x0 < w && x0 < r && w - 1 <= x0 + r && 0 <= y0 < h - 1 && 2 <= r
    ensures Point(0, y0) !in Drawn(w, h, x0, y0, r) && Point(0, y0) in DiscAt(x0, y0, r)
  {
    InnerColumn(r, x0, 0);
    CentreRowUntouched(w, h, x0, y0, 0, r, 1 - r, Point(0, y0));
  }

  lemma NextLeftEndIsMissed(w: int, h: int, x0: int, y0: int, r: nat)
    requires 2 < w && 1 < h && 0 <= x0 < w && x0 < r && w - 1 <= x0 + r && y0 == h - 1 && 2 <= r
    ensures Point(0, y0 - 1) !in Drawn(w, h, x0, y0, r) && Point(0, y0 - 1) in DiscAt(x0, y0, r)
  {
    InnerColumn(r, x0, -1);
    StartsInOctant(r);
    NextRowUntouched(w, h, x0, y0, r, 0, r, 1 - r, Point(0, y0 - 1));
    CentreElsewhere(w, h, x0, y0, r, Point(0, y0 - 1));
  }

  lemma CentreElsewhere(w: int, h: int, x0: int, y0: int, r: nat, p: Point)
    requires 0 <= y0 < h && 2 <= r && p.y == y0 - 1
    ensures p !in ReflectionsAt(x0, y0, 0, r) && p !in Run(w, h, x0 - r, y0, x0 + r)
  {
  }

  lemma InnerColumn(r: nat, x0: nat, b: int)
    requires x0 < r && -1 <= b <= 0
    ensures Disc(r, 0 - x0, b)
  {
    SquareOfAbs(0 - x0);
    SquareMonotone(x0, r);
  }

  /** Only the first line lies in the centre row. */
  lemma {:induction false} CentreRowUntouched(w: int, h: int, x0: int, y0: int, x: nat, y: nat, f: int, p: Point)
    requires 0 <= y0 < h - 1 && p.y == y0 && (1 <= x || 2 <= y)
    ensures !InTurnsFrom(w, h, x0, y0, x, y, f, p)
    decreases y - x
  {
    if x < y {
      var y' := if f >= 0 then y - 1 else y;
      RunsElsewhere(w, h, x0, y0, x + 1, y', p);
      CentreRowUntouched(w, h, x0, y0, x + 1, y', NextDecision(x, y, f), p);
    }
  }

  lemma RunsElsewhere(w: int, h: int, x0: int, y0: int, x: nat, y: nat, p: Point)
    requires 0 <= y0 < h - 1 && 1 <= x && 1 <= y && p.y == y0
    ensures !InTurn(w, h, x0, y0, x, y, p)
  {
  }

  /** The runs in the row above the centre are as wide as the circle, so they miss
      column 0 when they are turned inside out. */
  lemma {:induction false} NextRowUntouched(w: int, h: int, x0: int, y0: int, r: nat, x: nat, y: nat, f: int, p: Point)
    requires 2 < w && 1 < h && y0 == h - 1 && p == Point(0, y0 - 1) && 0 <= x0 < r && w - 1 <= x0 + r
    requires Octant(r, x, y, f) && (x == 0 ==> y == r && f == 1 - r)
    ensures !InTurnsFrom(w, h, x0, y0, x, y, f, p)
    decreases y - x
  {
    if x < y {
      var y' := if f >= 0 then y - 1 else y;
      OctantStep(r, x, y, f);
      WidestRuns(r, x + 1, y', NextDecision(x, y, f));
      NextRowMissed(w, h, x0, y0, r, x + 1, y', p);
      NextRowUntouched(w, h, x0, y0, r, x + 1, y', NextDecision(x, y, f), p);
    }
  }

  lemma WidestRuns(r: nat, x: nat, y: nat, f: int)
    requires 2 <= r && 1 <= x && Octant(r, x, y, f) && (x == 1 ==> y == r)
    ensures (y == 1 ==> x == r) && 1 <= y
  {
  }

  lemma NextRowMissed(w: int, h: int, x0: int, y0: int, r: nat, x: nat, y: nat, p: Point)
    requires 2 < w && 1 < h && y0 == h - 1 && p == Point(0, y0 - 1) && 0 <= x0 < r && w - 1 <= x0 + r
    requires 1 <= x && 1 <= y && (x == 1 ==> y == r) && (y == 1 ==> x == r)
    ensures !InTurn(w, h, x0, y0, x, y, p)
  {
  }

  // --- The exact condition ---

  /** The row just above the screen, which goes to the last row, is no wider there
      than the circle.  (It is empty unless the circle hangs over the upper edge.) */
  ghost predicate TopIsHidden(h: int, y0: int, r: nat) {
    r <= y0 || forall a :: HidesTop(h, y0, r, a)
  }

  /** ... in the column at distance `a` from the centre. */
  predicate HidesTop(h: int, y0: int, r: nat, a: int) { Disc(r, a, y0 + 1) ==> Disc(r, a, h - 1 - y0) }

  /** For a centre on the screen the picture is right exactly when the circle does
      not hang over the left edge, and not over the upper edge in a way that shows. */
  lemma DrawnIsDiscIff(w: int, h: int, x0: int, y0: int, r: nat)
    requires 2 < w && 1 < h && 0 <= x0 < w && 0 <= y0 < h
    ensures (forall p :: OnScreen(w, h, p) ==> (p in Drawn(w, h, x0, y0, r) <==> p in DiscAt(x0, y0, r)))
       <==> r <= x0 && TopIsHidden(h, y0, r)
  {
    if r > x0 {
      var p := LeftOverhang(w, h, x0, y0, r);
    } else if TopIsHidden(h, y0, r) {
      forall p | OnScreen(w, h, p)
        ensures p in Drawn(w, h, x0, y0, r) <==> p in DiscAt(x0, y0, r)
      {
        HiddenTop(w, h, x0, y0, r, p);
      }
    } else {
      var p := TopOverhang(w, h, x0, y0, r);
    }
  }

  lemma HiddenTop(w: int, h: int, x0: int, y0: int, r: nat, p: Point)
    requires r <= x0 < w && 0 <= y0 < h && TopIsHidden(h, y0, r) && OnScreen(w, h, p)
    ensures p in Drawn(w, h, x0, y0, r) <==> p in DiscAt(x0, y0, r)
  {
    if r <= y0 {
      DrawnIsDisc(w, h, x0, y0, r, p);
    } else {
      assert HidesTop(h, y0, r, p.x - x0);
      DrawnOnScreen(w, h, x0, y0, r, p);
    }
  }

  lemma TopOverhang(w: int, h: int, x0: int, y0: int, r: nat) returns (p: Point)
    requires r <= x0 < w && 0 <= y0 < h && !TopIsHidden(h, y0, r)
    ensures OnScreen(w, h, p) && p in Drawn(w, h, x0, y0, r) && p !in DiscAt(x0, y0, r)
  {
    var a :| !HidesTop(h, y0, r, a);
    DiscOfAbs(r, a, y0 + 1);
    DiscOfAbs(r, a, h - 1 - y0);
    p := WrongInLastRow(w, h, x0, y0, r, Abs(a));
  }

  lemma WrongInLastRow(w: int, h: int, x0: int, y0: int, r: nat, a: nat) returns (p: Point)
    requires r <= x0 < w && 0 <= y0 < h && Disc(r, a, y0 + 1) && !Disc(r, a, h - 1 - y0)
    ensures OnScreen(w, h, p) && p in Drawn(w, h, x0, y0, r) && p !in DiscAt(x0, y0, r)
  {
    if r < a {
      OutsideDisc(r, a, y0 + 1);
    }
    p := Point(x0 - a, h - 1);
    Mirrored(r, a, y0 + 1);
    Mirrored(r, a, h - 1 - y0);
    DrawnOnScreen(w, h, x0, y0, r, p);
  }

  lemma Mirrored(r: nat, a: int, b: int)
    ensures Disc(r, 0 - a, b) == Disc(r, a, b)
  {
    DiscOfAbs(r, a, b);
    DiscOfAbs(r, 0 - a, b);
  }

  /** It never shows if the centre lies in the lower half. */
  lemma LowerHalfHidesTop(h: int, y0: int, r: nat)
    requires 0 <= y0 < h <= 2 * y0 + 2
    ensures TopIsHidden(h, y0, r)
  {
    forall a
      ensures HidesTop(h, y0, r, a)
    {
      if Disc(r, a, y0 + 1) {
        DiscColumn(r, a, y0 + 1, h - 1 - y0);
      }
    }
  }

  /** Two circles on the display that hang over its upper edge: the first comes out
      right, the second does not. */
  lemma TopOverhangExamples()
    ensures forall p :: OnScreen(240, 320, p) ==> (p in Drawn(240, 320, 225, 200, 220) <==> p in DiscAt(225, 200, 220))
    ensures Point(120, 319) in Drawn(240, 320, 120, 100, 110) && Point(120, 319) !in DiscAt(120, 100, 110)
  {
    LowerHalfHidesTop(320, 200, 220);
    DrawnIsDiscIff(240, 320, 225, 200, 220);
    DrawnOnScreen(240, 320, 120, 100, 110, Point(120, 319));
  }
}
