/** The filled circle of the DMA2D driver as it is really drawn.  Its horizontal
    runs are 2*x and 2*y pixels long, one less than the figure is wide. */
module DmaCircle {
  import opened CTypes
  import opened Panels
  import opened Circles
  import opened DmaFigures

  /** A horizontal line with C's conversions of its arguments. */
  ghost predicate InRun(w: int, h: int, x: int, y: int, length: int, p: Point) {
    HorizontalDrawn(w, h, ToInt16(x), ToInt16(y), ToUint16(length), p)
  }

  ghost function Run(w: int, h: int, x: int, y: int, length: int): iset<Point> {
    iset p | InRun(w, h, x, y, length, p)
  }

  ghost predicate InDot(w: int, h: int, x: int, y: int, p: Point) {
    VerticalDrawn(w, h, ToInt16(x), ToInt16(y), 1, p)
  }

  ghost function Dot(w: int, h: int, x: int, y: int): iset<Point> {
    iset p | InDot(w, h, x, y, p)
  }

  /** The four runs drawn for an octant point. */
  ghost predicate InTurn(w: int, h: int, x0: int, y0: int, x: int, y: int, p: Point) {
    || InRun(w, h, x0 - x, y0 + y, 2 * x, p)
    || InRun(w, h, x0 - x, y0 - y, 2 * x, p)
    || InRun(w, h, x0 - y, y0 + x, 2 * y, p)
    || InRun(w, h, x0 - y, y0 - x, 2 * y, p)
  }

  ghost function RunPair(w: int, h: int, x: int, y0: int, y: int, length: int): iset<Point> {
    Run(w, h, x, y0 + y, length) + Run(w, h, x, y0 - y, length)
  }

  ghost function Runs(w: int, h: int, x0: int, y0: int, x: int, y: int): iset<Point> {
    RunPair(w, h, x0 - x, y0, y, 2 * x) + RunPair(w, h, x0 - y, y0, x, 2 * y)
  }

  /** What the loop still draws. */
  ghost predicate InTurnsFrom(w: int, h: int, x0: int, y0: int, x: int, y: int, f: int, p: Point)
    decreases y - x
  {
    x < y &&
      var y' := if f >= 0 then y - 1 else y;
      InTurn(w, h, x0, y0, x + 1, y', p) || InTurnsFrom(w, h, x0, y0, x + 1, y', NextDecision(x, y, f), p)
  }

  ghost function RunsFrom(w: int, h: int, x0: int, y0: int, x: int, y: int, f: int): iset<Point> {
    iset p | InTurnsFrom(w, h, x0, y0, x, y, f, p)
  }

  /** What drawing every pixel of a set really draws. */
  ghost function DotsOf(w: int, h: int, s: iset<Point>): iset<Point> {
    iset p | InDots(w, h, s, p)
  }

  ghost predicate InDots(w: int, h: int, s: iset<Point>, p: Point) {
    exists q: Point :: q in s && InDot(w, h, q.x, q.y, p)
  }

  ghost function Compass(w: int, h: int, x0: int, y0: int, r: int): iset<Point> {
    DotsOf(w, h, ReflectionsAt(x0, y0, 0, r))
  }

  /** The compass points and the centre row, drawn before the loop. */
  ghost function Centre(w: int, h: int, x0: int, y0: int, r: int): iset<Point> {
    Compass(w, h, x0, y0, r) + Run(w, h, x0 - r, y0, 2 * r)
  }

  /** Everything the routine draws. */
  ghost function Drawn(w: int, h: int, x0: int, y0: int, r: int): iset<Point> {
    Centre(w, h, x0, y0, r) + RunsFrom(w, h, x0, y0, 0, r, 1 - r)
  }

  /** What is drawn before the loop's turn for column x + 1. */
  ghost function DrawnBefore(w: int, h: int, x0: int, y0: int, r: nat, x: nat): iset<Point> {
    if x == 0 then Centre(w, h, x0, y0, r)
    else DrawnBefore(w, h, x0, y0, r, x - 1) + Runs(w, h, x0, y0, x, OctantWalk(r, x).0)
  }

  lemma {:induction false} DrawnAndRest(w: int, h: int, x0: int, y0: int, r: nat, x: nat, p: Point)
    requires x == 0 || x - 1 < OctantWalk(r, x - 1).0
    ensures p in DrawnBefore(w, h, x0, y0, r, x)
            || InTurnsFrom(w, h, x0, y0, x, OctantWalk(r, x).0, OctantWalk(r, x).1, p)
       <==> p in Centre(w, h, x0, y0, r) || InTurnsFrom(w, h, x0, y0, 0, r, 1 - r, p)
  {
    if x > 0 {
      WalkDown(r, x - 1);
      DrawnAndRest(w, h, x0, y0, r, x - 1, p);
      MoreDrawn(w, h, x0, y0, r, x, p);
      LessLeft(w, h, x0, y0, r, x, p);
    }
  }

  lemma MoreDrawn(w: int, h: int, x0: int, y0: int, r: nat, x: nat, p: Point)
    requires x > 0
    ensures p in DrawnBefore(w, h, x0, y0, r, x)
       <==> p in DrawnBefore(w, h, x0, y0, r, x - 1) || InTurn(w, h, x0, y0, x, OctantWalk(r, x).0, p)
  {
    TurnIsRuns(w, h, x0, y0, x, OctantWalk(r, x).0, p);
  }

  lemma LessLeft(w: int, h: int, x0: int, y0: int, r: nat, x: nat, p: Point)
    requires x > 0 && x - 1 < OctantWalk(r, x - 1).0
    ensures InTurnsFrom(w, h, x0, y0, x - 1, OctantWalk(r, x - 1).0, OctantWalk(r, x - 1).1, p)
       <==> InTurn(w, h, x0, y0, x, OctantWalk(r, x).0, p)
            || InTurnsFrom(w, h, x0, y0, x, OctantWalk(r, x).0, OctantWalk(r, x).1, p)
  {
  }

  lemma TurnIsRuns(w: int, h: int, x0: int, y0: int, x: int, y: int, p: Point)
    ensures p in Runs(w, h, x0, y0, x, y) <==> InTurn(w, h, x0, y0, x, y, p)
  {
  }

  lemma DrawnInTheEnd(w: int, h: int, x0: int, y0: int, r: nat, x: nat)
    requires (x == 0 || x - 1 < OctantWalk(r, x - 1).0) && x >= OctantWalk(r, x).0
    ensures DrawnBefore(w, h, x0, y0, r, x) == Drawn(w, h, x0, y0, r)
  {
    forall p
      ensures p in DrawnBefore(w, h, x0, y0, r, x) <==> p in Drawn(w, h, x0, y0, r)
    {
      DrawnAndRest(w, h, x0, y0, r, x, p);
    }
  }

  /** Where a pixel really goes: a negative coordinate becomes 0. */
  function Pushed(q: Point): Point { Point(Max(q.x, 0), Max(q.y, 0)) }

  lemma DotIsPushed(w: int, h: int, q: Point, p: Point)
    requires 0 < w < 0x4000 && 0 < h < 0x4000 && -0x8000 <= q.x < 0x8000 && -0x8000 <= q.y < 0x8000
    ensures InDot(w, h, q.x, q.y, p) <==> q.x < w && q.y < h && p == Pushed(q)
  {
  }

  /** The centre may lie on the screen, to the right of it or below it, and the circle
      may hang over any edge, as long as 16 signed bits hold the coordinates. */
  predicate Fits(w: int, h: int, x0: int, y0: int, r: int) {
    0 < w < 0x4000 && 0 < h < 0x4000 && 0 <= x0 < 0x4000 && 0 <= y0 < 0x4000 && 0 <= r <= 0x4000
  }

  /** A column that lies in the same runs of the full figure as column `a` lies in
      the shortened ones. */
  function Shifted(a: int): int { if a >= 0 then a + 1 else a }

  /** A run: what hangs over at the left is cut off, what hangs over at the top goes
      to row 0. */
  lemma RunOnScreen(w: int, h: int, x0: int, y0: int, x: nat, b: int, p: Point)
    requires Fits(w, h, x0, y0, x) && -0x4000 <= b <= 0x4000 && OnScreen(w, h, p)
    ensures InRun(w, h, x0 - x, y0 + b, 2 * x, p) <==> p.y == Max(y0 + b, 0) && Abs(Shifted(p.x - x0)) <= x
  {
  }

  lemma TurnIsDrawn(w: int, h: int, x0: int, y0: int, x: nat, y: nat, b: int, p: Point)
    requires Fits(w, h, x0, y0, x) && y <= 0x4000 && OnScreen(w, h, p)
    requires InRuns(x, y, Shifted(p.x - x0), b) && p.y == Max(y0 + b, 0)
    ensures InTurn(w, h, x0, y0, x, y, p)
  {
    if Abs(b) == y && Abs(Shifted(p.x - x0)) <= x {
      RunOnScreen(w, h, x0, y0, x, b, p);
    } else {
      RunOnScreen(w, h, x0, y0, y, b, p);
    }
  }

  lemma DrawnIsTurn(w: int, h: int, x0: int, y0: int, x: nat, y: nat, p: Point) returns (b: int)
    requires Fits(w, h, x0, y0, x) && y <= 0x4000 && OnScreen(w, h, p)
    requires InTurn(w, h, x0, y0, x, y, p)
    ensures InRuns(x, y, Shifted(p.x - x0), b) && p.y == Max(y0 + b, 0)
  {
    RunOnScreen(w, h, x0, y0, x, y, p);
    RunOnScreen(w, h, x0, y0, x, 0 - y, p);
    RunOnScreen(w, h, x0, y0, y, x, p);
    RunOnScreen(w, h, x0, y0, y, 0 - x, p);
    b := if InRun(w, h, x0 - x, y0 + y, 2 * x, p) then y
         else if InRun(w, h, x0 - x, y0 - y, 2 * x, p) then 0 - y
         else if InRun(w, h, x0 - y, y0 + x, 2 * y, p) then x else 0 - x;
  }

  lemma {:induction false} VisitedTurn(w: int, h: int, x0: int, y0: int, x: int, y: int, f: int, p: Point,
                                       u: int, v: int)
    requires Visits(x, y, f, u, v) && InTurn(w, h, x0, y0, u, v, p)
    ensures InTurnsFrom(w, h, x0, y0, x, y, f, p)
    decreases y - x
  {
    var y' := if f >= 0 then y - 1 else y;
    if !(u == x + 1 && v == y') {
      VisitedTurn(w, h, x0, y0, x + 1, y', NextDecision(x, y, f), p, u, v);
    }
  }

  lemma {:induction false} TurnOfVisit(w: int, h: int, x0: int, y0: int, x: int, y: int, f: int, p: Point)
    returns (u: int, v: int)
    requires InTurnsFrom(w, h, x0, y0, x, y, f, p)
    ensures Visits(x, y, f, u, v) && InTurn(w, h, x0, y0, u, v, p)
    decreases y - x
  {
    u, v := x + 1, if f >= 0 then y - 1 else y;
    if !InTurn(w, h, x0, y0, u, v, p) {
      u, v := TurnOfVisit(w, h, x0, y0, u, v, NextDecision(x, y, f), p);
    }
  }

  /** So the loop draws its runs, each in the row it is moved to ... */
  lemma RunsAreDrawn(w: int, h: int, x0: int, y0: int, x: nat, y: nat, f: int, b: int, p: Point)
    requires Fits(w, h, x0, y0, y) && OnScreen(w, h, p)
    requires InRunsFrom(x, y, f, Shifted(p.x - x0), b) && p.y == Max(y0 + b, 0)
    ensures InTurnsFrom(w, h, x0, y0, x, y, f, p)
  {
    var u, v := RunOfVisit(x, y, f, Shifted(p.x - x0), b);
    VisitsWithin(x, y, f, u, v);
    TurnIsDrawn(w, h, x0, y0, u, v, b, p);
    VisitedTurn(w, h, x0, y0, x, y, f, p, u, v);
  }

  /** ... and nothing else. */
  lemma DrawnAreRuns(w: int, h: int, x0: int, y0: int, x: nat, y: nat, f: int, p: Point) returns (b: int)
    requires Fits(w, h, x0, y0, y) && OnScreen(w, h, p) && InTurnsFrom(w, h, x0, y0, x, y, f, p)
    ensures InRunsFrom(x, y, f, Shifted(p.x - x0), b) && p.y == Max(y0 + b, 0)
  {
    var u, v := TurnOfVisit(w, h, x0, y0, x, y, f, p);
    VisitsWithin(x, y, f, u, v);
    b := DrawnIsTurn(w, h, x0, y0, u, v, p);
    VisitedRun(x, y, f, Shifted(p.x - x0), b, u, v);
  }

  /** The pixels of the filled figure that this driver draws: all but the last one
      of every row, except that the compass points are always there. */
  ghost predicate ShortDisc(r: nat, a: int, b: int) {
    Disc(r, Shifted(a), b) || Reflects(0, r, a, b)
  }

  lemma InnerColumn(r: nat, a: int, b: int)
    requires Abs(a) <= 1 && Abs(b) < r
    ensures Disc(r, a, b) && Disc(r, b, a)
  {
    SquareOfAbs(b);
    SquareMonotone(Abs(b), r);
  }

  lemma CompassWithin(w: int, h: int, x0: int, y0: int, r: nat, p: Point)
    requires Fits(w, h, x0, y0, r) && OnScreen(w, h, p) && InDots(w, h, ReflectionsAt(x0, y0, 0, r), p)
    ensures ShortDisc(r, p.x - x0, p.y - y0)
  {
    var q: Point :| q in ReflectionsAt(x0, y0, 0, r) && InDot(w, h, q.x, q.y, p);
    DotIsPushed(w, h, q, p);
    if q.x < 0 {
      InnerRow(r, x0);
    } else if q.y < 0 {
      InnerColumn(r, 1, 0 - y0);
    }
  }

  lemma InnerRow(r: nat, x0: nat)
    requires x0 < r
    ensures Disc(r, Shifted(0 - x0), 0)
  {
    if x0 == 0 {
      InnerColumn(r, 1, 0);
    } else {
      InnerColumn(r, 0, 0 - x0);
    }
  }

  lemma LoopWithin(w: int, h: int, x0: int, y0: int, r: nat, p: Point)
    requires Fits(w, h, x0, y0, r) && OnScreen(w, h, p) && InTurnsFrom(w, h, x0, y0, 0, r, 1 - r, p)
    ensures Disc(r, Shifted(p.x - x0), p.y - y0)
  {
    var b := DrawnAreRuns(w, h, x0, y0, 0, r, 1 - r, p);
    RunInDisc(r, Shifted(p.x - x0), b, p.y - y0);
  }

  lemma RunInDisc(r: nat, a: int, b: int, c: int)
    requires InRunsFrom(0, r, 1 - r, a, b) && Abs(c) <= Abs(b)
    ensures Disc(r, a, c)
  {
    RunsMakeDisc(r, a, b);
    DiscColumn(r, a, b, c);
  }

  lemma CentreWithin(w: int, h: int, x0: int, y0: int, r: nat, p: Point)
    requires Fits(w, h, x0, y0, r) && OnScreen(w, h, p) && InRun(w, h, x0 - r, y0, 2 * r, p)
    ensures Disc(r, Shifted(p.x - x0), p.y - y0)
  {
    RunOnScreen(w, h, x0, y0, r, 0, p);
    RunsMakeDisc(r, Shifted(p.x - x0), 0);
  }

  lemma ShortDiscIsDrawn(w: int, h: int, x0: int, y0: int, r: nat, p: Point)
    requires Fits(w, h, x0, y0, r) && OnScreen(w, h, p) && ShortDisc(r, p.x - x0, p.y - y0)
    ensures p in Drawn(w, h, x0, y0, r)
  {
    if Reflects(0, r, p.x - x0, p.y - y0) {
      DotIsPushed(w, h, p, p);
      assert p in ReflectionsAt(x0, y0, 0, r);
    } else {
      RunsMakeDisc(r, Shifted(p.x - x0), p.y - y0);
      RunOnScreen(w, h, x0, y0, r, 0, p);
      if InRunsFrom(0, r, 1 - r, Shifted(p.x - x0), p.y - y0) {
        RunsAreDrawn(w, h, x0, y0, 0, r, 1 - r, p.y - y0, p);
      }
    }
  }

  /** On the screen the driver draws exactly those pixels, wherever the circle hangs
      over. */
  lemma DrawnIsShortDisc(w: int, h: int, x0: int, y0: int, r: nat, p: Point)
    requires Fits(w, h, x0, y0, r) && OnScreen(w, h, p)
    ensures p in Drawn(w, h, x0, y0, r) <==> ShortDisc(r, p.x - x0, p.y - y0)
  {
    if p in Compass(w, h, x0, y0, r) {
      CompassWithin(w, h, x0, y0, r, p);
    } else if InRun(w, h, x0 - r, y0, 2 * r, p) {
      CentreWithin(w, h, x0, y0, r, p);
    } else if InTurnsFrom(w, h, x0, y0, 0, r, 1 - r, p) {
      LoopWithin(w, h, x0, y0, r, p);
    }
    if ShortDisc(r, p.x - x0, p.y - y0) {
      ShortDiscIsDrawn(w, h, x0, y0, r, p);
    }
  }

  // --- When that is the right picture ---

  lemma ShortDiscWithin(r: nat, a: int, b: int)
    requires ShortDisc(r, a, b)
    ensures Disc(r, a, b)
  {
    if Disc(r, Shifted(a), b) {
      DiscRow(r, Shifted(a), b, a);
    }
  }

  lemma BeyondRadius(r: nat, a: int, b: int)
    requires r < Abs(a) || r < Abs(b)
    ensures !Disc(r, a, b)
  {
    if r > 0 {
      DiscApproximates(r, a, b);
    }
  }

  /** The row of the circle that lies farthest from the centre row on a screen of
      `h` rows. */
  function FarthestRow(h: int, y0: int, r: nat): int { Min(r, Max(y0, h - 1 - y0)) }

  /** The last pixels of all rows but the centre row lie beyond the right edge, or the
      whole circle lies below the screen. */
  predicate EndsBeyond(w: int, h: int, x0: int, y0: int, r: nat) {
    || r <= 1 || w <= x0 || r <= y0 - h
    || FarthestRow(h, y0, r) == 0 || Disc(r, w - x0, FarthestRow(h, y0, r))
  }

  lemma NothingMissing(w: int, h: int, x0: int, y0: int, r: nat, p: Point)
    requires Fits(w, h, x0, y0, r) && OnScreen(w, h, p) && EndsBeyond(w, h, x0, y0, r)
    requires Disc(r, p.x - x0, p.y - y0)
    ensures ShortDisc(r, p.x - x0, p.y - y0)
  {
    var a, b := p.x - x0, p.y - y0;
    if r <= 1 {
      SmallDisc(r, a, b);
    } else if a >= 0 {
      if r < Abs(a) || r < Abs(b) {
        BeyondRadius(r, a, b);
      }
      if b != 0 {
        DiscColumn(r, w - x0, FarthestRow(h, y0, r), b);
        DiscRow(r, w - x0, b, a + 1);
      } else if a < r {
        RunsMakeDisc(r, a + 1, 0);
      }
    }
  }

  /** The last column of a row. */
  lemma {:induction false} LastColumn(r: nat, a: nat, b: int, limit: int) returns (last: nat)
    requires Disc(r, a, b) && !Disc(r, limit, b) && a < limit
    ensures a <= last < limit && Disc(r, last, b) && !Disc(r, last + 1, b)
    decreases limit - a
  {
    last := a;
    if Disc(r, a + 1, b) {
      last := LastColumn(r, a + 1, b, limit);
    }
  }

  lemma RowEndMissing(w: int, h: int, x0: int, y0: int, r: nat) returns (p: Point)
    requires Fits(w, h, x0, y0, r) && !EndsBeyond(w, h, x0, y0, r)
    ensures OnScreen(w, h, p) && Disc(r, p.x - x0, p.y - y0) && !ShortDisc(r, p.x - x0, p.y - y0)
  {
    var far := FarthestRow(h, y0, r);
    var b := if y0 >= h - 1 - y0 then 0 - far else far;
    DiscOfAbs(r, w - x0, b);
    MiddleOfRow(r, b);
    var a := LastColumn(r, 1, b, w - x0);
    p := Point(x0 + a, y0 + b);
  }

  lemma MiddleOfRow(r: nat, b: int)
    requires 1 < r && 0 < Abs(b) <= r
    ensures Disc(r, 1, b) && Disc(r, 0, b)
  {
    SquareOfAbs(b);
    if Abs(b) < r {
      SquareMonotone(Abs(b), r);
    }
  }

  /** The picture is right exactly when the circle has at most one row, or a radius of at
      most 1, or lies below the screen, or the last pixels that are left out lie beyond
      the right edge. */
  lemma DrawnIsDiscIff(w: int, h: int, x0: int, y0: int, r: nat)
    requires Fits(w, h, x0, y0, r)
    ensures (forall p :: OnScreen(w, h, p) ==> (p in Drawn(w, h, x0, y0, r) <==> p in DiscAt(x0, y0, r)))
       <==> EndsBeyond(w, h, x0, y0, r)
  {
    if EndsBeyond(w, h, x0, y0, r) {
      forall p | OnScreen(w, h, p)
        ensures p in Drawn(w, h, x0, y0, r) <==> p in DiscAt(x0, y0, r)
      {
        RightPixel(w, h, x0, y0, r, p);
      }
    } else {
      var p := RowEndMissing(w, h, x0, y0, r);
      DrawnIsShortDisc(w, h, x0, y0, r, p);
    }
  }

  lemma RightPixel(w: int, h: int, x0: int, y0: int, r: nat, p: Point)
    requires Fits(w, h, x0, y0, r) && OnScreen(w, h, p) && EndsBeyond(w, h, x0, y0, r)
    ensures p in Drawn(w, h, x0, y0, r) <==> p in DiscAt(x0, y0, r)
  {
    DrawnIsShortDisc(w, h, x0, y0, r, p);
    ShortDiscWhole(w, h, x0, y0, r, p);
  }

  lemma ShortDiscWhole(w: int, h: int, x0: int, y0: int, r: nat, p: Point)
    requires Fits(w, h, x0, y0, r) && OnScreen(w, h, p) && EndsBeyond(w, h, x0, y0, r)
    ensures ShortDisc(r, p.x - x0, p.y - y0) <==> Disc(r, p.x - x0, p.y - y0)
  {
    if Disc(r, p.x - x0, p.y - y0) {
      NothingMissing(w, h, x0, y0, r, p);
    } else if ShortDisc(r, p.x - x0, p.y - y0) {
      ShortDiscWithin(r, p.x - x0, p.y - y0);
    }
  }

  /** In particular a circle that hangs over no edge is right only if it is one of the
      two smallest. */
  lemma WithoutOverhang(w: int, h: int, x0: int, y0: int, r: nat)
    requires Fits(w, h, x0, y0, r) && r <= x0 && x0 + r < w && r <= y0 && y0 + r < h
    ensures EndsBeyond(w, h, x0, y0, r) <==> r <= 1
  {
    BeyondRadius(r, w - x0, FarthestRow(h, y0, r));
  }

  /** A circle on the display that comes out right nevertheless, since its right half
      hangs over. */
  lemma RightEdgeExample()
    ensures forall p :: OnScreen(240, 320, p) ==> (p in Drawn(240, 320, 239, 100, 5) <==> p in DiscAt(239, 100, 5))
  {
    DrawnIsDiscIff(240, 320, 239, 100, 5);
  }

  lemma SmallDisc(r: nat, a: int, b: int)
    requires r <= 1
    ensures Disc(r, a, b) <==> Abs(a) + Abs(b) <= r
    ensures ShortDisc(r, a, b) <==> Abs(a) + Abs(b) <= r
  {
    if r == 1 {
      UnitDisc(a, b);
      UnitDisc(Shifted(a), b);
    }
  }

  lemma UnitDisc(a: int, b: int)
    ensures Disc(1, a, b) <==> Abs(a) + Abs(b) <= 1
  {
    DiscApproximates(1, a, b);
  }
}
