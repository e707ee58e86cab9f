/** What the midpoint circle algorithm draws, in closed form.

    Offsets are relative to the centre.  The loop of both drivers walks one
    octant, keeping a decision value `f`; the figure is that octant and its
    seven reflections. */
module Circles {
  import opened CTypes
  import opened Panels

  /** `y` is the integer nearest to sqrt(r*r - x*x):  (y - 1/2)^2 < r*r - x*x < (y + 1/2)^2. */
  predicate Nearest(r: nat, x: int, y: int) {
    y * y - y < r * r - x * x <= y * y + y
  }

  /** The outline: the offsets whose distance from the circle, measured along the
      axis on which they lie farther out, rounds to zero. */
  predicate Ring(r: nat, a: int, b: int) {
    var m := Max(Abs(a), Abs(b));
    if r == 0 then m == 0 else -m <= a * a + b * b - r * r < m
  }

  /** The filled figure: the outline and everything inside it. */
  predicate Disc(r: nat, a: int, b: int) {
    var m := Max(Abs(a), Abs(b));
    if r == 0 then m == 0 else a * a + b * b - r * r < m
  }

  ghost function RingAt(x0: int, y0: int, r: nat): iset<Point> {
    iset p: Point | Ring(r, p.x - x0, p.y - y0)
  }

  ghost function DiscAt(x0: int, y0: int, r: nat): iset<Point> {
    iset p: Point | Disc(r, p.x - x0, p.y - y0)
  }

  /** The loop invariant: the decision value is exact and the octant point is the
      nearest one, or, once x has passed y, mirrors the last nearest one. */
  ghost predicate Octant(r: nat, x: int, y: int, f: int) {
    && 0 <= x && 0 <= y <= r && x <= y + 1
    && f == x * x + y * y - y - r * r + 2 * x + 1
    && (r > 0 ==> if x <= y then Nearest(r, x, y) else Nearest(r, y, x) && r * r <= 2 * x * x - x)
  }

  function NextDecision(x: int, y: int, f: int): int {
    (if f >= 0 then f - 2 * (y - 1) else f) + 2 * x + 3
  }

  /** One turn of the loop body. */
  lemma OctantStep(r: nat, x: int, y: int, f: int)
    requires Octant(r, x, y, f) && x < y
    ensures Octant(r, x + 1, if f >= 0 then y - 1 else y, NextDecision(x, y, f))
  {
  }

  /** The decision value stays small; in particular 16 bits hold it for every
      radius for which they hold the initial value of -2*r. */
  lemma DecisionBound(r: nat, x: int, y: int, f: int)
    requires Octant(r, x, y, f)
    ensures r > 0 ==> -2 * y <= f <= 2 * x + 1
    ensures r > 2 ==> x < r
  {
    if r > 2 {
      InsideRadius(r, x, y, f);
    }
  }

  lemma InsideRadius(r: nat, x: int, y: int, f: int)
    requires Octant(r, x, y, f) && r > 2
    ensures x < r
  {
    assert (r - 1) * (r - 1) == r * r - 2 * r + 1;
    assert (r + 1) * (r + 1) == r * r + 2 * r + 1;
    assert 3 * r <= r * r;
  }

  /** Every point the loop plots is within y of the circle. */
  lemma PlotError(r: nat, x: int, y: int, f: int)
    requires Octant(r, x, y, f) && r > 0
    ensures Abs(x * x + y * y - r * r) <= y
    ensures Ring(r, x, y)
  {
  }

  lemma SquareMonotone(a: nat, b: nat)
    requires a < b
    ensures a * a + a <= b * b - b
    ensures a * a - a <= b * b - b
    ensures a * a < b * b
  {
    var c := b - 1;
    assert b * b == c * c + 2 * c + 1;
    if a < c {
      SquareMonotone(a, c);
    }
  }

  /** There is one nearest integer. */
  lemma NearestUnique(r: nat, x: int, y: nat, z: nat)
    requires Nearest(r, x, y) && Nearest(r, x, z)
    ensures y == z
  {
    if y < z { SquareMonotone(y, z); }
    if z < y { SquareMonotone(z, y); }
  }

  /** The filled figure is convex along every row. */
  lemma DiscRow(r: nat, a: int, b: int, c: int)
    requires Disc(r, a, b) && Abs(c) <= Abs(a)
    ensures Disc(r, c, b)
  {
    SquareOfAbs(a);
    SquareOfAbs(b);
    SquareOfAbs(c);
    if Abs(c) < Abs(a) {
      SquareMonotone(Abs(c), Abs(a));
    }
  }

  /** ... and along every column. */
  lemma DiscColumn(r: nat, a: int, b: int, c: int)
    requires Disc(r, a, b) && Abs(c) <= Abs(b)
    ensures Disc(r, a, c)
  {
    DiscRow(r, b, a, c);
  }

  lemma SquareOfAbs(a: int)
    ensures a * a == Abs(a) * Abs(a)
  {
  }

  /** Along row x (up to the diagonal) the figure reaches exactly to y, and
      along row y it contains everything up to x. */
  lemma DiscExtent(r: nat, x: nat, y: nat, a: int)
    requires r > 0 && x <= y && Nearest(r, x, y)
    ensures Disc(r, a, x) <==> Abs(a) <= y
    ensures Abs(a) <= x ==> Disc(r, a, y)
  {
    SquareOfAbs(a);
    if Abs(a) < y { SquareMonotone(Abs(a), y); }
    if y < Abs(a) { SquareMonotone(y, Abs(a)); }
    if Abs(a) < x { SquareMonotone(Abs(a), x); }
  }

  /** What the filled figure still lacks after column x: of the rows between x
      and y everything, of row y the part beyond x. */
  ghost predicate Covered(x: int, y: int, a: int, b: int) {
    Abs(b) <= x || Abs(b) > y || (Abs(b) == y && Abs(a) <= x)
  }

  ghost function RingSoFar(x0: int, y0: int, r: nat, x: int): iset<Point> {
    iset p: Point | Ring(r, p.x - x0, p.y - y0) && Min(Abs(p.x - x0), Abs(p.y - y0)) <= x
  }

  /** The eight reflections of an octant point. */
  ghost predicate Reflects(x: int, y: int, a: int, b: int) {
    (Abs(a) == x && Abs(b) == y) || (Abs(a) == y && Abs(b) == x)
  }

  /** The four horizontal runs the filled figure draws for an octant point. */
  ghost predicate InRuns(x: int, y: int, a: int, b: int) {
    (Abs(b) == y && Abs(a) <= x) || (Abs(b) == x && Abs(a) <= y)
  }

  /** Before the loop: the four compass points, and the row through the centre. */
  lemma Start(r: nat, a: int, b: int)
    ensures Octant(r, 0, r, 1 - r)
    ensures Ring(r, a, b) && Min(Abs(a), Abs(b)) <= 0 <==> Reflects(0, r, a, b)
    ensures Disc(r, a, b) && Covered(0, r, a, b) <==> InRuns(0, r, a, b)
  {
    SquareOfAbs(a);
    SquareOfAbs(b);
    var m := Max(Abs(a), Abs(b));
    if r < m { SquareMonotone(r, m); }
    if m < r { SquareMonotone(m, r); }
  }

  lemma StartsInOctant(r: nat)
    ensures Octant(r, 0, r, 1 - r)
  {
  }

  /** One turn of the loop adds exactly the points that the sets above predict. */
  lemma RingGrows(r: nat, x: nat, y: nat, f: int, a: int, b: int)
    requires Octant(r, x, y, f) && x < y
    ensures var y' := if f >= 0 then y - 1 else y;
            Ring(r, a, b) && Min(Abs(a), Abs(b)) <= x + 1
            <==> (Ring(r, a, b) && Min(Abs(a), Abs(b)) <= x) || Reflects(x + 1, y', a, b)
  {
    var y' := if f >= 0 then y - 1 else y;
    OctantStep(r, x, y, f);
    SquareOfAbs(a);
    SquareOfAbs(b);
    var m, n := Max(Abs(a), Abs(b)), Min(Abs(a), Abs(b));
    assert Ring(r, a, b) <==> Nearest(r, n, m);
    if n == x + 1 {
      if m < y' { SquareMonotone(m, y'); }
      if y' < m { SquareMonotone(y', m); }
    }
  }

  /** When the loop ends nothing is missing. */
  lemma RingComplete(r: nat, x: nat, y: nat, f: int, a: int, b: int)
    requires Octant(r, x, y, f) && x >= y && Ring(r, a, b)
    ensures Min(Abs(a), Abs(b)) <= x
  {
    SquareOfAbs(a);
    SquareOfAbs(b);
    var m, n := Max(Abs(a), Abs(b)), Min(Abs(a), Abs(b));
    if r > 0 && x < n {
      SquareMonotone(x, n);
      SquareMonotone(x, m);
      if x > y { SquareMonotone(y, x); }
    }
  }

  lemma DiscGrows(r: nat, x: nat, y: nat, f: int, a: int, b: int)
    requires Octant(r, x, y, f) && x < y
    ensures var y' := if f >= 0 then y - 1 else y;
            Disc(r, a, b) && Covered(x + 1, y', a, b)
            <==> (Disc(r, a, b) && Covered(x, y, a, b)) || InRuns(x + 1, y', a, b)
  {
    var y' := if f >= 0 then y - 1 else y;
    OctantStep(r, x, y, f);
    DiscOfAbs(r, a, b);
    if x + 1 <= y' {
      DiscExtent(r, x + 1, y', Abs(a));
    } else {
      DiscExtent(r, x, y, Abs(a));
    }
    if f >= 0 {
      RowFinished(r, x, y, f, Abs(a));
    }
  }

  lemma DiscOfAbs(r: nat, a: int, b: int)
    ensures Disc(r, a, b) == Disc(r, Abs(a), Abs(b))
  {
  }

  /** The loop leaves row y only when column x + 1 is outside the figure there. */
  lemma RowFinished(r: nat, x: nat, y: nat, f: int, a: nat)
    requires Octant(r, x, y, f) && x < y && f >= 0
    ensures Disc(r, a, y) <==> a <= x
  {
    assert (x + 1) * (x + 1) == x * x + 2 * x + 1;
    if a <= x {
      DiscExtent(r, x, y, a);
    } else {
      if x + 1 < a { SquareMonotone(x + 1, a); }
      if y < a { SquareMonotone(y, a); }
    }
  }

  /** The filled figure contains the whole mathematical disc and exceeds it by
      less than half a pixel. */
  lemma DiscApproximates(r: nat, a: int, b: int)
    requires r > 0
    ensures a * a + b * b <= r * r ==> Disc(r, a, b)
    ensures Disc(r, a, b) ==> a * a + b * b < r * r + r + 1 && Abs(a) <= r && Abs(b) <= r
  {
    DiscOfAbs(r, a, b);
    SquareOfAbs(a);
    SquareOfAbs(b);
    var m := Max(Abs(a), Abs(b));
    if r < m { SquareMonotone(r, m); }
  }

  /** The outline is the outer edge of the filled figure: the pixels from which
      one step outwards, along the axis on which they lie farther out, leaves it. */
  lemma RingIsEdge(r: nat, a: int, b: nat)
    requires r > 0 && Abs(a) <= b
    ensures Ring(r, a, b) <==> Disc(r, a, b) && !Disc(r, a, b + 1)
    ensures Ring(r, b, a) <==> Disc(r, b, a) && !Disc(r, b + 1, a)
  {
  }

  /** The outline has no gaps: every column and every row that the circle spans
      holds one of its pixels. */
  lemma NoGaps(r: nat, a: int) returns (b: nat)
    requires Abs(a) <= r
    ensures Ring(r, a, b) && Ring(r, b, a)
  {
    if r == 0 {
      return 0;
    }
    SquareOfAbs(a);
    assert Disc(r, a, 0) by {
      if Abs(a) < r { SquareMonotone(Abs(a), r); }
    }
    b := 0;
    while Disc(r, a, b + 1)
      invariant Disc(r, a, b) && b <= r
      decreases r - b
    {
      DiscApproximates(r, a, b + 1);
      b := b + 1;
    }
    EdgeOfColumn(r, a, b);
  }

  lemma EdgeOfColumn(r: nat, a: int, b: nat)
    requires r > 0 && Abs(a) <= r && Disc(r, a, b) && !Disc(r, a, b + 1)
    ensures Ring(r, a, b) && Ring(r, b, a)
  {
    assert (b + 1) * (b + 1) == b * b + 2 * b + 1;
    SquareOfAbs(a);
  }

  /** The figures around a centre. */
  ghost function ReflectionsAt(x0: int, y0: int, x: int, y: int): iset<Point> {
    iset p: Point | Reflects(x, y, p.x - x0, p.y - y0)
  }

  lemma RingStart(x0: int, y0: int, r: nat)
    ensures Octant(r, 0, r, 1 - r)
    ensures ReflectionsAt(x0, y0, 0, r) == RingSoFar(x0, y0, r, 0)
  {
    forall p: Point
      ensures p in ReflectionsAt(x0, y0, 0, r) <==> p in RingSoFar(x0, y0, r, 0)
    {
      Start(r, p.x - x0, p.y - y0);
    }
    Start(r, 0, 0);
  }

  lemma RingTurn(x0: int, y0: int, r: nat, x: nat, y: nat, f: int)
    requires Octant(r, x, y, f) && x < y
    ensures RingSoFar(x0, y0, r, x) + ReflectionsAt(x0, y0, x + 1, if f >= 0 then y - 1 else y)
         == RingSoFar(x0, y0, r, x + 1)
  {
    forall p: Point
      ensures p in RingSoFar(x0, y0, r, x + 1)
         <==> p in RingSoFar(x0, y0, r, x) || p in ReflectionsAt(x0, y0, x + 1, if f >= 0 then y - 1 else y)
    {
      RingGrows(r, x, y, f, p.x - x0, p.y - y0);
    }
  }

  lemma RingEnd(x0: int, y0: int, r: nat, x: nat, y: nat, f: int)
    requires Octant(r, x, y, f) && x >= y
    ensures RingSoFar(x0, y0, r, x) == RingAt(x0, y0, r)
  {
    forall p: Point | p in RingAt(x0, y0, r)
      ensures p in RingSoFar(x0, y0, r, x)
    {
      RingComplete(r, x, y, f, p.x - x0, p.y - y0);
    }
  }

  /** The runs of all octant points the loop still visits. */
  ghost predicate InRunsFrom(x: int, y: int, f: int, a: int, b: int)
    decreases y - x
  {
    x < y &&
      var y' := if f >= 0 then y - 1 else y;
      InRuns(x + 1, y', a, b) || InRunsFrom(x + 1, y', NextDecision(x, y, f), a, b)
  }

  /** The loop visits octant point (u, v). */
  ghost predicate Visits(x: int, y: int, f: int, u: int, v: int)
    decreases y - x
  {
    x < y &&
      var y' := if f >= 0 then y - 1 else y;
      (u == x + 1 && v == y') || Visits(x + 1, y', NextDecision(x, y, f), u, v)
  }

  lemma {:induction false} VisitsWithin(x: int, y: int, f: int, u: int, v: int)
    requires Visits(x, y, f, u, v) && 0 <= x
    ensures x < u <= y && 0 <= v <= y
    decreases y - x
  {
    var y' := if f >= 0 then y - 1 else y;
    if !(u == x + 1 && v == y') {
      VisitsWithin(x + 1, y', NextDecision(x, y, f), u, v);
    }
  }

  lemma {:induction false} VisitedRun(x: int, y: int, f: int, a: int, b: int, u: int, v: int)
    requires Visits(x, y, f, u, v) && InRuns(u, v, a, b)
    ensures InRunsFrom(x, y, f, a, b)
    decreases y - x
  {
    var y' := if f >= 0 then y - 1 else y;
    if !(u == x + 1 && v == y') {
      VisitedRun(x + 1, y', NextDecision(x, y, f), a, b, u, v);
    }
  }

  lemma {:induction false} RunOfVisit(x: int, y: int, f: int, a: int, b: int) returns (u: int, v: int)
    requires InRunsFrom(x, y, f, a, b)
    ensures Visits(x, y, f, u, v) && InRuns(u, v, a, b)
    decreases y - x
  {
    u, v := x + 1, if f >= 0 then y - 1 else y;
    if !InRuns(u, v, a, b) {
      u, v := RunOfVisit(u, v, NextDecision(x, y, f), a, b);
    }
  }

  lemma {:induction false} RunsCompleteDisc(r: nat, x: nat, y: nat, f: int, a: int, b: int)
    requires Octant(r, x, y, f)
    ensures InRunsFrom(x, y, f, a, b) || (Disc(r, a, b) && Covered(x, y, a, b)) <==> Disc(r, a, b)
    decreases y - x
  {
    if x < y {
      OctantStep(r, x, y, f);
      DiscGrows(r, x, y, f, a, b);
      RunsCompleteDisc(r, x + 1, if f >= 0 then y - 1 else y, NextDecision(x, y, f), a, b);
    }
  }

  /** Together the horizontal runs make up the filled figure, no more and no less. */
  lemma RunsMakeDisc(r: nat, a: int, b: int)
    ensures InRuns(0, r, a, b) || InRunsFrom(0, r, 1 - r, a, b) <==> Disc(r, a, b)
  {
    Start(r, a, b);
    RunsCompleteDisc(r, 0, r, 1 - r, a, b);
  }

  /** The row and the decision value in column x, as the loop computes them. */
  ghost function OctantWalk(r: nat, x: int): (int, int)
    decreases x
  {
    if x <= 0 then (r, 1 - r) else
      var (y, f) := OctantWalk(r, x - 1);
      (if f >= 0 then y - 1 else y, NextDecision(x - 1, y, f))
  }

  /** The row falls by at most one per column, so the loop has not ended before. */
  lemma WalkDown(r: nat, x: nat)
    ensures OctantWalk(r, x).0 - 1 <= OctantWalk(r, x + 1).0 <= OctantWalk(r, x).0
    ensures x > 0 && x < OctantWalk(r, x).0 ==> x - 1 < OctantWalk(r, x - 1).0
  {
  }

  /** While the loop runs, these meet its invariant. */
  lemma {:induction false} WalkInOctant(r: nat, x: nat)
    requires x == 0 || x - 1 < OctantWalk(r, x - 1).0
    ensures Octant(r, x, OctantWalk(r, x).0, OctantWalk(r, x).1)
  {
    if x == 0 {
      StartsInOctant(r);
    } else {
      WalkInOctant(r, x - 1);
      OctantStep(r, x - 1, OctantWalk(r, x - 1).0, OctantWalk(r, x - 1).1);
    }
  }
}
