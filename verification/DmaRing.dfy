/** The outline of a circle as the DMA2D driver really draws it, one vertical line of
    length 1 for every pixel. */
module DmaRing {
  import opened CTypes
  import opened Panels
  import opened Circles
  import opened DmaFigures
  import opened DmaCircle

  lemma DotsOfBoth(w: int, h: int, s: iset<Point>, t: iset<Point>)
    ensures DotsOf(w, h, s + t) == DotsOf(w, h, s) + DotsOf(w, h, t)
  {
  }

  lemma DotOfOne(w: int, h: int, x: int, y: int)
    ensures Dot(w, h, x, y) == DotsOf(w, h, iset{Point(x, y)})
  {
  }

  /** Two pixels, and four of them at (+-u, +-v) from a centre. */
  ghost function Pair(a: Point, b: Point): iset<Point> { iset{a} + iset{b} }

  ghost function Four(x0: int, y0: int, u: int, v: int): iset<Point> {
    Pair(Point(x0 + u, y0 + v), Point(x0 - u, y0 + v)) + Pair(Point(x0 + u, y0 - v), Point(x0 - u, y0 - v))
  }

  /** Drawing one set of pixels after another. */
  lemma PaintDotsTwice(screen: Panel, cells: seq<int>, w: int, h: int, s: iset<Point>, t: iset<Point>, ink: int)
    requires screen.Valid()
    ensures screen.Paint(screen.Paint(cells, DotsOf(w, h, s), ink), DotsOf(w, h, t), ink)
         == screen.Paint(cells, DotsOf(w, h, s + t), ink)
  {
    screen.PaintTwice(cells, DotsOf(w, h, s), DotsOf(w, h, t), ink);
    DotsOfBoth(w, h, s, t);
  }

  lemma EightReflect(x0: int, y0: int, x: nat, y: nat)
    ensures Four(x0, y0, x, y) + Four(x0, y0, y, x) == ReflectionsAt(x0, y0, x, y)
  {
  }

  lemma CompassReflects(x0: int, y0: int, r: nat)
    ensures Pair(Point(x0, y0 + r), Point(x0, y0 - r)) + Pair(Point(x0 + r, y0), Point(x0 - r, y0))
         == ReflectionsAt(x0, y0, 0, r)
  {
  }

  lemma RingInBox(r: nat, a: int, b: int)
    requires Ring(r, a, b)
    ensures Abs(a) <= r && Abs(b) <= r
  {
    if r > 0 {
      assert Disc(r, a, b);
      DiscApproximates(r, a, b);
    }
  }

  // --- What hangs over ---

  /** In the row at distance d from the centre, the outline reaches farther than c columns
      from it but has no pixel there; and the same with rows and columns exchanged. */
  predicate Smears(r: nat, c: nat, d: int) { Disc(r, c + 1, d) && !Ring(r, c, d) }

  /** The row and the column of the screen that are nearest to the centre. */
  function NearestRow(h: int, y0: int): int { if y0 < h then 0 else h - 1 - y0 }
  function NearestColumn(w: int, x0: int): int { NearestRow(w, x0) }

  lemma RingOfAbs(r: nat, a: int, b: int)
    ensures Ring(r, a, b) == Ring(r, Abs(a), Abs(b)) == Ring(r, Abs(b), Abs(a))
  {
    SquareOfAbs(a);
    SquareOfAbs(b);
  }

  lemma RingOfRowOrColumn(r: nat, a: int, b: int)
    ensures Ring(r, a, b) == Ring(r, b, a) && Disc(r, a, b) == Disc(r, b, a)
  {
  }

  /** The nearer the row, the more it smears. */
  lemma NearerSmears(r: nat, c: nat, d: int, e: int)
    requires Smears(r, c, d) && Abs(e) <= Abs(d)
    ensures Smears(r, c, e)
  {
    DiscColumn(r, c + 1, d, e);
    RingOfAbs(r, c, d);
    RingOfAbs(r, c, e);
    if Abs(e) <= c {
      RingIsEdge(r, e, c);
    } else {
      DiscRow(r, c + 1, d, c);
      DiscOfAbs(r, c, d);
      RingIsEdge(r, c, Abs(d));
      DiscColumn(r, c, Abs(d) + 1, Abs(e) + 1);
      RingIsEdge(r, c, Abs(e));
    }
  }

  /** The last pixel of a row belongs to the outline. */
  lemma LastIsRing(r: nat, a: nat, b: int)
    requires Disc(r, a, b) && !Disc(r, a + 1, b)
    ensures Ring(r, a, b)
  {
    SquareOfAbs(b);
    assert (a + 1) * (a + 1) == a * a + 2 * a + 1;
  }

  lemma SmearedPixel(r: nat, c: nat, d: int) returns (a: int)
    requires Smears(r, c, d)
    ensures c < a <= r && Ring(r, a, d)
  {
    BeyondRadius(r, r + 1, d);
    if r < c + 1 {
      BeyondRadius(r, c + 1, d);
    }
    a := LastColumn(r, c + 1, d, r + 1);
    LastIsRing(r, a, d);
  }

  /** What hangs over the left edge is drawn in column 0, where the outline has no
      pixel ... */
  lemma LeftIsSmeared(w: int, h: int, x0: int, y0: int, r: nat) returns (p: Point)
    requires Fits(w, h, x0, y0, r) && Smears(r, x0, NearestRow(h, y0))
    ensures OnScreen(w, h, p) && p in DotsOf(w, h, RingAt(x0, y0, r)) && p !in RingAt(x0, y0, r)
  {
    var b := NearestRow(h, y0);
    var a := SmearedPixel(r, x0, b);
    p := Point(0, y0 + b);
    MirroredRing(r, a, b);
    MirroredRing(r, x0, b);
    DotIsPushed(w, h, Point(x0 - a, y0 + b), p);
    assert Point(x0 - a, y0 + b) in RingAt(x0, y0, r);
  }

  /** ... and over the upper one in row 0. */
  lemma TopIsSmeared(w: int, h: int, x0: int, y0: int, r: nat) returns (p: Point)
    requires Fits(w, h, x0, y0, r) && Smears(r, y0, NearestColumn(w, x0))
    ensures OnScreen(w, h, p) && p in DotsOf(w, h, RingAt(x0, y0, r)) && p !in RingAt(x0, y0, r)
  {
    var a := NearestColumn(w, x0);
    var b := SmearedPixel(r, y0, a);
    p := Point(x0 + a, 0);
    RingOfRowOrColumn(r, b, a);
    RingOfRowOrColumn(r, y0, a);
    MirroredRing(r, a, b);
    MirroredRing(r, a, y0);
    DotIsPushed(w, h, Point(x0 + a, y0 - b), p);
    assert Point(x0 + a, y0 - b) in RingAt(x0, y0, r);
  }

  lemma RingWithin(w: int, h: int, x0: int, y0: int, r: nat, p: Point)
    requires Fits(w, h, x0, y0, r) && OnScreen(w, h, p)
    requires !Smears(r, x0, NearestRow(h, y0)) && !Smears(r, y0, NearestColumn(w, x0))
    ensures p in DotsOf(w, h, RingAt(x0, y0, r)) <==> p in RingAt(x0, y0, r)
  {
    if p in RingAt(x0, y0, r) {
      DotIsPushed(w, h, p, p);
    }
    if InDots(w, h, RingAt(x0, y0, r), p) {
      var q: Point :| q in RingAt(x0, y0, r) && InDot(w, h, q.x, q.y, p);
      RingInBox(r, q.x - x0, q.y - y0);
      DotIsPushed(w, h, q, p);
      PushedOnRing(w, h, x0, y0, r, q, p);
    }
  }

  lemma InnerOnRing(r: nat, a: int, d: int, c: nat, b: int, e: int)
    requires Ring(r, a, d) && c < Abs(a) && Abs(e) <= Abs(b) <= Abs(d) && !Smears(r, c, e)
    ensures Ring(r, c, b) && Ring(r, b, c)
  {
    DiscColumn(r, a, d, b);
    DiscRow(r, a, b, c + 1);
    RingOfRowOrColumn(r, c, b);
    if Smears(r, c, b) {
      NearerSmears(r, c, b, e);
    }
  }

  lemma PushedOnRing(w: int, h: int, x0: int, y0: int, r: nat, q: Point, p: Point)
    requires Fits(w, h, x0, y0, r) && OnScreen(w, h, p) && p == Pushed(q) && q in RingAt(x0, y0, r)
    requires !Smears(r, x0, NearestRow(h, y0)) && !Smears(r, y0, NearestColumn(w, x0))
    ensures p in RingAt(x0, y0, r)
  {
    var a, b := p.x - x0, p.y - y0;
    if q.x < 0 {
      InnerOnRing(r, q.x - x0, q.y - y0, x0, b, NearestRow(h, y0));
      MirroredRing(r, x0, b);
    } else if q.y < 0 {
      RingOfRowOrColumn(r, q.x - x0, q.y - y0);
      InnerOnRing(r, q.y - y0, q.x - x0, y0, a, NearestColumn(w, x0));
      MirroredRing(r, a, y0);
    }
  }

  lemma MirroredRing(r: nat, a: int, b: int)
    ensures Ring(r, -a, b) == Ring(r, a, b) == Ring(r, a, -b)
  {
    RingOfAbs(r, a, b);
    RingOfAbs(r, -a, b);
    RingOfAbs(r, a, -b);
  }

  /** A circle is drawn as the ring, cut to the screen, exactly when it smears neither
      over the left nor over the upper edge. */
  lemma RingIsClippedIff(w: int, h: int, x0: int, y0: int, r: nat)
    requires Fits(w, h, x0, y0, r)
    ensures (forall p :: OnScreen(w, h, p) ==>
                           (p in DotsOf(w, h, RingAt(x0, y0, r)) <==> p in RingAt(x0, y0, r)))
       <==> !Smears(r, x0, NearestRow(h, y0)) && !Smears(r, y0, NearestColumn(w, x0))
  {
    if Smears(r, x0, NearestRow(h, y0)) {
      var p := LeftIsSmeared(w, h, x0, y0, r);
    } else if Smears(r, y0, NearestColumn(w, x0)) {
      var p := TopIsSmeared(w, h, x0, y0, r);
    } else {
      forall p | OnScreen(w, h, p)
        ensures p in DotsOf(w, h, RingAt(x0, y0, r)) <==> p in RingAt(x0, y0, r)
      {
        RingWithin(w, h, x0, y0, r, p);
      }
    }
  }

  /** In the row and the column of the centre every overhang smears. */
  lemma CentreSmears(r: nat, c: nat)
    ensures Smears(r, c, 0) <==> r > c
  {
    if c < r {
      SquareMonotone(c, r);
      if c + 1 < r {
        SquareMonotone(c + 1, r);
      }
    } else {
      BeyondRadius(r, c + 1, 0);
    }
  }

  /** So if the centre is on the screen, the circle must not hang over these edges. */
  lemma RingOnScreenIff(w: int, h: int, x0: int, y0: int, r: nat)
    requires Fits(w, h, x0, y0, r) && x0 < w && y0 < h
    ensures (forall p :: OnScreen(w, h, p) ==>
                           (p in DotsOf(w, h, RingAt(x0, y0, r)) <==> p in RingAt(x0, y0, r)))
       <==> r <= x0 && r <= y0
  {
    RingIsClippedIff(w, h, x0, y0, r);
    CentreSmears(r, x0);
    CentreSmears(r, y0);
  }
}
