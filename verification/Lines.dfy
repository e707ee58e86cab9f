/** Which pixels the two line rasterisers choose, in closed form.

    Both drivers walk `Long` steps along the longer axis.  After `k` of them the
    exact line has moved `k * Short / Long` along the other axis; the drivers
    differ only in how they round that quotient. */
module Lines {
  import opened CTypes
  import opened Panels

  datatype Line = Line(x1: int, y1: int, x2: int, y2: int) {
    function Dx(): nat { Abs(x2 - x1) }
    function Dy(): nat { Abs(y2 - y1) }
    function Long(): nat { Max(Dx(), Dy()) }
    function Short(): nat { Min(Dx(), Dy()) }

    function Reverse(): Line { Line(x2, y2, x1, y1) }

    function AlongX(k: int): int { if x1 <= x2 then x1 + k else x1 - k }
    function AlongY(k: int): int { if y1 <= y2 then y1 + k else y1 - k }

    /** The pixel `k` steps along the longer axis and `j` along the shorter one. */
    function At(k: int, j: int): Point {
      if Dx() >= Dy() then Point(AlongX(k), AlongY(j)) else Point(AlongX(j), AlongY(k))
    }

    /** The DMA2D driver rounds the quotient to the nearest integer, ties upwards ... */
    function DmaShort(k: int): int {
      if Long() == 0 then 0 else (Long() / 2 + k * Short()) / Long()
    }

    /** ... and the LTDC driver rounds it to the nearest integer, ties downwards. */
    function LtdcShort(k: int): int {
      if Long() == 0 then 0 else (k * Short() - Long() / 2 + Long() - 1) / Long()
    }

    function DmaPixel(k: int): Point { At(k, DmaShort(k)) }
    function LtdcPixel(k: int): Point { At(k, LtdcShort(k)) }

    ghost function DmaPixels(): iset<Point> { iset k | 0 <= k <= Long() :: DmaPixel(k) }
    ghost function LtdcPixels(): iset<Point> { iset k | 0 <= k <= Long() :: LtdcPixel(k) }

    /** The exact line passes halfway between two pixels after `k` steps. */
    predicate Tie(k: int) { Long() > 0 && 2 * ((k * Short()) % Long()) == Long() }
  }

  /** `n / d` is the one integer q with q*d <= n < q*d + d. */
  lemma Quotient(n: int, d: int, q: int)
    requires 0 < d
    ensures q == n / d <==> q * d <= n < q * d + d
  {
    if q * d <= n < q * d + d {
      DivModUnique(n, d, q, n - q * d);
    }
  }

  /** Each driver's choice, without division: the DMA2D driver's short offset is
      the j with -Long < 2*(k*Short - j*Long) <= Long after rounding the half down. */
  lemma Rounding(l: Line, k: int, j: int)
    requires l.Long() > 0
    ensures j == l.DmaShort(k) <==> 0 <= l.Long() / 2 + k * l.Short() - j * l.Long() < l.Long()
    ensures j == l.LtdcShort(k) <==> 0 <= l.Long() / 2 - k * l.Short() + j * l.Long() < l.Long()
  {
    Quotient(l.Long() / 2 + k * l.Short(), l.Long(), j);
    Quotient(k * l.Short() - l.Long() / 2 + l.Long() - 1, l.Long(), j);
  }

  /** Both rasterisers stay within half a pixel of the exact line, and whenever
      one integer is strictly nearest, both choose it. */
  lemma HalfPixel(l: Line, k: int)
    ensures 2 * Abs(k * l.Short() - l.DmaShort(k) * l.Long()) <= l.Long() || l.Long() == 0
    ensures 2 * Abs(k * l.Short() - l.LtdcShort(k) * l.Long()) <= l.Long() || l.Long() == 0
    ensures forall j :: 2 * Abs(k * l.Short() - j * l.Long()) < l.Long()
                    ==> j == l.DmaShort(k) == l.LtdcShort(k)
  {
    if l.Long() > 0 {
      Rounding(l, k, l.DmaShort(k));
      Rounding(l, k, l.LtdcShort(k));
      forall j | 2 * Abs(k * l.Short() - j * l.Long()) < l.Long()
        ensures j == l.DmaShort(k) == l.LtdcShort(k)
      {
        Rounding(l, k, j);
      }
    }
  }

  /** The two drivers draw pixel `k` at the same place exactly when it is no tie;
      on a tie the DMA2D pixel is one step further along the shorter axis. */
  lemma LinesAgreeUnlessTie(l: Line, k: int)
    ensures l.DmaPixel(k) == l.LtdcPixel(k) <==> !l.Tie(k)
    ensures l.DmaShort(k) == l.LtdcShort(k) + (if l.Tie(k) then 1 else 0)
  {
    var d, km := l.Long(), k * l.Short();
    if d > 0 {
      RoundBothWays(km, d);
      var q, r := km / d, km % d;
      Rounding(l, k, if d / 2 + r < d then q else q + 1);
      Rounding(l, k, if 2 * r <= d then q else q + 1);
    }
  }

  lemma RoundBothWays(n: int, d: int)
    requires 0 < d
    ensures var up := n / d + if d / 2 + n % d < d then 0 else 1;
            0 <= d / 2 + n - up * d < d
    ensures var down := n / d + if 2 * (n % d) <= d then 0 else 1;
            0 <= d / 2 - n + down * d < d
  {
    var q := n / d;
    assert n == q * d + n % d;
    assert (q + 1) * d == q * d + d;
  }

  /** One driver's line is the other driver's line drawn from the far end. */
  lemma LtdcIsReversedDma(l: Line, k: int)
    requires 0 <= k <= l.Long()
    ensures l.Reverse().Long() == l.Long()
    ensures l.LtdcPixel(k) == l.Reverse().DmaPixel(l.Long() - k)
  {
    ShortReversed(l, k);
    ShortInRange(l, k);
  }

  lemma ShortReversed(l: Line, k: int)
    ensures l.LtdcShort(k) == l.Short() - l.Reverse().DmaShort(l.Long() - k)
  {
    var d, m := l.Long(), l.Short();
    if d > 0 {
      var j := l.Reverse().DmaShort(d - k);
      Rounding(l.Reverse(), d - k, j);
      MirrorIdentity(d, m, k, j);
      Rounding(l, k, m - j);
    }
  }

  lemma MirrorIdentity(d: int, m: int, k: int, j: int)
    ensures (d - k) * m - j * d == (m - j) * d - k * m
  {
  }

  /** Hence, as sets of pixels, swapping the end points swaps the drivers. */
  lemma LtdcSetIsReversedDmaSet(l: Line)
    ensures l.LtdcPixels() == l.Reverse().DmaPixels()
  {
    var r := l.Reverse();
    forall p | p in l.LtdcPixels()
      ensures p in r.DmaPixels()
    {
      var k :| 0 <= k <= l.Long() && p == l.LtdcPixel(k);
      LtdcIsReversedDma(l, k);
    }
    forall p | p in r.DmaPixels()
      ensures p in l.LtdcPixels()
    {
      var k :| 0 <= k <= r.Long() && p == r.DmaPixel(k);
      LtdcIsReversedDma(l, l.Long() - k);
    }
  }

  /** Both start at the first end point, finish at the second, and move to one of
      the eight neighbours in each step. */
  lemma Connected(l: Line, k: int)
    ensures l.DmaPixel(0) == l.LtdcPixel(0) == Point(l.x1, l.y1)
    ensures l.DmaPixel(l.Long()) == l.LtdcPixel(l.Long()) == Point(l.x2, l.y2)
    ensures 0 <= l.DmaShort(k + 1) - l.DmaShort(k) <= 1
    ensures 0 <= l.LtdcShort(k + 1) - l.LtdcShort(k) <= 1
  {
    if l.Long() > 0 {
      Rounding(l, 0, 0);
      AtTheEnd(l);
      OneStep(l, k);
    }
  }

  lemma AtTheEnd(l: Line)
    requires l.Long() > 0
    ensures l.DmaShort(l.Long()) == l.LtdcShort(l.Long()) == l.Short()
  {
    assert l.Long() * l.Short() == l.Short() * l.Long();
    Rounding(l, l.Long(), l.Short());
  }

  lemma OneStep(l: Line, k: int)
    requires l.Long() > 0
    ensures 0 <= l.DmaShort(k + 1) - l.DmaShort(k) <= 1
    ensures 0 <= l.LtdcShort(k + 1) - l.LtdcShort(k) <= 1
  {
    var d, m, h := l.Long(), l.Short(), l.Long() / 2;
    assert (k + 1) * m == k * m + m;
    QuotientStep(h + k * m, d, m);
    QuotientStep(k * m - h + d - 1, d, m);
  }

  lemma QuotientStep(n: int, d: int, m: int)
    requires 0 < d && 0 <= m <= d
    ensures 0 <= (n + m) / d - n / d <= 1
  {
    var q := n / d;
    Quotient(n, d, q);
    assert (q + 1) * d == q * d + d;
    Quotient(n + m, d, q);
    Quotient(n + m, d, q + 1);
  }

  /** No pixel leaves the rectangle spanned by the end points. */
  lemma WithinBox(l: Line, k: int)
    requires 0 <= k <= l.Long()
    ensures forall p :: p == l.DmaPixel(k) || p == l.LtdcPixel(k) ==>
              Min(l.x1, l.x2) <= p.x <= Max(l.x1, l.x2) && Min(l.y1, l.y2) <= p.y <= Max(l.y1, l.y2)
  {
    ShortInRange(l, k);
  }

  lemma ShortInRange(l: Line, k: int)
    requires 0 <= k <= l.Long()
    ensures 0 <= l.DmaShort(k) <= l.Short()
    ensures 0 <= l.LtdcShort(k) <= l.Short()
  {
    var d, m := l.Long(), l.Short();
    if d > 0 {
      MulInRange(k, d, m);
      Rounding(l, k, l.DmaShort(k));
      InRange(k * m, d, m, l.DmaShort(k), d / 2);
      Rounding(l, k, l.LtdcShort(k));
      InRange(k * m, d, m, l.LtdcShort(k), d - 1 - d / 2);
    }
  }

  lemma MulInRange(k: int, d: int, m: int)
    requires 0 <= k <= d && 0 <= m
    ensures 0 <= k * m <= d * m
  {
  }

  lemma InRange(n: int, d: int, m: int, j: int, half: int)
    requires 0 < d && 0 <= half < d && 0 <= n <= d * m
    requires j * d <= n + half < j * d + d
    ensures 0 <= j <= m
  {
    MulMonotone(j, -1, d);
    MulMonotone(m + 1, j, d);
    assert (m + 1) * d == d * m + d;
  }
}
