/** The box sampler behind thumbnails: every destination cell averages a window of source pixels and
    is flattened onto white. */
module Thumbnail {
  import opened Basics

  const MAX_DIMENSION := 480
  const FULL := 0xffff

  /** A premultiplied 16-bit pixel, as color.Color.RGBA returns it. */
  datatype Pixel = Pixel(r: nat, g: nat, b: nat, a: nat)
  datatype Rgb = Rgb(r: nat, g: nat, b: nat)

  predicate Premultiplied(p: Pixel) {
    p.r <= p.a && p.g <= p.a && p.b <= p.a && p.a <= FULL
  }

  /** A rectangle of pixels, row by row; it may be empty. */
  predicate IsRaster(src: seq<seq<Pixel>>) {
    && (forall y | 0 <= y < |src| :: |src[y]| == |src[0]|)
    && (forall y, x | 0 <= y < |src| && 0 <= x < |src[y]| :: Premultiplied(src[y][x]))
  }

  predicate IsEmpty(src: seq<seq<Pixel>>) {
    src == [] || src[0] == []
  }

  predicate IsImage(src: seq<seq<Pixel>>) {
    IsRaster(src) && !IsEmpty(src)
  }

  // ---------- windows ----------

  /** The first source index of destination cell `k`, out of `n` cells over `size` indices. */
  function Start(k: nat, size: nat, n: nat): nat
    requires n > 0
  {
    k * size / n
  }

  lemma LessTimes(d: nat, q: nat, n: nat)
    requires d < q
    ensures d * n + n <= q * n
  {
    assert (q - d) * n == q * n - d * n;
    assert (q - d - 1) * n >= 0;
  }

  lemma QuotientIs(a: nat, q: nat, n: nat)
    requires n > 0 && q * n <= a < q * n + n
    ensures a / n == q
  {
    var d := a / n;
    QuotientBounds(a, n);
    if d < q {
      LessTimes(d, q, n);
    } else if q < d {
      LessTimes(q, d, n);
    }
  }

  lemma MulDiv(a: nat, n: nat)
    requires n > 0
    ensures a * n / n == a
  {
    QuotientIs(a * n, a, n);
  }

  lemma DivMonotone(a: nat, b: nat, n: nat)
    requires n > 0 && a <= b
    ensures a / n <= b / n
  {
    QuotientBounds(a, n);
    QuotientBounds(b, n);
    if b / n < a / n {
      LessTimes(b / n, a / n, n);
    }
  }

  lemma DivStep(a: nat, size: nat, n: nat)
    requires 0 < n <= size
    ensures a / n < (a + size) / n
  {
    QuotientBounds(a, n);
    assert (a / n + 1) * n == a / n * n + n;
    QuotientIs(a + n, a / n + 1, n);
    DivMonotone(a + n, a + size, n);
  }

  /** Consecutive windows are never empty and never leave the image, so neither clamp ever fires. */
  lemma WindowsNeedNoClamp(k: nat, size: nat, n: nat)
    requires 0 < n <= size && k < n
    ensures Start(k, size, n) < Start(k + 1, size, n) <= size
    ensures Start(0, size, n) == 0 && Start(n, size, n) == size
  {
    Distribute(k, size);
    DivStep(k * size, size, n);
    if k + 1 < n { LessTimes(k + 1, n, size); }
    DivMonotone((k + 1) * size, n * size, n);
    Commute(n, size);
    MulDiv(size, n);
    MulDiv(0, n);
  }

  lemma Distribute(k: nat, size: nat)
    ensures (k + 1) * size == k * size + size && 0 * size == 0
  {
  }

  lemma Commute(n: nat, size: nat)
    ensures n * size == size * n
  {
  }

  lemma {:induction false} StartsIncrease(j: nat, k: nat, size: nat, n: nat)
    requires 0 < n <= size && j < k <= n
    ensures Start(j, size, n) < Start(k, size, n)
    decreases k
  {
    WindowsNeedNoClamp(k - 1, size, n);
    if j < k - 1 {
      StartsIncrease(j, k - 1, size, n);
    }
  }

  predicate InWindow(s: nat, k: nat, size: nat, n: nat)
    requires n > 0
  {
    Start(k, size, n) <= s < Start(k + 1, size, n)
  }

  lemma {:induction false} WindowOf(s: nat, m: nat, size: nat, n: nat) returns (k: nat)
    requires 0 < n <= size && m <= n && s < Start(m, size, n)
    ensures k < m && InWindow(s, k, size, n)
    decreases m
  {
    WindowsNeedNoClamp(0, size, n);
    if Start(m - 1, size, n) <= s {
      k := m - 1;
    } else {
      k := WindowOf(s, m - 1, size, n);
    }
  }

  /** The windows tile the source: every source pixel falls in exactly one destination cell. */
  lemma EveryPixelInOneCell(sy: nat, sx: nat, h: nat, w: nat, nh: nat, nw: nat) returns (y: nat, x: nat)
    requires 0 < nh <= h && 0 < nw <= w && sy < h && sx < w
    ensures y < nh && x < nw && InWindow(sy, y, h, nh) && InWindow(sx, x, w, nw)
    ensures forall y', x' | 0 <= y' < nh && 0 <= x' < nw && InWindow(sy, y', h, nh) && InWindow(sx, x', w, nw) ::
              y' == y && x' == x
  {
    WindowsNeedNoClamp(0, h, nh);
    WindowsNeedNoClamp(0, w, nw);
    y := WindowOf(sy, nh, h, nh);
    x := WindowOf(sx, nw, w, nw);
    forall y', x' | 0 <= y' < nh && 0 <= x' < nw && InWindow(sy, y', h, nh) && InWindow(sx, x', w, nw)
      ensures y' == y && x' == x
    {
      OneWindow(sy, y, y', h, nh);
      OneWindow(sx, x, x', w, nw);
    }
  }

  lemma OneWindow(s: nat, j: nat, k: nat, size: nat, n: nat)
    requires 0 < n <= size && j < n && k < n && InWindow(s, j, size, n) && InWindow(s, k, size, n)
    ensures j == k
  {
    if j < k {
      if j + 1 < k { StartsIncrease(j + 1, k, size, n); }
    } else if k < j {
      if k + 1 < j { StartsIncrease(k + 1, j, size, n); }
    }
  }

  // ---------- sums ----------

  datatype Totals = Totals(r: nat, g: nat, b: nat, a: nat, count: nat) {
    function Plus(o: Totals): Totals {
      Totals(r + o.r, g + o.g, b + o.b, a + o.a, count + o.count)
    }
  }

  const ZERO := Totals(0, 0, 0, 0, 0)

  function One(p: Pixel): Totals {
    Totals(p.r, p.g, p.b, p.a, 1)
  }

  function RowTotals(row: seq<Pixel>, x0: nat, x1: nat): Totals
    requires x0 <= x1 <= |row|
    decreases x1 - x0
  {
    if x0 == x1 then ZERO else RowTotals(row, x0, x1 - 1).Plus(One(row[x1 - 1]))
  }

  function RectTotals(src: seq<seq<Pixel>>, y0: nat, y1: nat, x0: nat, x1: nat): Totals
    requires IsImage(src) && y0 <= y1 <= |src| && x0 <= x1 <= |src[0]|
    decreases y1 - y0
  {
    if y0 == y1 then ZERO else RectTotals(src, y0, y1 - 1, x0, x1).Plus(RowTotals(src[y1 - 1], x0, x1))
  }

  lemma {:induction false} RowSplit(row: seq<Pixel>, x0: nat, x1: nat, x2: nat)
    requires x0 <= x1 <= x2 <= |row|
    ensures RowTotals(row, x0, x2) == RowTotals(row, x0, x1).Plus(RowTotals(row, x1, x2))
    decreases x2
  {
    if x1 < x2 { RowSplit(row, x0, x1, x2 - 1); }
  }

  lemma RectStep(src: seq<seq<Pixel>>, y0: nat, y1: nat, x0: nat, x1: nat)
    requires IsImage(src) && y0 < y1 <= |src| && x0 <= x1 <= |src[0]|
    ensures RectTotals(src, y0, y1, x0, x1)
            == RectTotals(src, y0, y1 - 1, x0, x1).Plus(RowTotals(src[y1 - 1], x0, x1))
  {
  }

  lemma RectSplitXStep(src: seq<seq<Pixel>>, y0: nat, y1: nat, x0: nat, x1: nat, x2: nat)
    requires IsImage(src) && y0 < y1 <= |src| && x0 <= x1 <= x2 <= |src[0]|
    requires RectTotals(src, y0, y1 - 1, x0, x2)
             == RectTotals(src, y0, y1 - 1, x0, x1).Plus(RectTotals(src, y0, y1 - 1, x1, x2))
    ensures RectTotals(src, y0, y1, x0, x2) == RectTotals(src, y0, y1, x0, x1).Plus(RectTotals(src, y0, y1, x1, x2))
  {
    RowSplit(src[y1 - 1], x0, x1, x2);
    RectStep(src, y0, y1, x0, x2);
    RectStep(src, y0, y1, x0, x1);
    RectStep(src, y0, y1, x1, x2);
    SplitStep(RectTotals(src, y0, y1 - 1, x0, x2), RowTotals(src[y1 - 1], x0, x2),
              RectTotals(src, y0, y1 - 1, x0, x1), RowTotals(src[y1 - 1], x0, x1),
              RectTotals(src, y0, y1 - 1, x1, x2), RowTotals(src[y1 - 1], x1, x2));
  }

  lemma {:induction false} RectSplitX(src: seq<seq<Pixel>>, y0: nat, y1: nat, x0: nat, x1: nat, x2: nat)
    requires IsImage(src) && y0 <= y1 <= |src| && x0 <= x1 <= x2 <= |src[0]|
    ensures RectTotals(src, y0, y1, x0, x2) == RectTotals(src, y0, y1, x0, x1).Plus(RectTotals(src, y0, y1, x1, x2))
    decreases y1
  {
    if y0 < y1 {
      RectSplitX(src, y0, y1 - 1, x0, x1, x2);
      RectSplitXStep(src, y0, y1, x0, x1, x2);
    } else {
      assert y1 == y0;
      RectSplitXBase(src, y0, x0, x1, x2);
    }
  }

  lemma RectSplitXBase(src: seq<seq<Pixel>>, y0: nat, x0: nat, x1: nat, x2: nat)
    requires IsImage(src) && y0 <= |src| && x0 <= x1 <= x2 <= |src[0]|
    ensures RectTotals(src, y0, y0, x0, x2) == RectTotals(src, y0, y0, x0, x1).Plus(RectTotals(src, y0, y0, x1, x2))
  {
    EmptyRect(src, y0, x0, x1);
    EmptyRect(src, y0, x1, x2);
    EmptyRect(src, y0, x0, x2);
  }

  lemma EmptyRect(src: seq<seq<Pixel>>, y0: nat, x0: nat, x1: nat)
    requires IsImage(src) && y0 <= |src| && x0 <= x1 <= |src[0]|
    ensures RectTotals(src, y0, y0, x0, x1) == ZERO
  {
  }

  lemma SplitStep(w0: Totals, w1: Totals, l0: Totals, l1: Totals, r0: Totals, r1: Totals)
    requires w0 == l0.Plus(r0) && w1 == l1.Plus(r1)
    ensures w0.Plus(w1) == l0.Plus(l1).Plus(r0.Plus(r1))
  {
  }

  lemma {:induction false} RectSplitY(src: seq<seq<Pixel>>, y0: nat, y1: nat, y2: nat, x0: nat, x1: nat)
    requires IsImage(src) && y0 <= y1 <= y2 <= |src| && x0 <= x1 <= |src[0]|
    ensures RectTotals(src, y0, y2, x0, x1) == RectTotals(src, y0, y1, x0, x1).Plus(RectTotals(src, y1, y2, x0, x1))
    decreases y2
  {
    if y1 < y2 { RectSplitY(src, y0, y1, y2 - 1, x0, x1); }
  }

  function CellTotals(src: seq<seq<Pixel>>, nw: nat, nh: nat, y: nat, x: nat): Totals
    requires IsImage(src) && 0 < nw <= |src[0]| && 0 < nh <= |src| && y < nh && x < nw
  {
    WindowsNeedNoClamp(y, |src|, nh);
    WindowsNeedNoClamp(x, |src[0]|, nw);
    RectTotals(src, Start(y, |src|, nh), Start(y + 1, |src|, nh), Start(x, |src[0]|, nw), Start(x + 1, |src[0]|, nw))
  }

  function CellsOfRow(src: seq<seq<Pixel>>, nw: nat, nh: nat, y: nat, m: nat): Totals
    requires IsImage(src) && 0 < nw <= |src[0]| && 0 < nh <= |src| && y < nh && m <= nw
  {
    if m == 0 then ZERO else CellsOfRow(src, nw, nh, y, m - 1).Plus(CellTotals(src, nw, nh, y, m - 1))
  }

  function CellsOfRows(src: seq<seq<Pixel>>, nw: nat, nh: nat, m: nat): Totals
    requires IsImage(src) && 0 < nw <= |src[0]| && 0 < nh <= |src| && m <= nh
  {
    if m == 0 then ZERO else CellsOfRows(src, nw, nh, m - 1).Plus(CellsOfRow(src, nw, nh, m - 1, nw))
  }

  lemma {:induction false} RowOfCellsIsBand(src: seq<seq<Pixel>>, nw: nat, nh: nat, y: nat, m: nat)
    requires IsImage(src) && 0 < nw <= |src[0]| && 0 < nh <= |src| && y < nh && m <= nw
    ensures Start(y, |src|, nh) <= Start(y + 1, |src|, nh) <= |src| && Start(m, |src[0]|, nw) <= |src[0]|
    ensures CellsOfRow(src, nw, nh, y, m)
            == RectTotals(src, Start(y, |src|, nh), Start(y + 1, |src|, nh), 0, Start(m, |src[0]|, nw))
    decreases m
  {
    var y0, y1 := Start(y, |src|, nh), Start(y + 1, |src|, nh);
    WindowsNeedNoClamp(y, |src|, nh);
    WindowsNeedNoClamp(0, |src[0]|, nw);
    if m == 0 {
      EmptyBand(src, y0, y1, 0);
    } else {
      WindowsNeedNoClamp(m - 1, |src[0]|, nw);
      RowOfCellsIsBand(src, nw, nh, y, m - 1);
      OneMoreCell(src, nw, nh, y, m, y0, y1, Start(m - 1, |src[0]|, nw), Start(m, |src[0]|, nw));
    }
  }

  lemma OneMoreCell(src: seq<seq<Pixel>>, nw: nat, nh: nat, y: nat, m: nat, y0: nat, y1: nat, x0: nat, x1: nat)
    requires IsImage(src) && 0 < m <= nw <= |src[0]| && 0 < nh <= |src| && y < nh
    requires y0 <= y1 <= |src| && x0 <= x1 <= |src[0]|
    requires CellsOfRow(src, nw, nh, y, m - 1) == RectTotals(src, y0, y1, 0, x0)
    requires CellTotals(src, nw, nh, y, m - 1) == RectTotals(src, y0, y1, x0, x1)
    ensures CellsOfRow(src, nw, nh, y, m) == RectTotals(src, y0, y1, 0, x1)
  {
    RectSplitX(src, y0, y1, 0, x0, x1);
  }

  lemma {:induction false} EmptyBand(src: seq<seq<Pixel>>, y0: nat, y1: nat, x: nat)
    requires IsImage(src) && y0 <= y1 <= |src| && x <= |src[0]|
    ensures RectTotals(src, y0, y1, x, x) == ZERO
    decreases y1
  {
    if y0 < y1 { EmptyBand(src, y0, y1 - 1, x); }
  }

  ghost predicate RowsAreTop(src: seq<seq<Pixel>>, nw: nat, nh: nat, m: nat, y: nat)
    requires IsImage(src) && 0 < nw <= |src[0]| && 0 < nh <= |src| && m <= nh
  {
    y <= |src| && CellsOfRows(src, nw, nh, m) == RectTotals(src, 0, y, 0, |src[0]|)
  }

  lemma RowsStep(src: seq<seq<Pixel>>, nw: nat, nh: nat, k: nat)
    requires IsImage(src) && 0 < nw <= |src[0]| && 0 < nh <= |src| && k < nh
    requires RowsAreTop(src, nw, nh, k, Start(k, |src|, nh))
    ensures RowsAreTop(src, nw, nh, k + 1, Start(k + 1, |src|, nh))
  {
    WholeRowIsBand(src, nw, nh, k);
    OneMoreBand(src, nw, nh, k + 1, Start(k, |src|, nh), Start(k + 1, |src|, nh));
  }

  lemma {:induction false} RowsOfCellsAreTop(src: seq<seq<Pixel>>, nw: nat, nh: nat, m: nat)
    requires IsImage(src) && 0 < nw <= |src[0]| && 0 < nh <= |src| && m <= nh
    ensures RowsAreTop(src, nw, nh, m, Start(m, |src|, nh))
    decreases m
  {
    if m == 0 {
      WindowsNeedNoClamp(0, |src|, nh);
    } else {
      RowsOfCellsAreTop(src, nw, nh, m - 1);
      RowsStep(src, nw, nh, m - 1);
    }
  }

  lemma WholeRowIsBand(src: seq<seq<Pixel>>, nw: nat, nh: nat, y: nat)
    requires IsImage(src) && 0 < nw <= |src[0]| && 0 < nh <= |src| && y < nh
    ensures Start(y, |src|, nh) <= Start(y + 1, |src|, nh) <= |src|
    ensures CellsOfRow(src, nw, nh, y, nw) == RectTotals(src, Start(y, |src|, nh), Start(y + 1, |src|, nh), 0, |src[0]|)
  {
    RowOfCellsIsBand(src, nw, nh, y, nw);
    WindowsNeedNoClamp(0, |src[0]|, nw);
  }

  lemma OneMoreBand(src: seq<seq<Pixel>>, nw: nat, nh: nat, m: nat, y0: nat, y1: nat)
    requires IsImage(src) && 0 < nw <= |src[0]| && 0 < m <= nh <= |src| && y0 <= y1 <= |src|
    requires CellsOfRows(src, nw, nh, m - 1) == RectTotals(src, 0, y0, 0, |src[0]|)
    requires CellsOfRow(src, nw, nh, m - 1, nw) == RectTotals(src, y0, y1, 0, |src[0]|)
    ensures CellsOfRows(src, nw, nh, m) == RectTotals(src, 0, y1, 0, |src[0]|)
  {
    RectSplitY(src, 0, y0, y1, 0, |src[0]|);
  }

  /** No pixel is lost or counted twice: the cell sums add up, channel by channel and in number of
      pixels, to the sums over the whole image. */
  lemma CellSumsAddUp(src: seq<seq<Pixel>>, nw: nat, nh: nat)
    requires IsImage(src) && 0 < nw <= |src[0]| && 0 < nh <= |src|
    ensures CellsOfRows(src, nw, nh, nh) == RectTotals(src, 0, |src|, 0, |src[0]|)
  {
    RowsOfCellsAreTop(src, nw, nh, nh);
    WindowsNeedNoClamp(0, |src|, nh);
  }

  // ---------- averaging and flattening ----------

  predicate Bounded(t: Totals) {
    t.r <= t.a && t.g <= t.a && t.b <= t.a && t.a <= t.count * FULL
  }

  lemma {:induction false} RowBounded(row: seq<Pixel>, x0: nat, x1: nat)
    requires x0 <= x1 <= |row| && forall x | 0 <= x < |row| :: Premultiplied(row[x])
    ensures Bounded(RowTotals(row, x0, x1)) && RowTotals(row, x0, x1).count == x1 - x0
    decreases x1
  {
    if x0 < x1 { RowBounded(row, x0, x1 - 1); }
  }

  lemma {:induction false} RectBounded(src: seq<seq<Pixel>>, y0: nat, y1: nat, x0: nat, x1: nat)
    requires IsImage(src) && y0 <= y1 <= |src| && x0 <= x1 <= |src[0]|
    ensures Bounded(RectTotals(src, y0, y1, x0, x1))
    ensures RectTotals(src, y0, y1, x0, x1).count == (y1 - y0) * (x1 - x0)
    decreases y1
  {
    if y0 < y1 {
      RectBounded(src, y0, y1 - 1, x0, x1);
      RowBounded(src[y1 - 1], x0, x1);
      assert (y1 - y0) * (x1 - x0) == (y1 - 1 - y0) * (x1 - x0) + (x1 - x0);
    }
  }

  /** One averaged channel over opaque white, in 8 bits. */
  function Flatten(channel: nat, t: Totals): int
    requires t.count > 0
  {
    (channel / t.count + (FULL - t.a / t.count)) / 256
  }

  /** The averages plus the white term stay within 16 bits, so no clamping is needed and the result
      fits a byte; the sums themselves fit 64 bits for any window of up to 2^48 pixels. */
  lemma FlattenNeverOverflows(t: Totals, channel: nat)
    requires Bounded(t) && t.count > 0 && channel <= t.a
    ensures t.a / t.count <= FULL
    ensures 0 <= channel / t.count + (FULL - t.a / t.count) <= FULL
    ensures 0 <= Flatten(channel, t) <= 255
    ensures t.count <= 0x1_0000_0000_0000 ==> t.a < 0x1_0000_0000_0000_0000
  {
    DivMonotone(channel, t.a, t.count);
    DivMonotone(t.a, FULL * t.count, t.count);
    MulDiv(FULL, t.count);
  }

  /** A uniform opaque window keeps its colour, a fully transparent one becomes white. */
  lemma UniformWindows(t: Totals, c: nat)
    requires t.count > 0
    ensures t.a == FULL * t.count && t.r == c * t.count ==> Flatten(t.r, t) == c / 256
    ensures t.a == 0 && t.r == 0 ==> Flatten(t.r, t) == 255
  {
    MulDiv(FULL, t.count);
    MulDiv(c, t.count);
  }

  function CellColor(t: Totals): Rgb
    requires Bounded(t) && t.count > 0
  {
    FlattenNeverOverflows(t, t.r);
    FlattenNeverOverflows(t, t.g);
    FlattenNeverOverflows(t, t.b);
    Rgb(Flatten(t.r, t), Flatten(t.g, t), Flatten(t.b, t))
  }

  // ---------- the sampler ----------

  /** Sums one window pixel by pixel. */
  method SumWindow(src: seq<seq<Pixel>>, sy0: nat, sy1: nat, sx0: nat, sx1: nat) returns (t: Totals)
    requires IsImage(src) && sy0 <= sy1 <= |src| && sx0 <= sx1 <= |src[0]|
    ensures t == RectTotals(src, sy0, sy1, sx0, sx1)
  {
    t := ZERO;
    for sy := sy0 to sy1
      invariant t == RectTotals(src, sy0, sy, sx0, sx1)
    {
      var row := SumRow(src[sy], sx0, sx1, t);
      RectStep(src, sy0, sy + 1, sx0, sx1);
      t := row;
    }
  }

  method SumRow(row: seq<Pixel>, sx0: nat, sx1: nat, above: Totals) returns (t: Totals)
    requires sx0 <= sx1 <= |row|
    ensures t == above.Plus(RowTotals(row, sx0, sx1))
  {
    t := above;
    for sx := sx0 to sx1
      invariant t == above.Plus(RowTotals(row, sx0, sx))
    {
      t := t.Plus(One(row[sx]));
    }
  }

  /** `c` is the flattened average of exactly this cell's unclamped window. */
  ghost predicate IsCell(src: seq<seq<Pixel>>, nw: nat, nh: nat, y: nat, x: nat, c: Rgb)
    requires IsImage(src) && 0 < nw <= |src[0]| && 0 < nh <= |src| && y < nh && x < nw
  {
    var t := CellTotals(src, nw, nh, y, x);
    Bounded(t) && t.count > 0 && c == CellColor(t)
  }

  /** One window's end points, clamps included. */
  method Window(k: nat, size: nat, n: nat) returns (lo: nat, hi: nat)
    requires 0 < n <= size && k < n
    ensures lo == Start(k, size, n) && hi == Start(k + 1, size, n) && lo < hi <= size
  {
    WindowsNeedNoClamp(k, size, n);
    var s0, s1 := k * size / n, (k + 1) * size / n;
    if s1 <= s0 { s1 := s0 + 1; }
    if s1 > size { s1 := size; }
    lo, hi := s0, s1;
  }

  method Cell(src: seq<seq<Pixel>>, nw: nat, nh: nat, y: nat, x: nat, sy0: nat, sy1: nat) returns (c: Rgb)
    requires IsImage(src) && 0 < nw <= |src[0]| && 0 < nh <= |src| && y < nh && x < nw
    requires sy0 == Start(y, |src|, nh) && sy1 == Start(y + 1, |src|, nh) && sy0 < sy1 <= |src|
    ensures IsCell(src, nw, nh, y, x, c)
  {
    var sx0, sx1 := Window(x, |src[0]|, nw);
    var t := SumWindow(src, sy0, sy1, sx0, sx1);
    RectBounded(src, sy0, sy1, sx0, sx1);
    assert t.count == (sy1 - sy0) * (sx1 - sx0) > 0;
    c := CellColor(t);
  }

  /** The sampler: every cell of the result is the flattened average of its own window. */
  method Sample(src: seq<seq<Pixel>>, nw: nat, nh: nat) returns (dst: array2<Rgb>)
    requires IsImage(src) && 0 < nw <= |src[0]| && 0 < nh <= |src|
    ensures fresh(dst) && dst.Length0 == nh && dst.Length1 == nw
    ensures forall y, x | 0 <= y < nh && 0 <= x < nw :: IsCell(src, nw, nh, y, x, dst[y, x])
  {
    dst := new Rgb[nh, nw]((_, _) => Rgb(0, 0, 0));
    for y := 0 to nh
      invariant forall j, i | 0 <= j < y && 0 <= i < nw :: IsCell(src, nw, nh, j, i, dst[j, i])
    {
      var sy0, sy1 := Window(y, |src|, nh);
      for x := 0 to nw
        invariant forall j, i | 0 <= j < nh && 0 <= i < nw && (j < y || (j == y && i < x)) ::
                    IsCell(src, nw, nh, j, i, dst[j, i])
      {
        var c := Cell(src, nw, nh, y, x, sy0, sy1);
        dst[y, x] := c;
      }
    }
  }

  // ---------- the size of the result ----------

  /** Half a unit in the last place of a double, relative to its value: 2 to the power -53. */
  const ROUNDOFF := 1.0 / 9007199254740992.0

  /** A rounded result of an operation on positive doubles. */
  predicate Rounds(x: real, exact: real) {
    exact * (1.0 - ROUNDOFF) <= x <= exact * (1.0 + ROUNDOFF)
  }

  /** What the floating-point unit answers: limit / width, limit / height, and each side times the scale. */
  datatype Floats = Floats(sw: real, sh: real, pw: real, ph: real)

  function AtMostOne(s: real): real {
    if s >= 1.0 then 1.0 else s
  }

  function Least(a: real, b: real): real {
    if a < b then a else b
  }

  function Scale(w: nat, h: nat, f: Floats): real {
    if w <= MAX_DIMENSION && h <= MAX_DIMENSION then 1.0 else AtMostOne(Least(f.sw, f.sh))
  }

  function Quotient(side: nat): real
    requires side > 0
  {
    MAX_DIMENSION as real / side as real
  }

  function Product(side: nat, s: real): real {
    side as real * s
  }

  /** Every answer is rounded; a product by one is exact. */
  predicate Answers(f: Floats, w: nat, h: nat)
    requires w > 0 && h > 0
  {
    var s := Scale(w, h, f);
    && Rounds(f.sw, Quotient(w)) && Rounds(f.sh, Quotient(h))
    && Rounds(f.pw, Product(w, s)) && Rounds(f.ph, Product(h, s))
    && (s == 1.0 ==> f.pw == w as real && f.ph == h as real)
  }

  function Side(product: real): int {
    if product.Floor < 1 then 1 else product.Floor
  }

  lemma Cancel(x: real, y: real, n: real)
    requires n > 0.0
    ensures x * n <= y * n <==> x <= y
  {
    assert (y - x) * n == y * n - x * n;
    if x <= y {
      assert (y - x) * n >= 0.0;
    } else {
      assert (x - y) * n > 0.0;
    }
  }

  lemma SmallerQuotient(a: real, l: real, o: real)
    requires a > 0.0 && 0.0 < o <= l
    ensures 0.0 < a / l <= a / o
  {
    var x, y := a / l, a / o;
    assert x * l == a && y * o == a;
    Cancel(x, y, o);
    Cancel(o, l, x);
  }

  /** The rounding in round figures. */
  lemma RoundsWithin(x: real, exact: real)
    requires Rounds(x, exact) && exact > 0.0
    ensures exact * 0.999999 < x < exact * 1.000001
  {
    assert 0.0 < ROUNDOFF < 0.000001;
    var d := exact * ROUNDOFF;
    assert d < exact * 0.000001;
    assert exact * (1.0 + ROUNDOFF) == exact + d && exact * (1.0 - ROUNDOFF) == exact - d;
  }

  /** The smaller of the two quotients is a rounded limit / longer, and less than one. */
  lemma ScaleIsNear(l: nat, o: nat, sl: real, so: real, s: real)
    requires MAX_DIMENSION < l && 0 < o <= l && s <= sl && s <= so && (s == sl || s == so)
    requires Rounds(sl, Quotient(l)) && Rounds(so, Quotient(o))
    ensures Rounds(s, Quotient(l)) && s < 1.0
  {
    var ql, qo := MAX_DIMENSION as real / l as real, MAX_DIMENSION as real / o as real;
    SmallerQuotient(480.0, l as real, o as real);
    SmallerQuotient(480.0, l as real, 481.0);
    RoundsWithin(sl, ql);
    assert ROUNDOFF < 1.0;
    Cancel(ql, qo, 1.0 - ROUNDOFF);
  }

  lemma Regroup(x: real, q: real, k: real)
    ensures x * (q * k) == (x * q) * k
  {
  }

  /** A factor in front keeps a rounding. */
  lemma RoundsTimes(x: real, s: real, q: real)
    requires x > 0.0 && Rounds(s, q)
    ensures Rounds(x * s, x * q)
  {
    Cancel(q * (1.0 - ROUNDOFF), s, x);
    Cancel(s, q * (1.0 + ROUNDOFF), x);
    Regroup(x, q, 1.0 - ROUNDOFF);
    Regroup(x, q, 1.0 + ROUNDOFF);
  }

  lemma TimesWithin(z: nat, l: nat, s: real) returns (m: real, e: real)
    requires z > 0 && l > 0 && Rounds(s, Quotient(l))
    ensures m == Product(z, s) && e == Product(z, Quotient(l)) && Rounds(m, e)
  {
    m, e := Product(z, s), Product(z, Quotient(l));
    RoundsTimes(z as real, s, Quotient(l));
  }

  lemma ShareOfLimit(z: nat, l: nat, e: real)
    requires 0 < z <= l && MAX_DIMENSION < l && e == Product(z, Quotient(l))
    ensures 0.0 < e <= 480.0 && e <= z as real * (480.0 / 481.0) && (z == l ==> e == 480.0)
  {
    SmallerQuotient(480.0, l as real, 481.0);
    ShareBounds(z as real, l as real, Quotient(l));
  }

  lemma ShareBounds(z: real, l: real, q: real)
    requires 0.0 < z <= l && 0.0 < q <= 480.0 / 481.0 && q * l == 480.0
    ensures 0.0 < z * q <= 480.0 && z * q <= z * (480.0 / 481.0)
  {
    Cancel(z, l, q);
    Cancel(q, 480.0 / 481.0, z);
  }

  lemma SideOf(p: real, z: nat, e: real)
    requires 0 < z && 0.0 < e <= 480.0 && e <= z as real * (480.0 / 481.0)
    requires e * 0.99999 < p < e * 1.00001
    ensures 1 <= Side(p) <= MAX_DIMENSION && Side(p) <= z && (e == 480.0 ==> MAX_DIMENSION - 1 <= Side(p))
  {
    assert p < 481.0 && p < z as real;
  }

  /** Two roundings later a side is within the limit and within the source, and the longer one at most
      one short of the limit. */
  lemma SideFits(z: nat, l: nat, s: real, p: real)
    requires 0 < z <= l && MAX_DIMENSION < l
    requires Rounds(s, Quotient(l)) && Rounds(p, Product(z, s))
    ensures 1 <= Side(p) <= MAX_DIMENSION && Side(p) <= z && (z == l ==> MAX_DIMENSION - 1 <= Side(p))
  {
    var m, e := TimesWithin(z, l, s);
    ShareOfLimit(z, l, e);
    SideFromRoundings(z, e, m, p);
  }

  lemma SideFromRoundings(z: nat, e: real, m: real, p: real)
    requires 0 < z && 0.0 < e <= 480.0 && e <= z as real * (480.0 / 481.0) && Rounds(m, e) && Rounds(p, m)
    ensures 1 <= Side(p) <= MAX_DIMENSION && Side(p) <= z && (e == 480.0 ==> MAX_DIMENSION - 1 <= Side(p))
  {
    TwoRoundings(e, m, p);
    SideOf(p, z, e);
  }

  lemma TwoRoundings(e: real, m: real, p: real)
    requires e > 0.0 && Rounds(m, e) && Rounds(p, m)
    ensures e * 0.99999 < p < e * 1.00001
  {
    RoundsWithin(m, e);
    RoundsWithin(p, m);
  }

  /** The result never exceeds the limit or the source; an image within the limit keeps its size, and the
      longer side of a larger one comes out at the limit or one below it. */
  lemma TargetFits(f: Floats, w: nat, h: nat)
    requires w > 0 && h > 0 && Answers(f, w, h)
    ensures var (nw, nh) := (Side(f.pw), Side(f.ph));
            && 1 <= nw <= w && 1 <= nh <= h && nw <= MAX_DIMENSION && nh <= MAX_DIMENSION
            && (w <= MAX_DIMENSION && h <= MAX_DIMENSION ==> nw == w && nh == h)
            && (w > MAX_DIMENSION && w >= h ==> nw == MAX_DIMENSION || nw == MAX_DIMENSION - 1)
            && (h > MAX_DIMENSION && h >= w ==> nh == MAX_DIMENSION || nh == MAX_DIMENSION - 1)
  {
    var s := Least(f.sw, f.sh);
    if w > MAX_DIMENSION && w >= h {
      LargeImageFits(w, h, f.sw, f.sh, s, f.pw, f.ph);
    } else if h > MAX_DIMENSION {
      LargeImageFits(h, w, f.sh, f.sw, s, f.ph, f.pw);
    }
  }

  lemma LargeImageFits(l: nat, o: nat, sl: real, so: real, s: real, pl: real, po: real)
    requires MAX_DIMENSION < l && 0 < o <= l && s <= sl && s <= so && (s == sl || s == so)
    requires Rounds(sl, Quotient(l)) && Rounds(so, Quotient(o))
    requires Rounds(pl, Product(l, AtMostOne(s))) && Rounds(po, Product(o, AtMostOne(s)))
    ensures MAX_DIMENSION - 1 <= Side(pl) <= MAX_DIMENSION && Side(pl) <= l
    ensures 1 <= Side(po) <= MAX_DIMENSION && Side(po) <= o && (o == l ==> MAX_DIMENSION - 1 <= Side(po))
  {
    ScaleIsNear(l, o, sl, so, s);
    SideFits(l, l, s, pl);
    SideFits(o, l, s, po);
  }

  const QUOTIENT_OF_537 := 8051127825466808
  const PRODUCT_OF_537 := 8444249301319679

  /** `n` units is the double nearest to `exact`, where doubles lie `unit` apart. */
  predicate Nearest(n: int, unit: real, exact: real) {
    -unit < 2.0 * (n as real * unit - exact) < unit
  }

  /** One below the limit does happen: for a width of 537 the quotient and then the product round down.
      Doubles lie 2 to the -53 apart between a half and one, and 2 to the -44 between 256 and 512. */
  lemma WidthThatFallsShort()
    ensures var (q, p) := (QUOTIENT_OF_537, PRODUCT_OF_537);
            var (unit, unit2) := (1.0 / 9007199254740992.0, 1.0 / 17592186044416.0);
            && Nearest(q, unit, 480.0 / 537.0) && 0.5 <= q as real * unit < 1.0
            && Nearest(p, unit2, 537.0 * (q as real * unit)) && 256.0 <= p as real * unit2 < 512.0
            && Side(p as real * unit2) == 479
  {
  }

  /** A window boundary, computed as a rounded quotient and cut to an integer, is the exact one: products
      of coordinates stay far below 2 to the 53, and a whole quotient is not rounded. */
  lemma BoundaryIsExact(a: nat, n: nat, x: real)
    requires n > 0 && a < 9007199254740992 && Rounds(x, a as real / n as real)
    requires a % n == 0 ==> x == a as real / n as real
    ensures x.Floor == a / n
  {
    var q, r := a / n, a % n;
    var e := a as real / n as real;
    assert e * n as real == a as real == q as real * n as real + r as real;
    WholeAndRest(e, n as real, q as real, r as real);
    if r > 0 {
      RoundingIsSmall(e, n as real, a as real, x);
      PartOfOne(r as real, n as real);
    }
  }

  lemma WholeAndRest(e: real, n: real, q: real, r: real)
    requires n > 0.0 && e * n == q * n + r
    ensures e == q + r / n
  {
    assert (e - q) * n == r;
    assert (e - q) * n / n == e - q;
  }

  lemma RoundingIsSmall(e: real, n: real, a: real, x: real)
    requires n > 0.0 && e * n == a && 0.0 <= a < 9007199254740992.0 && Rounds(x, e)
    ensures e - 1.0 / n < x < e + 1.0 / n
  {
    var d := e * ROUNDOFF;
    assert d * n == a * ROUNDOFF < 1.0;
    assert (1.0 / n) * n == 1.0;
    Cancel(1.0 / n, d, n);
    assert d < 1.0 / n;
    assert e * (1.0 - ROUNDOFF) <= x <= e * (1.0 + ROUNDOFF);
    assert e * (1.0 + ROUNDOFF) == e + d && e * (1.0 - ROUNDOFF) == e - d;
  }

  lemma PartOfOne(r: real, n: real)
    requires 1.0 <= r <= n - 1.0
    ensures 1.0 / n <= r / n && r / n + 1.0 / n <= 1.0
  {
    assert (1.0 / n) * n == 1.0 && (r / n) * n == r;
    Cancel(1.0 / n, r / n, n);
    assert (r / n + 1.0 / n) * n == r + 1.0;
    Cancel(r / n + 1.0 / n, 1.0, n);
  }

  /** The thumbnail, or null for an empty source, which is handed back as it is. */
  method Downscale(src: seq<seq<Pixel>>, f: Floats) returns (dst: array2?<Rgb>)
    requires IsRaster(src) && (!IsEmpty(src) ==> Answers(f, |src[0]|, |src|))
    ensures dst == null <==> IsEmpty(src)
    ensures dst != null ==>
              && dst.Length0 == Side(f.ph) && 0 < dst.Length0 <= |src| && dst.Length0 <= MAX_DIMENSION
              && dst.Length1 == Side(f.pw) && 0 < dst.Length1 <= |src[0]| && dst.Length1 <= MAX_DIMENSION
    ensures dst != null ==> forall y, x | 0 <= y < dst.Length0 && 0 <= x < dst.Length1 ::
              IsCell(src, dst.Length1, dst.Length0, y, x, dst[y, x])
  {
    if |src| == 0 || |src[0]| == 0 { return null; }
    TargetFits(f, |src[0]|, |src|);
    dst := Sample(src, Side(f.pw), Side(f.ph));
  }
}
