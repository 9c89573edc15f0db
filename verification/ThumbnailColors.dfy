/** From source pixels to destination cell, channel by channel: what colour a thumbnail shows. */
module ThumbnailColors {
  import opened Basics
  import opened Thumbnail

  datatype Channel = Red | Green | Blue | Alpha

  function Value(p: Pixel, ch: Channel): nat {
    match ch
    case Red => p.r
    case Green => p.g
    case Blue => p.b
    case Alpha => p.a
  }

  /** One channel of a destination pixel. */
  function Shown(c: Rgb, ch: Channel): int
    requires ch != Alpha
  {
    match ch
    case Red => c.r
    case Green => c.g
    case Blue => c.b
  }

  function RowSum(row: seq<Pixel>, x0: nat, x1: nat, ch: Channel): nat
    requires x0 <= x1 <= |row|
    decreases x1 - x0
  {
    if x0 == x1 then 0 else RowSum(row, x0, x1 - 1, ch) + Value(row[x1 - 1], ch)
  }

  /** One channel summed over a window of the source. */
  function WindowSum(src: seq<seq<Pixel>>, y0: nat, y1: nat, x0: nat, x1: nat, ch: Channel): nat
    requires IsImage(src) && y0 <= y1 <= |src| && x0 <= x1 <= |src[0]|
    decreases y1 - y0
  {
    if y0 == y1 then 0 else WindowSum(src, y0, y1 - 1, x0, x1, ch) + RowSum(src[y1 - 1], x0, x1, ch)
  }

  predicate RowTotalsAre(t: Totals, row: seq<Pixel>, x0: nat, x1: nat)
    requires x0 <= x1 <= |row|
  {
    && t.r == RowSum(row, x0, x1, Red) && t.g == RowSum(row, x0, x1, Green)
    && t.b == RowSum(row, x0, x1, Blue) && t.a == RowSum(row, x0, x1, Alpha) && t.count == x1 - x0
  }

  lemma {:induction false} RowIsSummed(row: seq<Pixel>, x0: nat, x1: nat)
    requires x0 <= x1 <= |row|
    ensures RowTotalsAre(RowTotals(row, x0, x1), row, x0, x1)
    decreases x1
  {
    if x0 < x1 { RowIsSummed(row, x0, x1 - 1); }
  }

  predicate TotalsAre(t: Totals, src: seq<seq<Pixel>>, y0: nat, y1: nat, x0: nat, x1: nat)
    requires IsImage(src) && y0 <= y1 <= |src| && x0 <= x1 <= |src[0]|
  {
    && t.r == WindowSum(src, y0, y1, x0, x1, Red) && t.g == WindowSum(src, y0, y1, x0, x1, Green)
    && t.b == WindowSum(src, y0, y1, x0, x1, Blue) && t.a == WindowSum(src, y0, y1, x0, x1, Alpha)
    && t.count == (y1 - y0) * (x1 - x0)
  }

  lemma RowsMore(n: nat, w: nat)
    ensures (n + 1) * w == n * w + w
  {
  }

  /** Each channel's sum is that channel of the window's pixels, each once. */
  lemma {:induction false} WindowIsSummed(src: seq<seq<Pixel>>, y0: nat, y1: nat, x0: nat, x1: nat)
    requires IsImage(src) && y0 <= y1 <= |src| && x0 <= x1 <= |src[0]|
    ensures TotalsAre(RectTotals(src, y0, y1, x0, x1), src, y0, y1, x0, x1)
    decreases y1
  {
    if y0 < y1 {
      WindowIsSummed(src, y0, y1 - 1, x0, x1);
      RowIsSummed(src[y1 - 1], x0, x1);
      RowsMore(y1 - 1 - y0, x1 - x0);
    }
  }

  /** `n` pixels sum to this; `avg` is their average, the rest dropped. */
  predicate IsAverage(avg: int, sum: int, n: int) {
    n > 0 && avg * n <= sum < (avg + 1) * n
  }

  lemma AverageIs(sum: nat, n: nat, avg: nat)
    requires IsAverage(avg, sum, n)
    ensures avg == sum / n
  {
    RowsMore(avg, n);
    QuotientIs(sum, avg, n);
  }

  /** Where a cell's window lies: from here up to but without there. */
  predicate IsWindow(src: seq<seq<Pixel>>, nw: nat, nh: nat, y: nat, x: nat, y0: nat, y1: nat, x0: nat, x1: nat)
    requires IsImage(src) && nw > 0 && nh > 0
  {
    && y0 == y * |src| / nh && y1 == (y + 1) * |src| / nh
    && x0 == x * |src[0]| / nw && x1 == (x + 1) * |src[0]| / nw
  }

  /** Each channel of a cell comes from that channel and the alpha of its window, and from nothing else: 256
      times it is the average of the channel and what is missing to full opacity in white, less than one
      step of 256 dropped. */
  lemma ChannelShown(src: seq<seq<Pixel>>, nw: nat, nh: nat, y: nat, x: nat, c: Rgb, ch: Channel,
                     y0: nat, y1: nat, x0: nat, x1: nat, avg: nat, alpha: nat)
    requires IsImage(src) && 0 < nw <= |src[0]| && 0 < nh <= |src| && y < nh && x < nw && ch != Alpha
    requires IsCell(src, nw, nh, y, x, c) && IsWindow(src, nw, nh, y, x, y0, y1, x0, x1)
    requires y0 <= y1 <= |src| && x0 <= x1 <= |src[0]|
    requires IsAverage(avg, WindowSum(src, y0, y1, x0, x1, ch), (y1 - y0) * (x1 - x0))
    requires IsAverage(alpha, WindowSum(src, y0, y1, x0, x1, Alpha), (y1 - y0) * (x1 - x0))
    ensures 256 * Shown(c, ch) <= avg + (0xffff - alpha) < 256 * Shown(c, ch) + 256
    ensures 0 <= Shown(c, ch) <= 255
  {
    var t := CellTotals(src, nw, nh, y, x);
    assert t == RectTotals(src, y0, y1, x0, x1);
    WindowIsSummed(src, y0, y1, x0, x1);
    AverageIs(WindowSum(src, y0, y1, x0, x1, ch), t.count, avg);
    AverageIs(WindowSum(src, y0, y1, x0, x1, Alpha), t.count, alpha);
    ShownIs(t, ch);
  }

  function Sum(t: Totals, ch: Channel): nat {
    match ch
    case Red => t.r
    case Green => t.g
    case Blue => t.b
    case Alpha => t.a
  }

  lemma ShownIs(t: Totals, ch: Channel)
    requires Bounded(t) && t.count > 0 && ch != Alpha
    ensures var c := Shown(CellColor(t), ch);
            256 * c <= Sum(t, ch) / t.count + (0xffff - t.a / t.count) < 256 * c + 256 && 0 <= c <= 255
  {
    FlattenNeverOverflows(t, Sum(t, ch));
  }

  // ---------- windows of one colour ----------

  lemma {:induction false} UniformRow(row: seq<Pixel>, x0: nat, x1: nat, p: Pixel, ch: Channel)
    requires x0 <= x1 <= |row| && forall x | x0 <= x < x1 :: row[x] == p
    ensures RowSum(row, x0, x1, ch) == Value(p, ch) * (x1 - x0)
    decreases x1
  {
    if x0 < x1 {
      UniformRow(row, x0, x1 - 1, p, ch);
      RowsMore(x1 - 1 - x0, Value(p, ch));
    }
  }

  lemma {:induction false} UniformWindow(src: seq<seq<Pixel>>, y0: nat, y1: nat, x0: nat, x1: nat, p: Pixel, ch: Channel)
    requires IsImage(src) && y0 <= y1 <= |src| && x0 <= x1 <= |src[0]|
    requires forall y, x | y0 <= y < y1 && x0 <= x < x1 :: src[y][x] == p
    ensures WindowSum(src, y0, y1, x0, x1, ch) == Value(p, ch) * ((y1 - y0) * (x1 - x0))
    decreases y1
  {
    if y0 < y1 {
      UniformWindow(src, y0, y1 - 1, x0, x1, p, ch);
      UniformRow(src[y1 - 1], x0, x1, p, ch);
      Spread(Value(p, ch), y1 - 1 - y0, x1 - x0);
    }
  }

  lemma Spread(v: nat, n: nat, w: nat)
    ensures v * (n * w) + v * w == v * ((n + 1) * w)
  {
    RowsMore(n, w);
    assert v * (n * w + w) == v * (n * w) + v * w;
  }

  lemma UniformAverage(v: nat, n: nat)
    requires n > 0
    ensures IsAverage(v, v * n, n)
  {
    RowsMore(v, n);
  }

  lemma WindowOfCell(src: seq<seq<Pixel>>, nw: nat, nh: nat, y: nat, x: nat, y0: nat, y1: nat, x0: nat, x1: nat)
    requires IsImage(src) && 0 < nw <= |src[0]| && 0 < nh <= |src| && y < nh && x < nw
    requires IsWindow(src, nw, nh, y, x, y0, y1, x0, x1)
    ensures y0 < y1 <= |src| && x0 < x1 <= |src[0]| && (y1 - y0) * (x1 - x0) > 0
  {
    AxisWindow(y, |src|, nh, y0, y1);
    AxisWindow(x, |src[0]|, nw, x0, x1);
    NonEmpty(y1 - y0, x1 - x0);
  }

  lemma AxisWindow(k: nat, size: nat, n: nat, lo: nat, hi: nat)
    requires k < n <= size && lo == k * size / n && hi == (k + 1) * size / n
    ensures lo < hi <= size
  {
    WindowsNeedNoClamp(k, size, n);
  }

  lemma NonEmpty(a: nat, b: nat)
    requires a > 0 && b > 0
    ensures a * b > 0
  {
  }

  /** A window of one opaque colour shows that colour: red stays red. */
  lemma OpaqueColorStays(src: seq<seq<Pixel>>, nw: nat, nh: nat, y: nat, x: nat, c: Rgb, p: Pixel,
                         y0: nat, y1: nat, x0: nat, x1: nat)
    requires IsImage(src) && 0 < nw <= |src[0]| && 0 < nh <= |src| && y < nh && x < nw
    requires IsCell(src, nw, nh, y, x, c) && IsWindow(src, nw, nh, y, x, y0, y1, x0, x1)
    requires y1 <= |src| && x1 <= |src[0]| && p.a == 0xffff
    requires forall j, i | y0 <= j < y1 && x0 <= i < x1 :: src[j][i] == p
    ensures c == Rgb(p.r / 256, p.g / 256, p.b / 256)
  {
    WindowOfCell(src, nw, nh, y, x, y0, y1, x0, x1);
    OneChannelStays(src, nw, nh, y, x, c, p, Red, y0, y1, x0, x1);
    OneChannelStays(src, nw, nh, y, x, c, p, Green, y0, y1, x0, x1);
    OneChannelStays(src, nw, nh, y, x, c, p, Blue, y0, y1, x0, x1);
  }

  lemma OneChannelStays(src: seq<seq<Pixel>>, nw: nat, nh: nat, y: nat, x: nat, c: Rgb, p: Pixel, ch: Channel,
                        y0: nat, y1: nat, x0: nat, x1: nat)
    requires IsImage(src) && 0 < nw <= |src[0]| && 0 < nh <= |src| && y < nh && x < nw && ch != Alpha
    requires IsCell(src, nw, nh, y, x, c) && IsWindow(src, nw, nh, y, x, y0, y1, x0, x1)
    requires y0 <= y1 <= |src| && x0 <= x1 <= |src[0]| && (y1 - y0) * (x1 - x0) > 0
    requires forall j, i | y0 <= j < y1 && x0 <= i < x1 :: src[j][i] == p
    ensures Shown(c, ch) == (Value(p, ch) + (0xffff - p.a)) / 256
  {
    UniformWindow(src, y0, y1, x0, x1, p, ch);
    UniformWindow(src, y0, y1, x0, x1, p, Alpha);
    UniformAverage(Value(p, ch), (y1 - y0) * (x1 - x0));
    UniformAverage(p.a, (y1 - y0) * (x1 - x0));
    ChannelShown(src, nw, nh, y, x, c, ch, y0, y1, x0, x1, Value(p, ch), p.a);
  }

  /** And a transparent window shows white. */
  lemma TransparentIsWhite(src: seq<seq<Pixel>>, nw: nat, nh: nat, y: nat, x: nat, c: Rgb,
                           y0: nat, y1: nat, x0: nat, x1: nat)
    requires IsImage(src) && 0 < nw <= |src[0]| && 0 < nh <= |src| && y < nh && x < nw
    requires IsCell(src, nw, nh, y, x, c) && IsWindow(src, nw, nh, y, x, y0, y1, x0, x1)
    requires y1 <= |src| && x1 <= |src[0]|
    requires forall j, i | y0 <= j < y1 && x0 <= i < x1 :: src[j][i] == Pixel(0, 0, 0, 0)
    ensures c == Rgb(255, 255, 255)
  {
    WindowOfCell(src, nw, nh, y, x, y0, y1, x0, x1);
    OneChannelStays(src, nw, nh, y, x, c, Pixel(0, 0, 0, 0), Red, y0, y1, x0, x1);
    OneChannelStays(src, nw, nh, y, x, c, Pixel(0, 0, 0, 0), Green, y0, y1, x0, x1);
    OneChannelStays(src, nw, nh, y, x, c, Pixel(0, 0, 0, 0), Blue, y0, y1, x0, x1);
  }

  // ---------- the shape of the result ----------

  /** A larger image keeps its proportions: either side is within a whole pixel below, and a hair above, its
      share of the limit, unless the share is less than one pixel. `l` is the longer side of the source. */
  lemma SideIsItsShare(f: Floats, w: nat, h: nat, l: nat)
    requires w > 0 && h > 0 && Answers(f, w, h) && l == (if w >= h then w else h) && l > 480
    ensures var share := w as real * (480.0 / l as real);
            Side(f.pw) == 1 || share * 0.99999 - 1.0 < Side(f.pw) as real < share * 1.00001
    ensures var share := h as real * (480.0 / l as real);
            Side(f.ph) == 1 || share * 0.99999 - 1.0 < Side(f.ph) as real < share * 1.00001
  {
    var s := Least(f.sw, f.sh);
    if w >= h { ScaleIsNear(w, h, f.sw, f.sh, s); } else { ScaleIsNear(h, w, f.sh, f.sw, s); }
    ShareOf(w, l, s, f.pw);
    ShareOf(h, l, s, f.ph);
  }

  lemma ShareOf(z: nat, l: nat, s: real, p: real)
    requires 0 < z <= l && l > 480 && Rounds(s, Quotient(l)) && Rounds(p, Product(z, s))
    ensures var share := z as real * (480.0 / l as real);
            Side(p) == 1 || share * 0.99999 - 1.0 < Side(p) as real < share * 1.00001
  {
    var m, e := TimesWithin(z, l, s);
    ShareOfLimit(z, l, e);
    TwoRoundings(e, m, p);
  }
}
