/** Moving and resizing marked-up shapes, in exact arithmetic over normalised coordinates. */
module MarkupGeometry {

  datatype Point = Point(x: real, y: real)
  datatype Box = Box(x0: real, y0: real, x1: real, y1: real)

  /** Which edge of an axis a handle drags: the low one, none, or the high one. */
  datatype Side = Low | Mid | High
  datatype Handle = Handle(h: Side, v: Side)

  const MIN_FONT := 0.004

  function Abs(r: real): real { if r < 0.0 then -r else r }

  function Max(a: real, b: real): real { if a < b then b else a }

  /** Math.sign(s || 1) */
  function SignOrOne(s: real): real { if s < 0.0 then -1.0 else 1.0 }

  // ---------- one axis ----------

  /** The edges of an axis after the handle's edge has gone to the pointer. */
  function NewLow(lo: real, side: Side, p: real): real { if side == Low then p else lo }
  function NewHigh(hi: real, side: Side, p: real): real { if side == High then p else hi }

  /** A collapsed axis is carried through unscaled. */
  function RawScale(lo: real, hi: real, side: Side, p: real): real {
    if hi != lo then (NewHigh(hi, side, p) - NewLow(lo, side, p)) / (hi - lo) else 1.0
  }

  /** Where coordinate `q` goes when the edge opposite the handle is the anchor. The anchored edge
      is read off the new box, the reference edge off the old one. */
  function Place(lo: real, hi: real, side: Side, p: real, scale: real, q: real): real {
    var anchor := if side == Low then NewHigh(hi, side, p) else NewLow(lo, side, p);
    var base := if side == Low then hi else lo;
    anchor + (q - base) * scale
  }

  // ---------- both axes ----------

  predicate IsCorner(k: Handle) { k.h != Mid && k.v != Mid }

  /** The scale factors of a drag: with Shift on a corner both take the larger magnitude. */
  function Scales(b: Box, k: Handle, shift: bool, p: Point): (real, real) {
    var sx := RawScale(b.x0, b.x1, k.h, p.x);
    var sy := RawScale(b.y0, b.y1, k.v, p.y);
    if shift && IsCorner(k) then
      var m := Max(Abs(sx), Abs(sy));
      (SignOrOne(sx) * m, SignOrOne(sy) * m)
    else (sx, sy)
  }

  function ResizePoint(b: Box, k: Handle, shift: bool, p: Point, q: Point): Point {
    var (sx, sy) := Scales(b, k, shift, p);
    Point(Place(b.x0, b.x1, k.h, p.x, sx, q.x), Place(b.y0, b.y1, k.v, p.y, sy, q.y))
  }

  /** Text grows through its font; a scale of zero leaves the font alone. */
  function ScaledFont(scale: real, fs: real): real {
    Max(MIN_FONT, fs * (if scale == 0.0 then 1.0 else Abs(scale)))
  }

  function ResizeFont(b: Box, k: Handle, shift: bool, p: Point, fs: real): real {
    ScaledFont(Scales(b, k, shift, p).0, fs)
  }

  function MovePoint(from: Point, to: Point, q: Point): Point {
    Point(q.x + (to.x - from.x), q.y + (to.y - from.y))
  }

  // ---------- laws ----------

  /** The point that was grabbed stays under the pointer. */
  lemma GrabbedPointFollows(from: Point, to: Point)
    ensures MovePoint(from, to, from) == to
  {
  }

  /** A move keeps the distance of any two points, on either axis. */
  lemma MoveIsRigid(from: Point, to: Point, q: Point, r: Point)
    ensures var (a, b) := (MovePoint(from, to, q), MovePoint(from, to, r));
            a.x - b.x == q.x - r.x && a.y - b.y == q.y - r.y
  {
  }

  /** Moves in a row are one move from the first place to the last, and moving back restores. */
  lemma MovesCompose(a: Point, b: Point, c: Point, q: Point)
    ensures MovePoint(b, c, MovePoint(a, b, q)) == MovePoint(a, c, q)
    ensures MovePoint(b, a, MovePoint(a, b, q)) == q
  {
  }

  lemma AnchorStays(lo: real, hi: real, side: Side, p: real, scale: real)
    ensures Place(lo, hi, side, p, scale, if side == Low then hi else lo) == if side == Low then hi else lo
  {
  }

  lemma SelfQuotient(d: real)
    requires d != 0.0
    ensures d / d == 1.0
  {
    var q := d / d;
    assert (q - 1.0) * d == 0.0;
  }

  lemma MidIsIdle(lo: real, hi: real, p: real, q: real)
    ensures RawScale(lo, hi, Mid, p) == 1.0 && Place(lo, hi, Mid, p, 1.0, q) == q
  {
    if hi != lo { SelfQuotient(hi - lo); }
  }

  /** The edge opposite the handle, on either axis, never moves; an axis the handle does not drag is
      left exactly as it is. */
  lemma ResizeFixesOppositeEdge(b: Box, k: Handle, shift: bool, p: Point, q: Point)
    ensures var r := ResizePoint(b, k, shift, p, q);
            && (k.h == Low && q.x == b.x1 ==> r.x == b.x1) && (k.h == High && q.x == b.x0 ==> r.x == b.x0)
            && (k.v == Low && q.y == b.y1 ==> r.y == b.y1) && (k.v == High && q.y == b.y0 ==> r.y == b.y0)
            && (k.h == Mid ==> r.x == q.x) && (k.v == Mid ==> r.y == q.y)
  {
    var (sx, sy) := Scales(b, k, shift, p);
    AnchorStays(b.x0, b.x1, k.h, p.x, sx);
    AnchorStays(b.y0, b.y1, k.v, p.y, sy);
    if k.h == Mid { MidIsIdle(b.x0, b.x1, p.x, q.x); }
    if k.v == Mid { MidIsIdle(b.y0, b.y1, p.y, q.y); }
  }

  lemma DraggedEdgeOnAxis(lo: real, hi: real, side: Side, p: real)
    requires lo != hi && side != Mid
    ensures Place(lo, hi, side, p, RawScale(lo, hi, side, p), if side == Low then lo else hi) == p
  {
    var d := hi - lo;
    var n := NewHigh(hi, side, p) - NewLow(lo, side, p);
    assert d * (n / d) == n;
    if side == Low {
      assert (lo - hi) * (n / d) == -(d * (n / d));
    }
  }

  /** Without the Shift constraint the dragged edge lands on the pointer. */
  lemma DraggedEdgeFollowsPointer(b: Box, k: Handle, shift: bool, p: Point, q: Point)
    requires !(shift && IsCorner(k))
    ensures var r := ResizePoint(b, k, shift, p, q);
            && (k.h != Mid && b.x0 != b.x1 && q.x == (if k.h == Low then b.x0 else b.x1) ==> r.x == p.x)
            && (k.v != Mid && b.y0 != b.y1 && q.y == (if k.v == Low then b.y0 else b.y1) ==> r.y == p.y)
  {
    if k.h != Mid && b.x0 != b.x1 { DraggedEdgeOnAxis(b.x0, b.x1, k.h, p.x); }
    if k.v != Mid && b.y0 != b.y1 { DraggedEdgeOnAxis(b.y0, b.y1, k.v, p.y); }
  }

  /** With Shift on a corner both axes scale by the same magnitude, keeping their signs, and the axis
      the pointer pushed further still lands on the pointer. */
  lemma ShiftKeepsProportion(b: Box, k: Handle, p: Point)
    requires IsCorner(k)
    ensures var (sx, sy) := Scales(b, k, true, p);
            var rx := RawScale(b.x0, b.x1, k.h, p.x); var ry := RawScale(b.y0, b.y1, k.v, p.y);
            && Abs(sx) == Abs(sy) == Max(Abs(rx), Abs(ry))
            && (Abs(rx) >= Abs(ry) ==> sx == rx) && (Abs(ry) >= Abs(rx) ==> sy == ry)
            && sx * rx >= 0.0 && sy * ry >= 0.0
  {
    var rx := RawScale(b.x0, b.x1, k.h, p.x);
    var ry := RawScale(b.y0, b.y1, k.v, p.y);
    var m := Max(Abs(rx), Abs(ry));
    assert m >= 0.0;
    SignTimes(rx, m);
    SignTimes(ry, m);
  }

  lemma SignTimes(r: real, m: real)
    requires m >= 0.0
    ensures Abs(SignOrOne(r) * m) == m && (Abs(r) == m ==> SignOrOne(r) * m == r) && SignOrOne(r) * m * r >= 0.0
  {
    if r >= 0.0 { assert m * r >= 0.0; } else { assert m * (-r) >= 0.0; }
  }

  /** A collapsed axis stays where it is, whatever the handle and with or without Shift. */
  lemma CollapsedAxisIsCarried(b: Box, k: Handle, shift: bool, p: Point, q: Point)
    ensures var r := ResizePoint(b, k, shift, p, q);
            && (b.x0 == b.x1 == q.x ==> r.x == q.x) && (b.y0 == b.y1 == q.y ==> r.y == q.y)
  {
  }

  /** The stand-in scale of a collapsed axis takes part in the Shift constraint: a horizontal or
      vertical line can be stretched by a corner with Shift held, but never shortened. */
  lemma ShiftNeverShortensALine(b: Box, k: Handle, p: Point)
    requires IsCorner(k) && (b.x0 == b.x1 || b.y0 == b.y1)
    ensures Abs(Scales(b, k, true, p).0) >= 1.0 && Abs(Scales(b, k, true, p).1) >= 1.0
  {
    ShiftKeepsProportion(b, k, p);
  }

  lemma SpanScales(lo: real, hi: real, side: Side, p: real, scale: real, q: real, r: real)
    ensures Place(lo, hi, side, p, scale, r) - Place(lo, hi, side, p, scale, q) == (r - q) * scale
  {
  }

  lemma AbsOfProduct(a: real, s: real)
    requires a > 0.0
    ensures Abs(a * s) == a * Abs(s) && (a * Abs(s) == 0.0 <==> s == 0.0)
  {
    if s != 0.0 { assert a * Abs(s) > 0.0; }
  }

  /** The font grows as the box does across: whatever the scale, it keeps its proportion to the width,
      unless the width collapses (then it stays) or it would fall below the minimum (then it stops). */
  lemma FontFollowsWidth(lo: real, hi: real, side: Side, p: real, scale: real, fs: real)
    requires lo < hi && fs >= MIN_FONT
    ensures var width := Abs(Place(lo, hi, side, p, scale, hi) - Place(lo, hi, side, p, scale, lo));
            var font := ScaledFont(scale, fs);
            && font >= MIN_FONT
            && (width == 0.0 ==> font == fs)
            && (width > 0.0 && font > MIN_FONT ==> font * (hi - lo) == fs * width)
  {
    SpanScales(lo, hi, side, p, scale, lo, hi);
    AbsOfProduct(hi - lo, scale);
    assert fs * Abs(scale) * (hi - lo) == fs * ((hi - lo) * Abs(scale));
  }

  /** Where the handle started. */
  function HandleAt(b: Box, k: Handle): Point {
    Point(if k.h == Low then b.x0 else b.x1, if k.v == Low then b.y0 else b.y1)
  }

  lemma BackOnAxis(lo: real, hi: real, side: Side, p: real, q: real)
    requires side == Low ==> p == lo
    requires side == High ==> p == hi
    ensures RawScale(lo, hi, side, p) == 1.0 && Place(lo, hi, side, p, 1.0, q) == q
  {
    if hi != lo { SelfQuotient(hi - lo); }
  }

  /** Dragging a handle back to where it started restores every point, with or without Shift, and
      every font that is not below the minimum. */
  lemma DragBackRestores(b: Box, k: Handle, shift: bool, p: Point, q: Point, fs: real)
    requires k.h != Mid ==> p.x == HandleAt(b, k).x
    requires k.v != Mid ==> p.y == HandleAt(b, k).y
    ensures ResizePoint(b, k, shift, p, q) == q
    ensures fs >= MIN_FONT ==> ResizeFont(b, k, shift, p, fs) == fs
  {
    BackOnAxis(b.x0, b.x1, k.h, p.x, q.x);
    BackOnAxis(b.y0, b.y1, k.v, p.y, q.y);
    assert Scales(b, k, shift, p) == (1.0, 1.0);
  }
}
