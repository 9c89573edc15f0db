/** What the gestures do to the shapes themselves: which ones they touch, what becomes of each point, and
    what stays. */
module MarkupEffects {
  import opened Basics
  import opened MarkupGeometry
  import opened MarkupHistory
  import opened MarkupEditor

  /** The same shape but for its points, as many as before. */
  predicate SameButPoints(a: ShapeVal, b: ShapeVal) {
    a.(p := []) == b.(p := []) && |a.p| == |b.p|
  }

  // ---------- moving ----------

  /** `t` is `s` moved as a whole by this much. */
  predicate Shifted(s: ShapeVal, t: ShapeVal, dx: real, dy: real) {
    SameButPoints(s, t) && forall k | 0 <= k < |s.p| :: t.p[k].x == s.p[k].x + dx && t.p[k].y == s.p[k].y + dy
  }

  /** A moved shape keeps its form, and the point that was grabbed is under the pointer. */
  lemma MovedShapeIsRigid(s: ShapeVal, from: Point, to: Point)
    ensures var t := MoveShape(s, from, to);
            && SameButPoints(s, t)
            && (forall i, j | 0 <= i < |s.p| && 0 <= j < |s.p| ::
                  t.p[i].x - t.p[j].x == s.p[i].x - s.p[j].x && t.p[i].y - t.p[j].y == s.p[i].y - s.p[j].y)
            && (forall i | 0 <= i < |s.p| && s.p[i] == from :: t.p[i] == to)
            && Shifted(s, t, to.x - from.x, to.y - from.y)
  {
    var t := MoveShape(s, from, to);
    GrabbedPointFollows(from, to);
    forall i | 0 <= i < |s.p| ensures t.p[i].x - to.x == s.p[i].x - from.x && t.p[i].y - to.y == s.p[i].y - from.y {
      MoveIsRigid(from, to, s.p[i], from);
    }
  }

  /** Each shape of `t` is the one of `s` in its place, moved as a whole when selected and untouched
      otherwise. */
  ghost predicate SelectionShifted(s: Scene, t: Scene, sel: set<string>, dx: real, dy: real) {
    |t| == |s| && forall i | 0 <= i < |s| :: if s[i].id in sel then Shifted(s[i], t[i], dx, dy) else t[i] == s[i]
  }

  /** A drag that moves takes exactly the selected shapes along with the pointer, Shift or not. */
  lemma DragFollowsPointer(scene: Scene, sel: set<string>, from: Point, to: Point, shift: bool)
    ensures SelectionShifted(scene, DragScene(scene, sel, Move(from), shift, to), sel, to.x - from.x, to.y - from.y)
  {
    forall i | 0 <= i < |scene| && scene[i].id in sel
      ensures Shifted(scene[i], MoveShape(scene[i], from, to), to.x - from.x, to.y - from.y)
    {
      MovedShapeIsRigid(scene[i], from, to);
    }
  }

  /** An arrow key shifts exactly the selected shapes, by the key's offset. */
  lemma NudgeShifts(scene: Scene, sel: set<string>, offset: Point)
    ensures SelectionShifted(scene, DragScene(scene, sel, Move(Point(0.0, 0.0)), false, offset), sel, offset.x, offset.y)
  {
    DragFollowsPointer(scene, sel, Point(0.0, 0.0), offset, false);
  }

  lemma MoveShapeAgain(s: ShapeVal, a: Point, b: Point, c: Point)
    ensures MoveShape(MoveShape(s, a, b), b, c) == MoveShape(s, a, c) && MoveShape(MoveShape(s, a, b), b, a) == s
  {
    var t := MoveShape(s, a, b);
    forall k | 0 <= k < |s.p|
      ensures MoveShape(t, b, c).p[k] == MoveShape(s, a, c).p[k] && MoveShape(t, b, a).p[k] == s.p[k]
    {
      MovesCompose(a, b, c, s.p[k]);
    }
    assert MoveShape(t, b, c).p == MoveShape(s, a, c).p && MoveShape(t, b, a).p == s.p;
  }

  /** Two drags in a row are one, and dragging back to where it began restores the scene. */
  lemma DragsCompose(scene: Scene, sel: set<string>, a: Point, b: Point, c: Point, shift: bool)
    ensures var t := DragScene(scene, sel, Move(a), shift, b);
            && DragScene(t, sel, Move(b), shift, c) == DragScene(scene, sel, Move(a), shift, c)
            && DragScene(t, sel, Move(b), shift, a) == scene
  {
    var t := DragScene(scene, sel, Move(a), shift, b);
    forall i | 0 <= i < |scene|
      ensures DragScene(t, sel, Move(b), shift, c)[i] == DragScene(scene, sel, Move(a), shift, c)[i]
      ensures DragScene(t, sel, Move(b), shift, a)[i] == scene[i]
    {
      MoveShapeAgain(scene[i], a, b, c);
      assert MoveShape(scene[i], a, b).id == scene[i].id;
    }
  }

  // ---------- resizing ----------

  /** A resize touches the points of the selected shapes, the size of their text, and nothing else. */
  lemma ResizeTouches(scene: Scene, sel: set<string>, b: Box, k: Handle, shift: bool, to: Point, i: nat)
    requires i < |scene|
    ensures var t := DragScene(scene, sel, Resize(b, k), shift, to);
            && |t| == |scene| && (scene[i].id !in sel ==> t[i] == scene[i])
            && SameButPoints(t[i].(fs := 0.0), scene[i].(fs := 0.0))
            && (scene[i].kind != "text" ==> t[i].fs == scene[i].fs)
  {
  }

  /** Letting a handle go where it was taken restores the scene, with or without Shift, as far as no text is
      below the smallest size. */
  lemma ResizeBackRestores(scene: Scene, sel: set<string>, b: Box, k: Handle, shift: bool)
    requires forall i | 0 <= i < |scene| && scene[i].kind == "text" :: scene[i].fs == 0.0 || scene[i].fs >= 0.004
    ensures DragScene(scene, sel, Resize(b, k), shift, HandleAt(b, k)) == scene
  {
    forall i | 0 <= i < |scene| ensures DragScene(scene, sel, Resize(b, k), shift, HandleAt(b, k))[i] == scene[i] {
      ResizeShapeBack(scene[i], b, k, shift);
    }
  }

  lemma ResizeShapeBack(s: ShapeVal, b: Box, k: Handle, shift: bool)
    requires s.kind == "text" ==> s.fs == 0.0 || s.fs >= 0.004
    ensures ResizeShape(s, b, k, shift, HandleAt(b, k)) == s
  {
    var t := ResizeShape(s, b, k, shift, HandleAt(b, k));
    forall j | 0 <= j < |s.p| ensures t.p[j] == s.p[j] {
      DragBackRestores(b, k, shift, HandleAt(b, k), s.p[j], s.fs);
    }
    assert t.p == s.p;
    DragBackRestores(b, k, shift, HandleAt(b, k), Point(0.0, 0.0), s.fs);
  }

  /** The side opposite the handle stays where it is, shape by shape, and an axis not dragged is left alone. */
  lemma ResizedSceneIsAnchored(scene: Scene, sel: set<string>, b: Box, k: Handle, shift: bool, to: Point, i: nat, j: nat)
    requires i < |scene| && scene[i].id in sel && j < |scene[i].p|
    ensures var (q, r) := (scene[i].p[j], DragScene(scene, sel, Resize(b, k), shift, to)[i].p[j]);
            && (k.h == Low && q.x == b.x1 ==> r.x == b.x1) && (k.h == High && q.x == b.x0 ==> r.x == b.x0)
            && (k.v == Low && q.y == b.y1 ==> r.y == b.y1) && (k.v == High && q.y == b.y0 ==> r.y == b.y0)
            && (k.h == Mid ==> r.x == q.x) && (k.v == Mid ==> r.y == q.y)
  {
    ResizeFixesOppositeEdge(b, k, shift, to, scene[i].p[j]);
  }

  /** `d` before and `w` after are the distances across of two points, `fs` and `font` the sizes of a text. */
  predicate InProportion(d: real, w: real, fs: real, font: real) {
    && (w == 0.0 ==> font == if fs < 0.004 then 0.004 else fs)
    && (w > 0.0 ==> font >= 0.004 && font * d >= fs * w && (font == 0.004 || font * d == fs * w))
  }

  lemma FontScales(scale: real, fs: real, d: real, w: real)
    requires d > 0.0 && w >= 0.0 && (w == d * scale || w == -(d * scale))
    ensures InProportion(d, w, fs, ScaledFont(scale, fs))
  {
    AbsOfProduct(d, scale);
    var a := Abs(scale);
    assert w == d * a;
    assert fs * a * d == fs * w;
    if scale != 0.0 && ScaledFont(scale, fs) > fs * a {
      assert ScaledFont(scale, fs) * d >= fs * a * d;
    }
  }

  /** The same, from where two points are to be. */
  lemma SpreadFont(scale: real, fs: real, d: real, y0: real, y1: real, font: real) returns (w: real)
    requires d > 0.0 && y1 - y0 == d * scale && font == ScaledFont(scale, fs)
    ensures w >= 0.0 && (w == y1 - y0 || w == y0 - y1)
    ensures InProportion(d, w, fs, font)
  {
    w := if y1 >= y0 then y1 - y0 else y0 - y1;
    FontScales(scale, fs, d, w);
  }

  lemma LabelFont(s: ShapeVal, b: Box, k: Handle, shift: bool, to: Point, scale: real) returns (font: real)
    requires s.kind == "text" && s.fs != 0.0 && scale == Scales(b, k, shift, to).0
    ensures font == ResizeShape(s, b, k, shift, to).fs == ScaledFont(scale, s.fs)
  {
    font := ScaledFont(scale, s.fs);
  }

  lemma PointAcross(s: ShapeVal, b: Box, k: Handle, shift: bool, to: Point, j: nat, scale: real)
    requires j < |s.p| && scale == Scales(b, k, shift, to).0
    ensures |ResizeShape(s, b, k, shift, to).p| == |s.p|
    ensures ResizeShape(s, b, k, shift, to).p[j].x == Place(b.x0, b.x1, k.h, to.x, scale, s.p[j].x)
  {
    assert ResizePoint(b, k, shift, to, s.p[j]).x == Place(b.x0, b.x1, k.h, to.x, scale, s.p[j].x);
  }

  lemma PointsSpread(s: ShapeVal, b: Box, k: Handle, shift: bool, to: Point, j: nat, l: nat)
    returns (scale: real, d: real, y0: real, y1: real)
    requires j < |s.p| && l < |s.p|
    ensures scale == Scales(b, k, shift, to).0
    ensures var p := ResizeShape(s, b, k, shift, to).p; |p| == |s.p| && y0 == p[j].x && y1 == p[l].x
    ensures d == s.p[l].x - s.p[j].x && y1 - y0 == d * scale
  {
    scale := Scales(b, k, shift, to).0;
    PointAcross(s, b, k, shift, to, j, scale);
    PointAcross(s, b, k, shift, to, l, scale);
    SpanScales(b.x0, b.x1, k.h, to.x, scale, s.p[j].x, s.p[l].x);
    y0 := Place(b.x0, b.x1, k.h, to.x, scale, s.p[j].x);
    y1 := Place(b.x0, b.x1, k.h, to.x, scale, s.p[l].x);
    d := s.p[l].x - s.p[j].x;
  }

  /** A label grows across with everything else: its font changes in the proportion in which any two points of
      the selection come to lie apart, mirrored or not, but not below the smallest size; when they come to lie
      on one vertical line it stays. `d` and `w` are their distances across before and after. */
  lemma TextGrowsAcross(text: ShapeVal, other: ShapeVal, b: Box, k: Handle, shift: bool, to: Point, j: nat, l: nat)
    returns (d: real, w: real, font: real)
    requires text.kind == "text" && text.fs != 0.0
    requires l < |other.p| && j < |other.p| && other.p[l].x > other.p[j].x
    ensures d == other.p[l].x - other.p[j].x && font == ResizeShape(text, b, k, shift, to).fs
    ensures var p := ResizeShape(other, b, k, shift, to).p;
            |p| == |other.p| && w >= 0.0 && (w == p[l].x - p[j].x || w == p[j].x - p[l].x)
    ensures InProportion(d, w, text.fs, font)
  {
    var scale, y0, y1;
    scale, d, y0, y1 := PointsSpread(other, b, k, shift, to, j, l);
    font := LabelFont(text, b, k, shift, to, scale);
    w := SpreadFont(scale, text.fs, d, y0, y1, font);
  }

  // ---------- copying, erasing, relabelling, drawing ----------

  /** Each copy is its original a little to the right and down, under its own new id. */
  lemma CopiesAreShifted(shapes: Scene, ids: seq<string>, i: nat)
    requires |ids| == |shapes| && i < |shapes|
    ensures var c := Copies(shapes, ids);
            |c| == |shapes| && c[i].id == ids[i] && Shifted(shapes[i], c[i].(id := shapes[i].id), 0.02, 0.02)
  {
    MovedShapeIsRigid(shapes[i], Point(0.0, 0.0), Point(0.02, 0.02));
  }

  /** The shapes of `kept`, in this order, are the ones of `scene` whose ids are in or out of `ids`; `at`
      says where each of them was. */
  ghost predicate Picks(scene: Scene, kept: Scene, ids: set<string>, within: bool, at: seq<int>) {
    && |at| == |kept|
    && (forall k | 0 <= k < |at| :: 0 <= at[k] < |scene| && kept[k] == scene[at[k]] && (kept[k].id in ids <==> within))
    && (forall j, k | 0 <= j < k < |at| :: at[j] < at[k])
    && (forall i | 0 <= i < |scene| && (scene[i].id in ids <==> within) :: i in at)
  }

  lemma PicksOneMore(front: Scene, x: ShapeVal, kept: Scene, ids: set<string>, within: bool, at: seq<int>)
    requires Picks(front, kept, ids, within, at)
    ensures if x.id in ids <==> within
            then Picks(front + [x], kept + [x], ids, within, at + [|front|])
            else Picks(front + [x], kept, ids, within, at)
  {
    var scene, more := front + [x], at + [|front|];
    forall i | 0 <= i < |scene| && (scene[i].id in ids <==> within) ensures i in more {
      if i < |front| {
        assert i in at;
      } else {
        assert more[|at|] == i;
      }
    }
    if !(x.id in ids <==> within) {
      forall i | 0 <= i < |scene| && (scene[i].id in ids <==> within) ensures i in at {
        assert scene[i] == if i < |front| then front[i] else x;
      }
    }
  }

  /** Erasing takes exactly the shapes named; the others keep their order. */
  lemma {:induction false} KeepPicks(scene: Scene, gone: set<string>) returns (at: seq<int>)
    ensures Picks(scene, Keep(scene, gone), gone, false, at)
  {
    at := [];
    if scene != [] {
      var front, x := scene[..|scene| - 1], scene[|scene| - 1];
      at := KeepPicks(front, gone);
      var kept := Keep(front, gone);
      PicksOneMore(front, x, kept, gone, false, at);
      assert scene == front + [x] && kept + [] == kept;
      if x.id !in gone { at := at + [|front|]; }
    }
  }

  /** What is copied is exactly the selection, in its order. */
  lemma {:induction false} SelectedPicks(scene: Scene, sel: set<string>) returns (at: seq<int>)
    ensures Picks(scene, Selected(scene, sel), sel, true, at)
  {
    at := [];
    if scene != [] {
      var front, x := scene[..|scene| - 1], scene[|scene| - 1];
      at := SelectedPicks(front, sel);
      var kept := Selected(front, sel);
      PicksOneMore(front, x, kept, sel, true, at);
      assert scene == front + [x] && kept + [] == kept;
      if x.id in sel { at := at + [|front|]; }
    }
  }

  /** A new text for one label changes that text and nothing else. */
  lemma RetextChanges(scene: Scene, id: string, txt: string, i: nat)
    requires i < |scene|
    ensures var t := Retexted(scene, id, txt);
            && |t| == |scene| && (scene[i].id != id ==> t[i] == scene[i])
            && (scene[i].id == id ==> t[i].txt == txt && t[i].(txt := "") == scene[i].(txt := ""))
  {
  }

  lemma ProductSign(x: real, y: real)
    requires y > 0.0
    ensures x * y > 0.0 <==> x > 0.0
  {
  }

  lemma SquaresOrder(d: real, e: real)
    requires 0.0 <= d && 0.0 < e
    ensures d * d < e * e <==> d < e
  {
    assert e * e - d * d == (e - d) * (e + d);
    ProductSign(e - d, e + d);
  }

  /** Nothing is drawn exactly by a click, or by a stroke of less than 0.004, with a tool other than the pen
      and the highlighter. `d` is the distance of the stroke's ends. */
  lemma DegenerateIff(v: ShapeVal, d: real)
    requires d >= 0.0
    requires |v.p| >= 2 ==> var (dx, dy) := (v.p[1].x - v.p[0].x, v.p[1].y - v.p[0].y); d * d == dx * dx + dy * dy
    ensures Degenerate(v) <==> v.kind !in {"pen", "hl"} && (|v.p| < 2 || d < 0.004)
  {
    SquaresOrder(d, 0.004);
  }
}
