/** The markup editor over mutable shapes. The scene is edited in place; the undo and redo stacks hold
    deep copies, so an in-place edit can never rewrite them. Every gesture is proved against the
    values in `MarkupHistory`. */
module MarkupEditor {
  import opened Basics
  import opened MarkupGeometry
  import opened MarkupHistory

  class Shape {
    const id: string
    const kind: string
    const look: string
    var p: seq<Point>
    var fs: real
    var txt: string

    constructor (v: ShapeVal)
      ensures Val() == v
    {
      id, kind, look := v.id, v.kind, v.look;
      p, fs, txt := v.p, v.fs, v.txt;
    }

    function Val(): ShapeVal
      reads this
    {
      ShapeVal(id, kind, look, p, fs, txt)
    }
  }

  // ---------- the values of a list of shapes ----------

  ghost function Own(f: seq<Shape>): set<Shape> {
    set s | s in f
  }

  ghost function Held(fs: seq<seq<Shape>>): set<Shape> {
    set i, k | 0 <= i < |fs| && 0 <= k < |fs[i]| :: fs[i][k]
  }

  ghost function Vals(f: seq<Shape>): (r: Scene)
    reads f
    ensures |r| == |f| && forall i | 0 <= i < |f| :: r[i] == f[i].Val()
  {
    seq(|f|, i requires 0 <= i < |f| reads f => f[i].Val())
  }

  ghost function Stack(fs: seq<seq<Shape>>): (r: seq<Scene>)
    reads Held(fs)
    ensures |r| == |fs| && forall i | 0 <= i < |fs| :: r[i] == Vals(fs[i])
  {
    seq(|fs|, i requires 0 <= i < |fs| reads Held(fs) => Vals(fs[i]))
  }

  /** No two entries share a shape object. */
  ghost predicate Apart(fs: seq<seq<Shape>>) {
    forall i, j | 0 <= i < j < |fs| :: Own(fs[i]) !! Own(fs[j])
  }

  ghost predicate IdsDistinct(f: seq<Shape>) {
    forall i, j | 0 <= i < j < |f| :: f[i].id != f[j].id
  }

  ghost predicate AllIdsDistinct(fs: seq<seq<Shape>>) {
    forall i | 0 <= i < |fs| :: IdsDistinct(fs[i])
  }

  lemma HeldOf(fs: seq<seq<Shape>>, i: nat)
    requires i < |fs|
    ensures Own(fs[i]) <= Held(fs)
  {
    forall s | s in Own(fs[i]) ensures s in Held(fs) {
      var k :| 0 <= k < |fs[i]| && fs[i][k] == s;
    }
  }

  lemma Push(fs: seq<seq<Shape>>, f: seq<Shape>)
    requires Apart(fs) && Own(f) !! Held(fs)
    ensures Held(fs + [f]) == Held(fs) + Own(f) && Stack(fs + [f]) == Stack(fs) + [Vals(f)] && Apart(fs + [f])
  {
    var gs := fs + [f];
    HeldOf(gs, |fs|);
    forall s | s in Held(gs) ensures s in Held(fs) + Own(f) {
      var i, k :| 0 <= i < |gs| && 0 <= k < |gs[i]| && gs[i][k] == s;
      if i < |fs| { assert fs[i][k] == s; }
    }
    forall s | s in Held(fs) ensures s in Held(gs) {
      var i, k :| 0 <= i < |fs| && 0 <= k < |fs[i]| && fs[i][k] == s;
      assert gs[i][k] == s;
    }
    forall i | 0 <= i < |fs| ensures Own(gs[i]) !! Own(f) { HeldOf(fs, i); }
  }

  /** A stretch of a stack is as sound as the stack. */
  lemma Slice(fs: seq<seq<Shape>>, lo: nat, hi: nat)
    requires lo <= hi <= |fs| && Apart(fs)
    ensures var gs := fs[lo..hi]; Held(gs) <= Held(fs) && Apart(gs) && Stack(gs) == Stack(fs)[lo..hi]
  {
    var gs := fs[lo..hi];
    forall s | s in Held(gs) ensures s in Held(fs) {
      var i, k :| 0 <= i < |gs| && 0 <= k < |gs[i]| && gs[i][k] == s;
      assert fs[lo + i][k] == s;
    }
  }

  /** The live scene and every stored snapshot are made of different shape objects, all in `repr`. */
  ghost predicate Separate(scene: seq<Shape>, history: seq<seq<Shape>>, redo: seq<seq<Shape>>, repr: set<Shape>) {
    && Apart(history) && Apart(redo) && Held(history) !! Held(redo)
    && Own(scene) !! Held(history) && Own(scene) !! Held(redo)
    && Own(scene) <= repr && Held(history) <= repr && Held(redo) <= repr
    && IdsDistinct(scene) && AllIdsDistinct(history) && AllIdsDistinct(redo)
  }

  function CappedStack(fs: seq<seq<Shape>>): seq<seq<Shape>> {
    if |fs| > HISTORY_MAX then fs[1..] else fs
  }

  lemma PushUncapped(scene: seq<Shape>, history: seq<seq<Shape>>, redo: seq<seq<Shape>>, repr: set<Shape>, c: seq<Shape>)
    requires Separate(scene, history, redo, repr) && Own(c) !! repr && IdsDistinct(c)
    ensures Separate(scene, history + [c], [], repr + Own(c)) && Stack(history + [c]) == Stack(history) + [Vals(c)]
  {
    Push(history, c);
  }

  lemma DropOldest(scene: seq<Shape>, h: seq<seq<Shape>>, repr: set<Shape>)
    requires Separate(scene, h, [], repr) && h != []
    ensures Separate(scene, h[1..], [], repr) && Stack(h[1..]) == Stack(h)[1..]
  {
    Slice(h, 1, |h|);
    assert h[1..] == h[1..|h|] && Stack(h)[1..] == Stack(h)[1..|h|];
  }

  lemma PushSeparate(scene: seq<Shape>, history: seq<seq<Shape>>, redo: seq<seq<Shape>>, repr: set<Shape>, c: seq<Shape>)
    requires Separate(scene, history, redo, repr) && Own(c) !! repr && IdsDistinct(c)
    ensures Separate(scene, CappedStack(history + [c]), [], repr + Own(c))
    ensures Stack(CappedStack(history + [c])) == Capped(Stack(history) + [Vals(c)])
  {
    PushUncapped(scene, history, redo, repr, c);
    DropOldest(scene, history + [c], repr + Own(c));
  }

  /** Popping one stack into the scene and pushing a copy of the scene on the other. */
  lemma SwapSeparate(scene: seq<Shape>, from: seq<seq<Shape>>, to: seq<seq<Shape>>, repr: set<Shape>, c: seq<Shape>)
    requires Separate(scene, from, to, repr) && from != [] && Own(c) !! repr && IdsDistinct(c)
    ensures Separate(from[|from| - 1], from[..|from| - 1], to + [c], repr + Own(c))
    ensures Stack(to + [c]) == Stack(to) + [Vals(c)]
    ensures Stack(from) == Stack(from[..|from| - 1]) + [Vals(from[|from| - 1])]
  {
    var last := |from| - 1;
    Push(to, c);
    Slice(from, 0, last);
    HeldOf(from, last);
    assert from[0..last] == from[..last];
    forall i | 0 <= i < last ensures Own(from[i]) !! Own(from[last]) {}
    forall s | s in Own(from[last]) ensures s !in Held(from[..last]) {
      forall i, k | 0 <= i < last && 0 <= k < |from[i]| ensures from[i][k] != s {
        assert from[i][k] in Own(from[i]);
      }
    }
  }

  /** The same the other way round. */
  lemma SwapBackSeparate(scene: seq<Shape>, to: seq<seq<Shape>>, from: seq<seq<Shape>>, repr: set<Shape>, c: seq<Shape>)
    requires Separate(scene, to, from, repr) && from != [] && Own(c) !! repr && IdsDistinct(c)
    ensures Separate(from[|from| - 1], to + [c], from[..|from| - 1], repr + Own(c))
    ensures Stack(to + [c]) == Stack(to) + [Vals(c)]
    ensures Stack(from) == Stack(from[..|from| - 1]) + [Vals(from[|from| - 1])]
  {
    SwapSeparate(scene, from, to, repr, c);
  }

  twostate predicate SameShape(s: Shape)
    reads s
  {
    s.p == old(s.p) && s.fs == old(s.fs) && s.txt == old(s.txt)
  }

  /** Values depend on the shapes alone. */
  twostate lemma Framed(fs: seq<seq<Shape>>)
    requires forall i, k | 0 <= i < |fs| && 0 <= k < |fs[i]| :: SameShape(fs[i][k])
    ensures Stack(fs) == old(Stack(fs))
  {
    forall i | 0 <= i < |fs| ensures Vals(fs[i]) == old(Vals(fs[i])) {}
  }

  lemma UndoValues(v: Scene, h: seq<Scene>, r: seq<Scene>, init: seq<Scene>, last: Scene)
    requires h == init + [last]
    ensures MarkupHistory.Undo(Editing(v, h, r)) == Editing(last, init, r + [v])
    ensures MarkupHistory.Redo(Editing(v, r, h)) == Editing(last, r + [v], init)
  {
    assert h[..|h| - 1] == init;
  }

  // ---------- the scenes gestures lead to ----------

  /** The shapes not named, in order. */
  function Keep(scene: Scene, gone: set<string>): Scene {
    if scene == [] then []
    else
      var last := scene[|scene| - 1];
      Keep(scene[..|scene| - 1], gone) + if last.id in gone then [] else [last]
  }

  function MapPoints(p: seq<Point>, f: Point -> Point): seq<Point> {
    seq(|p|, i requires 0 <= i < |p| => f(p[i]))
  }

  function MoveShape(s: ShapeVal, from: Point, to: Point): ShapeVal {
    s.(p := MapPoints(s.p, q => MovePoint(from, to, q)))
  }

  function ResizeShape(s: ShapeVal, b: Box, k: Handle, shift: bool, to: Point): ShapeVal {
    var points := MapPoints(s.p, q => ResizePoint(b, k, shift, to, q));
    if s.kind == "text" && s.fs != 0.0 then s.(p := points, fs := ResizeFont(b, k, shift, to, s.fs))
    else s.(p := points)
  }

  /** What a drag does: move from a starting point, or pull a handle of the selection box. */
  datatype Drag = Move(from: Point) | Resize(box: Box, handle: Handle)

  function DragShape(s: ShapeVal, d: Drag, shift: bool, to: Point): ShapeVal {
    match d
    case Move(from) => MoveShape(s, from, to)
    case Resize(b, k) => ResizeShape(s, b, k, shift, to)
  }

  /** Selected shapes follow the drag, the others stay. */
  function DragScene(scene: Scene, sel: set<string>, d: Drag, shift: bool, to: Point): Scene {
    seq(|scene|, i requires 0 <= i < |scene| =>
      if scene[i].id in sel then DragShape(scene[i], d, shift, to) else scene[i])
  }

  function Selected(scene: Scene, sel: set<string>): Scene {
    if scene == [] then []
    else
      var last := scene[|scene| - 1];
      Selected(scene[..|scene| - 1], sel) + if last.id in sel then [last] else []
  }

  /** Copies under new ids, a little to the lower right. */
  function Copies(shapes: Scene, ids: seq<string>): Scene
    requires |ids| == |shapes|
  {
    seq(|shapes|, i requires 0 <= i < |shapes| =>
      MoveShape(shapes[i], Point(0.0, 0.0), Point(0.02, 0.02)).(id := ids[i]))
  }

  function Retexted(scene: Scene, id: string, txt: string): Scene {
    seq(|scene|, i requires 0 <= i < |scene| => if scene[i].id == id then scene[i].(txt := txt) else scene[i])
  }

  /** A click with no drag leaves nothing, except a dot from the pen or the highlighter. */
  predicate Degenerate(v: ShapeVal) {
    v.kind != "pen" && v.kind != "hl" &&
    (|v.p| < 2 || (v.p[1].x - v.p[0].x) * (v.p[1].x - v.p[0].x)
                  + (v.p[1].y - v.p[0].y) * (v.p[1].y - v.p[0].y) < 0.004 * 0.004)
  }

  // ---------- the editor ----------

  /** A shape's geometry as it was when the drag began. */
  datatype Orig = Orig(id: string, p: seq<Point>, fs: real)

  function OrigOf(v: ShapeVal): Orig {
    Orig(v.id, v.p, v.fs)
  }

  predicate CameFrom(o: Orig, start: Scene, sel: set<string>, i: int) {
    0 <= i < |start| && o == OrigOf(start[i]) && start[i].id in sel
  }

  ghost predicate Recalled(o: Orig, start: Scene, sel: set<string>) {
    exists i :: CameFrom(o, start, sel, i)
  }

  /** `orig` remembers exactly the selected shapes of `start`. */
  ghost predicate Remembers(orig: seq<Orig>, start: Scene, sel: set<string>) {
    && (forall k | 0 <= k < |orig| :: Recalled(orig[k], start, sel))
    && (forall i | 0 <= i < |start| && start[i].id in sel :: OrigOf(start[i]) in orig)
  }

  /** In the middle of a drag a shape differs from what it was in the dragged geometry only. */
  predicate Loosely(now: ShapeVal, was: ShapeVal, sel: set<string>, d: Drag) {
    && now.id == was.id && now.kind == was.kind && now.look == was.look && now.txt == was.txt
    && (was.id !in sel ==> now == was)
    && (d.Move? || was.kind != "text" || was.fs == 0.0 ==> now.fs == was.fs)
  }

  /** A drag in progress. */
  datatype Dragging = Dragging(drag: Drag, orig: seq<Orig>)

  class Editor {
    var scene: seq<Shape>
    var history: seq<seq<Shape>>
    var redo: seq<seq<Shape>>
    var selected: set<string>
    var dragging: Option<Dragging>
    ghost var repr: set<Shape>  // every shape in use, live or stored

    ghost function View(): Editing
      reads `scene, `history, `redo, scene, Held(history), Held(redo)
    {
      Editing(Vals(scene), Stack(history), Stack(redo))
    }

    ghost predicate Valid()
      reads `scene, `history, `redo, `repr
    {
      Separate(scene, history, redo, repr) && |history| + |redo| <= HISTORY_MAX
    }

    constructor ()
      ensures Valid() && View() == Editing([], [], [])
    {
      scene, history, redo, selected, repr := [], [], [], {}, {};
      dragging := None;
    }

    /** A deep copy of the scene. */
    method Clone() returns (c: seq<Shape>)
      requires IdsDistinct(scene)
      ensures forall s | s in c :: fresh(s)
      ensures Vals(c) == Vals(scene) && IdsDistinct(c)
      ensures Own(c) !! repr
    {
      c := [];
      for i := 0 to |scene|
        invariant |c| == i && (forall s | s in c :: fresh(s)) && Own(c) !! repr
        invariant forall k | 0 <= k < i :: c[k].Val() == scene[k].Val()
        invariant forall k | 0 <= k < |scene| :: scene[k].Val() == old(scene[k].Val())
      {
        var s := new Shape(scene[i].Val());
        c := c + [s];
      }
      forall i, j | 0 <= i < j < |c| ensures c[i].id != c[j].id {
        assert c[i].Val().id == scene[i].id && c[j].Val().id == scene[j].id;
      }
    }

    method PushHistory()
      requires Valid()
      modifies this`history, this`redo, this`repr
      ensures Valid() && View() == MarkupHistory.PushHistory(old(View()))
      ensures history != [] && Stack(history)[|history| - 1] == Vals(scene)
      ensures old(repr) <= repr && fresh(repr - old(repr))
    {
      var c := Clone();
      Store(c);
    }

    /** The copy goes on the history, which drops its oldest entry at the cap; redo is emptied. */
    method Store(c: seq<Shape>)
      requires Valid() && Own(c) !! repr && IdsDistinct(c) && Vals(c) == Vals(scene)
      modifies this`history, this`redo, this`repr
      ensures Valid() && View() == MarkupHistory.PushHistory(old(View()))
      ensures history != [] && Stack(history)[|history| - 1] == Vals(scene)
      ensures repr == old(repr) + Own(c)
    {
      PushSeparate(scene, history, redo, repr, c);
      InstallStacks(CappedStack(history + [c]), [], repr + Own(c));
    }

    /** Installs two stacks already checked to be separate; the scene is left alone. */
    method InstallStacks(h: seq<seq<Shape>>, r: seq<seq<Shape>>, ghost all: set<Shape>)
      requires Separate(scene, h, r, all)
      modifies this`history, this`redo, this`repr
      ensures history == h && redo == r && repr == all
      ensures View() == old(Editing(Vals(scene), Stack(h), Stack(r)))
    {
      history, redo, repr := h, r, all;
      Framed(h);
      Framed(r);
    }

    /** Installs a scene and two stacks already checked to be separate. */
    method Install(s: seq<Shape>, h: seq<seq<Shape>>, r: seq<seq<Shape>>, ghost all: set<Shape>)
      requires Separate(s, h, r, all)
      modifies this
      ensures scene == s && history == h && redo == r && repr == all && selected == {}
      ensures View() == old(Editing(Vals(s), Stack(h), Stack(r)))
    {
      scene, history, redo, repr, selected := s, h, r, all, {};
      Framed(h);
      Framed(r);
    }

    method Undo()
      requires Valid()
      modifies this
      ensures Valid() && View() == MarkupHistory.Undo(old(View()))
    {
      if history == [] { return; }
      ghost var v, h, r := Vals(scene), Stack(history), Stack(redo);
      var c := Clone();
      SwapSeparate(scene, history, redo, repr, c);
      UndoValues(v, h, r, Stack(history[..|history| - 1]), Vals(history[|history| - 1]));
      Install(history[|history| - 1], history[..|history| - 1], redo + [c], repr + Own(c));
    }

    method Redo()
      requires Valid()
      modifies this
      ensures Valid() && View() == MarkupHistory.Redo(old(View()))
    {
      if redo == [] { return; }
      ghost var v, h, r := Vals(scene), Stack(history), Stack(redo);
      var c := Clone();
      SwapBackSeparate(scene, history, redo, repr, c);
      UndoValues(v, r, h, Stack(redo[..|redo| - 1]), Vals(redo[|redo| - 1]));
      Install(redo[|redo| - 1], history + [c], redo[..|redo| - 1], repr + Own(c));
    }

    // ---------- gestures that change the list of shapes ----------

    /** Installs a scene that shares no shape with the stacks; they are left alone. */
    method ReplaceScene(s: seq<Shape>, sel: set<string>, ghost all: set<Shape>)
      requires Separate(s, history, redo, all)
      modifies this`scene, this`selected, this`repr
      ensures scene == s && selected == sel && repr == all
      ensures View() == old(Editing(Vals(s), Stack(history), Stack(redo)))
    {
      scene, selected, repr := s, sel, all;
      Framed(history);
      Framed(redo);
    }

    method FilterOut(gone: set<string>) returns (kept: seq<Shape>)
      requires IdsDistinct(scene)
      ensures Own(kept) <= Own(scene) && IdsDistinct(kept) && Vals(kept) == Keep(Vals(scene), gone)
    {
      kept := [];
      for i := 0 to |scene|
        invariant forall s | s in kept :: s in scene[..i]
        invariant IdsDistinct(kept) && Vals(kept) == Keep(Vals(scene)[..i], gone)
      {
        var v := Vals(scene)[..i + 1];
        assert v[..i] == Vals(scene)[..i];
        if scene[i].id !in gone {
          forall k | 0 <= k < |kept| ensures kept[k].id != scene[i].id {
            assert kept[k] in scene[..i];
          }
          kept := kept + [scene[i]];
        }
      }
      assert Vals(scene)[..|scene|] == Vals(scene);
    }

    /** scene = scene.filter(...) */
    method RemoveNamed(gone: set<string>, sel: set<string>)
      requires Valid()
      modifies this`scene, this`selected, this`repr
      ensures selected == sel
      ensures Valid() && View() == old(View()).(scene := Keep(old(View()).scene, gone))
    {
      var kept := FilterOut(gone);
      SubsceneSeparate(scene, kept, history, redo, repr);
      ReplaceScene(kept, sel, repr);
    }

    /** One gesture that adds a shape at the end. */
    method Add(v: ShapeVal)
      requires Valid() && forall s | s in scene :: s.id != v.id
      modifies this
      ensures Valid() && View() == Edit(old(View()), old(View()).scene + [v])
    {
      PushHistory();
      AddShape(v);
    }

    method AddShape(v: ShapeVal)
      requires Valid() && forall s | s in scene :: s.id != v.id
      modifies this`scene, this`selected, this`repr
      ensures Valid() && View() == old(View()).(scene := old(View()).scene + [v])
    {
      var s := new Shape(v);
      forall i | 0 <= i < |scene| ensures scene[i].id != s.id { assert scene[i] in scene; }
      assert Vals(scene + [s]) == Vals(scene) + [v];
      ReplaceScene(scene + [s], selected, repr + {s});
    }

    /** A finished stroke or shape. */
    method Draw(v: ShapeVal)
      requires Valid() && forall s | s in scene :: s.id != v.id
      modifies this
      ensures Valid()
      ensures View() == if Degenerate(v) then old(View()) else Edit(old(View()), old(View()).scene + [v])
    {
      if Degenerate(v) { return; }
      Add(v);
    }

    /** The text box of a new label closes. Escape (`keep` false) and an empty box leave nothing. */
    method AddLabel(v: ShapeVal, keep: bool)
      requires Valid() && v.kind == "text" && |v.p| == 1 && forall s | s in scene :: s.id != v.id
      modifies this
      ensures Valid()
      ensures View() == if keep && v.txt != "" then Edit(old(View()), old(View()).scene + [v]) else old(View())
    {
      var txt := if keep then v.txt else "";
      if txt == "" { return; }
      Add(v);
    }

    method DeleteSelected()
      requires Valid()
      modifies this
      ensures Valid()
      ensures View() == if old(selected) == {} then old(View())
                        else Edit(old(View()), Keep(old(View()).scene, old(selected)))
    {
      if selected == {} { return; }
      PushHistory();
      RemoveNamed(selected, {});
    }

    /** The pointer passes over the shapes named, one after the other. */
    method EraseAlong(hits: seq<string>)
      requires Valid()
      modifies this`scene, this`selected, this`repr
      ensures Valid() && View() == old(View()).(scene := Keep(old(View()).scene, SetOf(hits)))
    {
      if hits == [] {
        assert SetOf(hits) == {};
        KeepNone(View().scene);
        return;
      }
      var front, last := hits[..|hits| - 1], hits[|hits| - 1];
      KeepKeep(View().scene, SetOf(front), {last});
      assert SetOf(front) + {last} == SetOf(hits);
      EraseAlong(front);
      RemoveNamed({last}, selected);
    }

    /** One eraser stroke: each shape it hits goes as a whole. */
    method EraseStroke(hits: seq<string>)
      requires Valid()
      modifies this
      ensures Valid()
      ensures View() == Edit(old(View()), Keep(old(View()).scene, SetOf(hits)))
    {
      PushHistory();
      EraseAlong(hits);
    }

    method ClearMine()
      requires Valid()
      modifies this
      ensures Valid() && View() == if old(scene) == [] then old(View()) else Edit(old(View()), [])
    {
      if scene == [] { return; }
      PushHistory();
      ReplaceScene([], {}, repr);
    }

    /** Copies of the selection, selected in its place. */
    method DuplicateSelected(ids: seq<string>)
      requires Valid() && |ids| == |Selected(View().scene, selected)|
      requires forall i, j | 0 <= i < j < |ids| :: ids[i] != ids[j]
      requires forall s | s in scene :: s.id !in ids
      modifies this
      ensures Valid()
      ensures View() == if ids == [] then old(View())
                        else Edit(old(View()), old(View()).scene + Copies(Selected(old(View()).scene, old(selected)), ids))
    {
      if ids == [] { return; }
      PushHistory();
      AddCopies(ids);
    }

    method AddCopies(ids: seq<string>)
      requires Valid() && |ids| == |Selected(View().scene, selected)|
      requires forall i, j | 0 <= i < j < |ids| :: ids[i] != ids[j]
      requires forall s | s in scene :: s.id !in ids
      modifies this`scene, this`selected, this`repr
      ensures Valid()
      ensures View() == old(View()).(scene := old(View()).scene + Copies(Selected(old(View()).scene, old(selected)), ids))
    {
      var copies := MakeCopies(ids);
      SceneWithCopies(scene, copies, history, redo, repr);
      Append(copies, SetOf(ids), repr + Own(copies));
    }

    method Append(copies: seq<Shape>, sel: set<string>, ghost all: set<Shape>)
      requires Separate(scene + copies, history, redo, all)
      modifies this`scene, this`selected, this`repr
      ensures scene == old(scene) + copies && selected == sel && repr == all
      ensures View() == old(View().(scene := Vals(scene) + Vals(copies)))
    {
      assert Vals(scene + copies) == Vals(scene) + Vals(copies);
      ReplaceScene(scene + copies, sel, all);
    }

    method MakeCopies(ids: seq<string>) returns (copies: seq<Shape>)
      requires Valid() && |ids| == |Selected(Vals(scene), selected)|
      requires forall i, j | 0 <= i < j < |ids| :: ids[i] != ids[j]
      ensures Vals(copies) == Copies(Selected(Vals(scene), selected), ids)
      ensures Own(copies) !! repr && IdsDistinct(copies) && forall c | c in copies :: fresh(c)
      ensures forall s | s in copies :: s.id in ids
    {
      copies := [];
      var wanted := SelectedVals();
      for i := 0 to |wanted|
        invariant |copies| == i && Own(copies) !! repr && forall c | c in copies :: fresh(c)
        invariant forall k | 0 <= k < i :: copies[k].Val() == Copies(wanted, ids)[k]
        invariant forall k | 0 <= k < i :: copies[k].id == ids[k]
      {
        var v := MoveShape(wanted[i], Point(0.0, 0.0), Point(0.02, 0.02)).(id := ids[i]);
        var c := new Shape(v);
        assert c.Val().id == ids[i];
        copies := copies + [c];
      }
      NamedApart(copies, ids);
    }

    method SelectedVals() returns (wanted: Scene)
      ensures wanted == Selected(Vals(scene), selected)
    {
      wanted := [];
      for i := 0 to |scene|
        invariant wanted == Selected(Vals(scene)[..i], selected)
      {
        assert Vals(scene)[..i + 1][..i] == Vals(scene)[..i];
        if scene[i].id in selected {
          wanted := wanted + [scene[i].Val()];
        }
      }
      assert Vals(scene)[..|scene|] == Vals(scene);
    }

    // ---------- gestures that change shapes in place ----------

    /** The text box of an existing label closes: the same words change nothing, no words delete it. To
        the code Escape (`keep` false) is no words. */
    method EditText(existing: Shape, typed: string, keep: bool)
      requires Valid() && existing in scene
      modifies this, scene
      ensures Valid()
      ensures keep ==> View() == if typed == old(existing.txt) then old(View())
                                 else Edit(old(View()), if typed == "" then Keep(old(View()).scene, {existing.id})
                                                        else Retexted(old(View()).scene, existing.id, typed))
      ensures !keep ==> View() == if old(existing.txt) == "" then old(View())
                                  else Edit(old(View()), Keep(old(View()).scene, {existing.id}))
    {
      var txt := if keep then typed else "";
      if txt == existing.txt { return; }
      PushHistory();
      if txt == "" {
        RemoveNamed({existing.id}, selected);
      } else {
        Retext(existing, txt);
      }
    }

    method Retext(existing: Shape, txt: string)
      requires Valid() && existing in scene
      modifies existing
      ensures View() == old(View()).(scene := Retexted(old(View()).scene, existing.id, txt))
    {
      existing.txt := txt;
      StacksUntouched();
      var at :| 0 <= at < |scene| && scene[at] == existing;
      assert forall i | 0 <= i < |scene| :: scene[i] == existing <==> scene[i].id == existing.id;
      assert Vals(scene) == Retexted(old(Vals(scene)), existing.id, txt);
    }

    /** An arrow-key nudge by `offset`. */
    method NudgeSelected(offset: Point)
      requires Valid()
      modifies this, scene
      ensures Valid()
      ensures View() == if selected == {} then old(View())
                        else Edit(old(View()), DragScene(old(View()).scene, selected, Move(Point(0.0, 0.0)), false, offset))
      ensures selected == old(selected)
    {
      if selected == {} { return; }
      PushHistory();
      ShiftSelected(offset);
    }

    method ShiftSelected(offset: Point)
      requires Valid()
      modifies scene
      ensures View() == old(View()).(scene := DragScene(old(View()).scene, selected, Move(Point(0.0, 0.0)), false, offset))
    {
      ghost var start := Vals(scene);
      for i := 0 to |scene|
        invariant forall k | 0 <= k < i :: scene[k].Val() == DragScene(start, selected, Move(Point(0.0, 0.0)), false, offset)[k]
        invariant forall k | i <= k < |scene| :: scene[k].Val() == start[k]
      {
        if scene[i].id in selected {
          ghost var was := scene[i].Val();
          scene[i].p := MapPoints(scene[i].p, q => MovePoint(Point(0.0, 0.0), offset, q));
          assert forall k | 0 <= k < |scene| && k != i :: scene[k].id != scene[i].id;
          assert scene[i].Val() == MoveShape(was, Point(0.0, 0.0), offset);
        }
      }
      StacksUntouched();
    }

    /** While a drag is on, the newest history entry is the scene as it was when the drag began, and
        the live scene differs from it in the dragged geometry of the selected shapes only. */
    ghost predicate DragSound()
      reads this, scene, Held(history)
    {
      dragging.Some? ==>
        && history != [] && |scene| == |Stack(history)[|history| - 1]|
        && var start := Stack(history)[|history| - 1];
           Remembers(dragging.value.orig, start, selected)
           && forall i | 0 <= i < |scene| :: Loosely(scene[i].Val(), start[i], selected, dragging.value.drag)
    }

    /** Pressing on the selection or on one of its handles. */
    method BeginDrag(d: Drag)
      requires Valid()
      modifies this
      ensures Valid() && DragSound() && View() == MarkupHistory.PushHistory(old(View()))
      ensures dragging.Some? && dragging.value.drag == d && selected == old(selected) && scene == old(scene)
    {
      PushHistory();
      DragSelection(d);
    }

    method DragSelection(d: Drag)
      requires Valid() && history != [] && Stack(history)[|history| - 1] == Vals(scene)
      modifies this`dragging
      ensures Valid() && DragSound() && dragging.Some? && dragging.value.drag == d && View() == old(View())
    {
      var orig := RememberSelection();
      StartDragging(Dragging(d, orig));
    }

    method RememberSelection() returns (orig: seq<Orig>)
      requires Valid()
      ensures Remembers(orig, Vals(scene), selected)
    {
      var wanted := SelectedVals();
      orig := seq(|wanted|, i requires 0 <= i < |wanted| => OrigOf(wanted[i]));
      SelectedRemembers(Vals(scene), selected, wanted, orig);
    }

    method StartDragging(g: Dragging)
      requires Valid() && history != [] && Stack(history)[|history| - 1] == Vals(scene)
      requires Remembers(g.orig, Vals(scene), selected)
      modifies this`dragging
      ensures Valid() && dragging == Some(g) && DragSound() && View() == old(View())
    {
      ghost var v := View();
      dragging := Some(g);
      assert View() == v;
      forall i | 0 <= i < |scene| ensures Loosely(scene[i].Val(), v.scene[i], selected, g.drag) {
        assert scene[i].Val() == v.scene[i];
      }
    }

    /** One pointer move: every remembered shape is set from its original geometry. */
    method DragTo(shift: bool, to: Point)
      requires Valid() && DragSound() && dragging.Some?
      modifies scene
      ensures Valid() && DragSound()
      ensures View() == old(View()).(scene :=
                DragScene(old(View()).history[|history| - 1], selected, dragging.value.drag, shift, to))
    {
      ghost var start := Stack(history)[|history| - 1];
      SetEach(dragging.value.drag, dragging.value.orig, shift, to, start);
      assert Vals(scene) == DragScene(start, selected, dragging.value.drag, shift, to);
      StacksUntouched();
    }

    method SetEach(d: Drag, orig: seq<Orig>, shift: bool, to: Point, ghost start: Scene)
      requires IdsDistinct(scene) && |scene| == |start| && Remembers(orig, start, selected)
      requires forall i | 0 <= i < |scene| :: Loosely(scene[i].Val(), start[i], selected, d)
      modifies scene
      ensures forall i | 0 <= i < |scene| :: scene[i].Val() == DragScene(start, selected, d, shift, to)[i]
      ensures forall i | 0 <= i < |scene| :: Loosely(scene[i].Val(), start[i], selected, d)
    {
      ghost var goal := DragScene(start, selected, d, shift, to);
      for k := 0 to |orig|
        invariant forall i | 0 <= i < |scene| :: Loosely(scene[i].Val(), start[i], selected, d)
        invariant forall i, j | 0 <= i < |scene| && 0 <= j < k && OrigOf(start[i]) == orig[j] :: scene[i].Val() == goal[i]
      {
        ghost var at := RememberedAt(orig, start, selected, k);
        assert Loosely(scene[at].Val(), start[at], selected, d);
        var i := FindShape(orig[k].id, at);
        SetOne(i, d, orig[k], shift, to, start);
      }
      forall i | 0 <= i < |scene| ensures scene[i].Val() == goal[i] {
        assert Loosely(scene[i].Val(), start[i], selected, d);
        if start[i].id in selected {
          var j :| 0 <= j < |orig| && orig[j] == OrigOf(start[i]);
        }
      }
    }

    /** Sets one shape of the scene from its original geometry; every other shape keeps its value. */
    method SetOne(i: nat, d: Drag, o: Orig, shift: bool, to: Point, ghost start: Scene)
      requires IdsDistinct(scene) && |scene| == |start| && i < |scene| && o == OrigOf(start[i]) && o.id in selected
      requires forall j | 0 <= j < |scene| :: Loosely(scene[j].Val(), start[j], selected, d)
      modifies scene[i]
      ensures scene[i].Val() == DragScene(start, selected, d, shift, to)[i]
      ensures forall j | 0 <= j < |scene| && j != i :: scene[j].Val() == old(scene[j].Val()) && OrigOf(start[j]) != o
      ensures forall j | 0 <= j < |scene| :: Loosely(scene[j].Val(), start[j], selected, d)
    {
      forall j | 0 <= j < |scene| && j != i ensures scene[j] != scene[i] && start[j].id != o.id {
        assert scene[j].id != scene[i].id;
        assert Loosely(scene[j].Val(), start[j], selected, d);
        assert Loosely(scene[i].Val(), start[i], selected, d);
      }
      assert Loosely(scene[i].Val(), start[i], selected, d);
      SetGeometry(scene[i], d, o, shift, to, start[i]);
    }

    /** scene.find(x => x.id === id) */
    method FindShape(id: string, ghost at: nat) returns (i: nat)
      requires IdsDistinct(scene) && at < |scene| && scene[at].id == id
      ensures i == at
    {
      i := 0;
      while scene[i].id != id
        invariant i <= at
        decreases at - i
      {
        i := i + 1;
      }
    }

    method SetGeometry(s: Shape, d: Drag, o: Orig, shift: bool, to: Point, ghost was: ShapeVal)
      requires o == OrigOf(was) && was.id in selected && Loosely(s.Val(), was, selected, d)
      modifies s
      ensures s.Val() == DragShape(was, d, shift, to) && Loosely(s.Val(), was, selected, d)
    {
      match d {
        case Move(from) =>
          s.p := MapPoints(o.p, q => MovePoint(from, to, q));
        case Resize(b, h) =>
          s.p := MapPoints(o.p, q => ResizePoint(b, h, shift, to, q));
          if s.kind == "text" && o.fs != 0.0 {
            s.fs := ResizeFont(b, h, shift, to, o.fs);
          }
      }
    }

    /** A whole drag. Whatever the way there, only the last pointer position and Shift count, and
        undoing it restores the scene it began with. */
    method Drag(d: Drag, path: seq<(bool, Point)>)
      requires Valid()
      modifies this, scene
      ensures Valid() && dragging == None
      ensures var e := old(View());
              View() == if path == [] then MarkupHistory.PushHistory(e)
                        else var (shift, to) := path[|path| - 1]; Edit(e, DragScene(e.scene, old(selected), d, shift, to))
    {
      DraggedIsEdit(View(), selected, d, path);
      BeginDrag(d);
      FollowPath(path);
      StopDragging();
    }

    method FollowPath(path: seq<(bool, Point)>)
      requires Valid() && DragSound() && dragging.Some?
      modifies scene
      ensures Valid() && DragSound()
      ensures View() == Dragged(old(View()), selected, dragging.value.drag, path)
    {
      if path == [] { return; }
      ghost var e := View();
      var front, last := path[..|path| - 1], path[|path| - 1];
      FollowPath(front);
      FollowOne(last);
      DraggedAgain(e, selected, dragging.value.drag, front, last);
      assert path == front + [last];
    }

    method FollowOne(move: (bool, Point))
      requires Valid() && DragSound() && dragging.Some?
      modifies scene
      ensures Valid() && DragSound()
      ensures View() == Dragged(old(View()), selected, dragging.value.drag, [move])
    {
      DragTo(move.0, move.1);
    }

    method StopDragging()
      requires Valid()
      modifies this`dragging
      ensures Valid() && dragging == None && View() == old(View())
    {
      dragging := None;
    }

    /** In-place edits of scene shapes never reach a stored snapshot. */
    twostate lemma StacksUntouched()
      requires Valid() && history == old(history) && redo == old(redo)
      requires forall s: Shape | s in Held(history) + Held(redo) :: SameShape(s)
      ensures Stack(history) == old(Stack(history)) && Stack(redo) == old(Stack(redo))
    {
      Framed(history);
      Framed(redo);
    }
  }

  lemma {:induction false} SelectedRemembers(scene: Scene, sel: set<string>, wanted: Scene, orig: seq<Orig>)
    requires wanted == Selected(scene, sel) && |orig| == |wanted|
    requires forall k | 0 <= k < |wanted| :: orig[k] == OrigOf(wanted[k])
    ensures Remembers(orig, scene, sel)
  {
    if scene != [] {
      var front, last := scene[..|scene| - 1], scene[|scene| - 1];
      var n := |Selected(front, sel)|;
      SelectedRemembers(front, sel, wanted[..n], orig[..n]);
      forall k | 0 <= k < |orig| ensures Recalled(orig[k], scene, sel) {
        if k < n {
          assert Recalled(orig[..n][k], front, sel);
          var i :| CameFrom(orig[..n][k], front, sel, i);
          assert CameFrom(orig[k], scene, sel, i);
        } else {
          assert CameFrom(orig[k], scene, sel, |scene| - 1);
        }
      }
      forall i | 0 <= i < |scene| && scene[i].id in sel ensures OrigOf(scene[i]) in orig {
        if i < |front| {
          assert front[i] == scene[i];
          assert OrigOf(front[i]) in orig[..n];
        } else {
          assert orig[n] == OrigOf(scene[i]);
        }
      }
    }
  }

  /** Where the pointer moves `path` take an editor whose drag began in its newest history entry. */
  function Dragged(e: Editing, sel: set<string>, d: Drag, path: seq<(bool, Point)>): Editing {
    if path == [] || e.history == [] then e
    else e.(scene := DragScene(e.history[|e.history| - 1], sel, d, path[|path| - 1].0, path[|path| - 1].1))
  }

  /** Only the last move counts. */
  lemma DraggedAgain(e: Editing, sel: set<string>, d: Drag, front: seq<(bool, Point)>, last: (bool, Point))
    ensures Dragged(Dragged(e, sel, d, front), sel, d, [last]) == Dragged(e, sel, d, front + [last])
  {
  }

  lemma DraggedIsEdit(e: Editing, sel: set<string>, d: Drag, path: seq<(bool, Point)>)
    ensures Dragged(MarkupHistory.PushHistory(e), sel, d, path) ==
            if path == [] then MarkupHistory.PushHistory(e)
            else var (shift, to) := path[|path| - 1]; Edit(e, DragScene(e.scene, sel, d, shift, to))
  {
  }

  lemma RememberedAt(orig: seq<Orig>, start: Scene, sel: set<string>, k: nat) returns (at: nat)
    requires Remembers(orig, start, sel) && k < |orig|
    ensures at < |start| && orig[k] == OrigOf(start[at]) && start[at].id in sel
  {
    assert Recalled(orig[k], start, sel);
    at :| CameFrom(orig[k], start, sel, at);
  }

  lemma NamedApart(copies: seq<Shape>, ids: seq<string>)
    requires |copies| == |ids| && forall k | 0 <= k < |copies| :: copies[k].id == ids[k]
    requires forall i, j | 0 <= i < j < |ids| :: ids[i] != ids[j]
    ensures IdsDistinct(copies) && forall s | s in copies :: s.id in ids
  {
  }

  lemma SceneWithCopies(scene: seq<Shape>, copies: seq<Shape>, history: seq<seq<Shape>>, redo: seq<seq<Shape>>, repr: set<Shape>)
    requires Separate(scene, history, redo, repr) && Own(copies) !! repr && IdsDistinct(copies)
    requires forall s, c | s in scene && c in copies :: s.id != c.id
    ensures Separate(scene + copies, history, redo, repr + Own(copies))
  {
    var all := scene + copies;
    assert Own(all) == Own(scene) + Own(copies);
    forall i, j | 0 <= i < j < |all| ensures all[i].id != all[j].id {
      if i < |scene| <= j {
        assert scene[i] in scene && copies[j - |scene|] in copies;
      }
    }
  }

  lemma SubsceneSeparate(scene: seq<Shape>, kept: seq<Shape>, history: seq<seq<Shape>>, redo: seq<seq<Shape>>, repr: set<Shape>)
    requires Separate(scene, history, redo, repr) && Own(kept) <= Own(scene) && IdsDistinct(kept)
    ensures Separate(kept, history, redo, repr)
  {
  }

  lemma {:induction false} KeepNone(scene: Scene)
    ensures Keep(scene, {}) == scene
  {
    if scene != [] {
      KeepNone(scene[..|scene| - 1]);
    }
  }

  lemma {:induction false} KeepKeep(scene: Scene, a: set<string>, b: set<string>)
    ensures Keep(Keep(scene, a), b) == Keep(scene, a + b)
  {
    if scene != [] {
      var front, last := scene[..|scene| - 1], scene[|scene| - 1];
      KeepKeep(front, a, b);
      if last.id !in a {
        assert (Keep(front, a) + [last])[..|Keep(front, a)|] == Keep(front, a);
      } else {
        assert Keep(front, a) + [] == Keep(front, a);
      }
    }
  }
}
