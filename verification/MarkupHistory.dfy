/** Undo and redo over whole scenes: the values the editor's stacks hold, and their laws. */
module MarkupHistory {
  import opened MarkupGeometry

  /** Undo depth. */
  const HISTORY_MAX := 60

  /** A shape as it is saved; `look` stands for colour, width and dash. A font of 0 means none. */
  datatype ShapeVal = ShapeVal(id: string, kind: string, look: string, p: seq<Point>, fs: real, txt: string)

  type Scene = seq<ShapeVal>

  datatype Editing = Editing(scene: Scene, history: seq<Scene>, redo: seq<Scene>)

  function Capped(h: seq<Scene>): seq<Scene> {
    if |h| > HISTORY_MAX then h[1..] else h
  }

  function PushHistory(e: Editing): Editing {
    Editing(e.scene, Capped(e.history + [e.scene]), [])
  }

  /** A complete gesture: history first, then the new scene. */
  function Edit(e: Editing, scene: Scene): Editing {
    PushHistory(e).(scene := scene)
  }

  function Undo(e: Editing): Editing {
    if e.history == [] then e
    else Editing(e.history[|e.history| - 1], e.history[..|e.history| - 1], e.redo + [e.scene])
  }

  function Redo(e: Editing): Editing {
    if e.redo == [] then e
    else Editing(e.redo[|e.redo| - 1], e.history + [e.scene], e.redo[..|e.redo| - 1])
  }

  // ---------- one step back and forth ----------

  /** Undo takes back exactly the last gesture. */
  lemma UndoTakesBackAnEdit(e: Editing, scene: Scene)
    requires |e.history| <= HISTORY_MAX
    ensures Undo(Edit(e, scene)).scene == e.scene
    ensures Undo(Edit(e, scene)).history == if |e.history| == HISTORY_MAX then e.history[1..] else e.history
    ensures Undo(Edit(e, scene)).redo == [scene]
  {
    var h := Edit(e, scene).history;
    assert h[..|h| - 1] == if |e.history| == HISTORY_MAX then e.history[1..] else e.history;
  }

  /** Undo and redo are inverse, on the scene and on both stacks. */
  lemma UndoRedoInverse(e: Editing)
    ensures e.history != [] ==> Redo(Undo(e)) == e
    ensures e.redo != [] ==> Undo(Redo(e)) == e
  {
    if e.history != [] {
      assert e.history[..|e.history| - 1] + [e.history[|e.history| - 1]] == e.history;
    }
    if e.redo != [] {
      assert e.redo[..|e.redo| - 1] + [e.redo[|e.redo| - 1]] == e.redo;
    }
  }

  // ---------- whole runs ----------

  datatype Command = DoEdit(scene: Scene) | DoUndo | DoRedo

  function Apply(e: Editing, c: Command): Editing {
    match c
    case DoEdit(scene) => Edit(e, scene)
    case DoUndo => Undo(e)
    case DoRedo => Redo(e)
  }

  function Run(e: Editing, cs: seq<Command>): Editing
    decreases |cs|
  {
    if cs == [] then e else Run(Apply(e, cs[0]), cs[1..])
  }

  /** The redo stack has no cap of its own, and still both stacks together never exceed the depth. */
  lemma {:induction false} StacksStayBounded(e: Editing, cs: seq<Command>)
    requires |e.history| + |e.redo| <= 60
    ensures |Run(e, cs).history| + |Run(e, cs).redo| <= 60
    decreases |cs|
  {
    if cs != [] {
      StacksStayBounded(Apply(e, cs[0]), cs[1..]);
    }
  }

  function Edits(scenes: seq<Scene>): seq<Command> {
    seq(|scenes|, i requires 0 <= i < |scenes| => DoEdit(scenes[i]))
  }

  function Times(c: Command, n: nat): seq<Command> {
    seq(n, _ => c)
  }

  /** The newest scenes that fit. */
  function Newest(h: seq<Scene>): seq<Scene> {
    if |h| > HISTORY_MAX then h[|h| - HISTORY_MAX..] else h
  }

  /** Every scene there has been, oldest first. */
  function Trail(e: Editing, scenes: seq<Scene>): seq<Scene> {
    e.history + [e.scene] + scenes
  }

  lemma NewestPush(h: seq<Scene>, x: Scene)
    ensures Capped(Newest(h) + [x]) == Newest(h + [x])
  {
  }

  lemma {:induction false} HistoryAfterEdits(e: Editing, scenes: seq<Scene>)
    requires |e.history| <= HISTORY_MAX
    ensures var t := Trail(e, scenes); var after := Run(e, Edits(scenes));
            after.scene == t[|t| - 1] && after.history == Newest(t[..|t| - 1])
    decreases |scenes|
  {
    var t := Trail(e, scenes);
    if scenes == [] {
      assert t[..|t| - 1] == e.history;
    } else {
      var init, x := scenes[..|scenes| - 1], scenes[|scenes| - 1];
      var u := Trail(e, init);
      HistoryAfterEdits(e, init);
      assert Edits(scenes) == Edits(init) + [DoEdit(x)];
      RunSplit(e, Edits(init), [DoEdit(x)]);
      var before := Run(e, Edits(init));
      assert [DoEdit(x)][1..] == [];
      assert Run(before, [DoEdit(x)]) == Run(Edit(before, x), []);
      assert t == u + [x] && t[..|t| - 1] == u == u[..|u| - 1] + [u[|u| - 1]];
      NewestPush(u[..|u| - 1], u[|u| - 1]);
    }
  }

  lemma {:induction false} UndoMany(e: Editing, j: nat)
    requires j <= |e.history|
    ensures var u := Run(e, Times(DoUndo, j));
            && u.scene == (e.history + [e.scene])[|e.history| - j]
            && u.history == e.history[..|e.history| - j]
            && Run(u, Times(DoRedo, j)) == e
    decreases j
  {
    if j > 0 {
      var once := Undo(e);
      assert Times(DoUndo, j)[1..] == Times(DoUndo, j - 1);
      assert Run(e, Times(DoUndo, j)) == Run(once, Times(DoUndo, j - 1));
      UndoMany(once, j - 1);
      var u := Run(once, Times(DoUndo, j - 1));
      assert once.history == e.history[..|e.history| - 1];
      assert Times(DoRedo, j) == Times(DoRedo, j - 1) + [DoRedo];
      RunSplit(u, Times(DoRedo, j - 1), [DoRedo]);
      assert [DoRedo][1..] == [];
      assert Run(once, [DoRedo]) == Run(Redo(once), []);
      UndoRedoInverse(e);
    }
  }

  lemma {:induction false} RunSplit(e: Editing, a: seq<Command>, b: seq<Command>)
    ensures Run(e, a + b) == Run(Run(e, a), b)
    decreases |a|
  {
    if a == [] {
      assert a + b == b;
    } else {
      assert (a + b)[0] == a[0] && (a + b)[1..] == a[1..] + b;
      RunSplit(Apply(e, a[0]), a[1..], b);
    }
  }

  /** The scene shown `j` gestures before the last of them. */
  function SceneAgo(first: Scene, scenes: seq<Scene>, j: nat): Scene
    requires j <= |scenes|
  {
    if j == |scenes| then first else scenes[|scenes| - 1 - j]
  }

  lemma TrailFromEnd(e: Editing, scenes: seq<Scene>, j: nat)
    requires j <= |scenes|
    ensures var t := Trail(e, scenes); t[|t| - 1 - j] == SceneAgo(e.scene, scenes, j)
  {
  }

  /** Within the depth, counting back from the capped history or from the whole trail is the same. */
  lemma NewestFromEnd(t: seq<Scene>, j: nat)
    requires j < |t| && j <= HISTORY_MAX
    ensures var h := Newest(t[..|t| - 1]);
            j <= |h| && (h + [t[|t| - 1]])[|h| - j] == t[|t| - 1 - j]
  {
  }

  /** From `e`, `j` undos show `scene`, and as many redos lead back to `e`. */
  predicate WalksBack(e: Editing, j: nat, scene: Scene) {
    var back := Run(e, Times(DoUndo, j));
    back.scene == scene && Run(back, Times(DoRedo, j)) == e
  }

  lemma BackAlong(t: seq<Scene>, after: Editing, j: nat)
    requires j < |t| && j <= HISTORY_MAX
    requires after.scene == t[|t| - 1] && after.history == Newest(t[..|t| - 1])
    ensures WalksBack(after, j, t[|t| - 1 - j])
  {
    NewestFromEnd(t, j);
    UndoMany(after, j);
  }

  /** What the gestures leave, and the scenes on the way there. */
  lemma TrailOfEdits(e: Editing, scenes: seq<Scene>, j: nat) returns (t: seq<Scene>, after: Editing)
    requires |e.history| <= HISTORY_MAX && j <= |scenes|
    ensures after == Run(e, Edits(scenes)) && j < |t| && t[|t| - 1 - j] == SceneAgo(e.scene, scenes, j)
    ensures after.scene == t[|t| - 1] && after.history == Newest(t[..|t| - 1])
  {
    t, after := Trail(e, scenes), Run(e, Edits(scenes));
    HistoryAfterEdits(e, scenes);
    TrailFromEnd(e, scenes, j);
  }

  /** After any gestures from any state, undoing `j` times (as far as the depth reaches) shows exactly
      the scene of `j` gestures ago, and redoing `j` times brings everything back. */
  lemma UndoWalksBackThroughEdits(e: Editing, scenes: seq<Scene>, j: nat)
    requires |e.history| <= 60 && j <= |scenes| && j <= 60
    ensures WalksBack(Run(e, Edits(scenes)), j, SceneAgo(e.scene, scenes, j))
  {
    var t, after := TrailOfEdits(e, scenes, j);
    BackAlong(t, after, j);
  }
}
