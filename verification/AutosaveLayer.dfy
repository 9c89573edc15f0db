/** The save queue over the mutable layer. A request captures its file and a deep copy of the shapes
    before anything can intervene, so neither later strokes nor a change of image reach it. */
module AutosaveLayer {
  import opened Basics
  import opened MarkupGeometry
  import opened MarkupHistory
  import opened MarkupEditor
  import opened Autosave

  datatype Request = Request(file: int, shapes: seq<Shape>)

  ghost function Captured(q: seq<Request>): set<Shape> {
    set i, k | 0 <= i < |q| && 0 <= k < |q[i].shapes| :: q[i].shapes[k]
  }

  ghost function Saves(q: seq<Request>): (r: seq<Save>)
    reads Captured(q)
    ensures |r| == |q| && forall i | 0 <= i < |q| :: r[i] == Save(q[i].file, Vals(q[i].shapes))
  {
    seq(|q|, i requires 0 <= i < |q| reads Captured(q) => Save(q[i].file, Vals(q[i].shapes)))
  }

  lemma CapturedOneMore(q: seq<Request>, r: Request)
    ensures Captured(q + [r]) == Captured(q) + Own(r.shapes)
  {
    var more := q + [r];
    forall s | s in Captured(q) + Own(r.shapes) ensures s in Captured(more) {
      if s in Captured(q) {
        var i, k :| 0 <= i < |q| && 0 <= k < |q[i].shapes| && q[i].shapes[k] == s;
        assert more[i].shapes[k] == s;
      } else {
        var k :| 0 <= k < |r.shapes| && r.shapes[k] == s;
        assert more[|q|].shapes[k] == s;
      }
    }
  }

  lemma CapturedOfRest(q: seq<Request>)
    requires q != []
    ensures Captured(q[1..]) <= Captured(q)
  {
    forall s | s in Captured(q[1..]) ensures s in Captured(q) {
      var i, k :| 0 <= i < |q[1..]| && 0 <= k < |q[1..][i].shapes| && q[1..][i].shapes[k] == s;
      assert q[i + 1].shapes[k] == s;
    }
  }

  class Layer {
    var file: Option<int>
    var scene: seq<Shape>
    var dirty: bool
    var queue: seq<Request>
    var server: map<int, Scene>  // what the other side of the requests holds
    ghost var issued: seq<Save>
    ghost var answers: seq<bool>

    ghost predicate Valid()
      reads this
    {
      Own(scene) !! Captured(queue)
    }

    ghost function View(): State
      reads this, scene, Captured(queue)
    {
      State(file, Vals(scene), dirty, Saves(queue), server, issued, answers)
    }

    constructor (server: map<int, Scene>)
      ensures Valid() && View() == Start(server)
    {
      file, scene, dirty, queue, this.server := None, [], false, [], server;
      issued, answers := [], [];
    }

    /** A stroke or a drag writes into a shape of the scene. */
    method Reshape(s: Shape, p: seq<Point>)
      requires Valid() && s in scene && file.Some?
      modifies `dirty, s`p
      ensures Valid() && View() == AfterEdit(old(View()), Vals(scene))
      ensures s.p == p && forall i | 0 <= i < |scene| && scene[i] != s :: scene[i].Val() == old(scene[i].Val())
    {
      ghost var q := Saves(queue);
      s.p := p;
      dirty := true;
      assert Saves(queue) == q;
    }

    /** Undo, redo, erase and the like put another list in the scene's place. */
    method Replace(shapes: seq<Shape>)
      requires Own(shapes) !! Captured(queue) && file.Some?
      modifies `scene, `dirty
      ensures Valid() && View() == AfterEdit(old(View()), old(Vals(shapes)))
    {
      scene, dirty := shapes, true;
    }

    method Clone() returns (c: seq<Shape>)
      ensures (forall s | s in c :: fresh(s)) && Vals(c) == Vals(scene)
    {
      c := [];
      for i := 0 to |scene|
        invariant |c| == i && forall s | s in c :: fresh(s)
        invariant forall k | 0 <= k < i :: c[k].Val() == scene[k].Val()
      {
        var s := new Shape(scene[i].Val());
        c := c + [s];
      }
    }

    method Flush()
      requires Valid()
      modifies `dirty, `queue, `issued
      ensures Valid() && View() == AfterFlush(old(View()))
      ensures file == old(file) && scene == old(scene)
    {
      if !dirty || file.None? { return; }
      var payload := Capture();
      Enqueue(file.value, payload);
    }

    /** The layer counts as saved from here on, before the request has even run. */
    method Capture() returns (payload: seq<Shape>)
      requires Valid()
      modifies `dirty
      ensures Valid() && View() == old(View()).(dirty := false)
      ensures Own(payload) !! Own(scene) && Vals(payload) == Vals(scene)
    {
      ghost var q, v := Saves(queue), Vals(scene);
      dirty := false;
      payload := Clone();
      assert Saves(queue) == q && Vals(scene) == v;
    }

    method Enqueue(f: int, payload: seq<Shape>)
      requires Valid() && Own(payload) !! Own(scene) && Vals(payload) == Vals(scene)
      modifies `queue, `issued
      ensures Valid()
      ensures View() == old(View()).(queue := old(View()).queue + [Save(f, old(View()).scene)],
                          issued := old(issued) + [Save(f, old(View()).scene)])
    {
      ghost var q, v := Saves(queue), Vals(scene);
      CapturedOneMore(queue, Request(f, payload));
      queue := queue + [Request(f, payload)];
      issued := issued + [Save(f, v)];
      assert Saves(queue) == q + [Save(f, v)];
    }

    method TakeFirst() returns (request: Request)
      requires Valid() && queue != []
      modifies `queue
      ensures Valid() && request == old(queue)[0] && Saves(queue) == old(Saves(queue))[1..]
    {
      ghost var q := Saves(queue);
      request := queue[0];
      CapturedOfRest(queue);
      queue := queue[1..];
      assert Saves(queue) == q[1..];
    }

    /** The request at the head of the chain is answered. */
    method Answer(ok: bool)
      requires Valid()
      modifies `queue, `dirty, `server, `answers
      ensures Valid() && View() == AfterAnswer(old(View()), ok)
    {
      if queue == [] { return; }
      var request := TakeFirst();
      Settle(request, ok);
    }

    method Settle(request: Request, ok: bool)
      requires Valid()
      modifies `dirty, `server, `answers
      ensures View() == old(View()).(answers := old(answers) + [ok],
                          server := if ok then old(server)[request.file := Vals(request.shapes)] else old(server),
                          dirty := old(dirty) || (!ok && file == Some(request.file)))
    {
      ghost var q, v := Saves(queue), Vals(scene);
      if ok {
        var stored := Received(request.shapes);
        server := server[request.file := stored];
      } else if file == Some(request.file) {
        dirty := true;
      }
      answers := answers + [ok];
      assert Saves(queue) == q && Vals(scene) == v;
    }

    /** What arrives is a value. */
    method Received(shapes: seq<Shape>) returns (v: Scene)
      ensures v == Vals(shapes)
    {
      v := [];
      for i := 0 to |shapes|
        invariant |v| == i && forall k | 0 <= k < i :: v[k] == shapes[k].Val()
      {
        v := v + [shapes[i].Val()];
      }
    }

    /** Leaving the old image flushes it; the new one shows what was loaded, in shapes of its own. */
    method Mount(f: int, loaded: bool)
      requires Valid()
      modifies `file, `scene, `dirty, `queue, `issued
      ensures Valid() && View() == AfterMount(old(View()), f, loaded)
    {
      Flush();
      Show(f, loaded);
    }

    method Show(f: int, loaded: bool)
      requires Valid()
      modifies `file, `scene, `dirty
      ensures Valid()
      ensures View() == old(View()).(file := Some(f), scene := if loaded then Stored(server, f) else [], dirty := false)
    {
      ghost var q := Saves(queue);
      var shapes := Shapes(if loaded && f in server then server[f] else []);
      assert Saves(queue) == q;
      Put(f, shapes);
    }

    method Put(f: int, shapes: seq<Shape>)
      requires Own(shapes) !! Captured(queue)
      modifies `file, `scene, `dirty
      ensures Valid() && View() == old(View()).(file := Some(f), scene := old(Vals(shapes)), dirty := false)
    {
      file, scene, dirty := Some(f), shapes, false;
    }

    method Shapes(v: Scene) returns (c: seq<Shape>)
      ensures (forall s | s in c :: fresh(s)) && Vals(c) == v
    {
      c := [];
      for i := 0 to |v|
        invariant |c| == i && forall s | s in c :: fresh(s)
        invariant forall k | 0 <= k < i :: c[k].Val() == v[k]
      {
        var s := new Shape(v[i]);
        c := c + [s];
      }
    }
  }
}
