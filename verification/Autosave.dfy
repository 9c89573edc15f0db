/** Saving the markup layer: a dirty flag, and a chain of saves that run one after another. Edits,
    flushes, answers from the server and image switches interleave freely; an edit is a whole gesture
    and mounting an image includes its load. */
module Autosave {
  import opened Basics
  import opened MarkupHistory

  /** A queued save: what it captured when it was issued. */
  datatype Save = Save(file: int, payload: Scene)

  /** `queue` are the saves still unanswered, oldest first; `issued` and `answers` are the history of
      saves issued and of their outcomes so far. */
  datatype State = State(file: Option<int>, scene: Scene, dirty: bool, queue: seq<Save>,
                         server: map<int, Scene>, issued: seq<Save>, answers: seq<bool>)

  datatype Op =
    | Edit(scene: Scene)
    | Flush
    | Answer(ok: bool)
    | Mount(file: int, loaded: bool)

  function Stored(server: map<int, Scene>, f: int): Scene {
    if f in server then server[f] else []
  }

  function AfterEdit(s: State, scene: Scene): State {
    if s.file.None? then s else s.(scene := scene, dirty := true)
  }

  /** File and shapes are captured at once, and the flag is cleared before the request runs. */
  function AfterFlush(s: State): State {
    if !s.dirty || s.file.None? then s
    else
      var save := Save(s.file.value, s.scene);
      s.(dirty := false, queue := s.queue + [save], issued := s.issued + [save])
  }

  /** The oldest save is answered. A failure re-arms the flag only for the image still on screen. */
  function AfterAnswer(s: State, ok: bool): State {
    if s.queue == [] then s
    else
      var save := s.queue[0];
      var t := s.(queue := s.queue[1..], answers := s.answers + [ok]);
      if ok then t.(server := s.server[save.file := save.payload])
      else if s.file == Some(save.file) then t.(dirty := true)
      else t
  }

  /** Leaving the old image flushes it; a failed load shows an empty layer. */
  function AfterMount(s: State, f: int, loaded: bool): State {
    AfterFlush(s).(file := Some(f), scene := if loaded then Stored(s.server, f) else [], dirty := false)
  }

  function Apply(s: State, op: Op): State {
    match op
    case Edit(scene) => AfterEdit(s, scene)
    case Flush => AfterFlush(s)
    case Answer(ok) => AfterAnswer(s, ok)
    case Mount(f, loaded) => AfterMount(s, f, loaded)
  }

  function Run(s: State, ops: seq<Op>): State
    decreases |ops|
  {
    if ops == [] then s else Run(Apply(s, ops[0]), ops[1..])
  }

  function Start(server: map<int, Scene>): State {
    State(None, [], false, [], server, [], [])
  }

  // ---------- a clean layer is a saved layer ----------

  /** The newest queued payload for a file. */
  function Newest(queue: seq<Save>, f: int): Option<Scene> {
    if queue == [] then None
    else if queue[|queue| - 1].file == f then Some(queue[|queue| - 1].payload)
    else Newest(queue[..|queue| - 1], f)
  }

  /** What the server will hold for `f` if every queued save succeeds. */
  function Expected(s: State, f: int): Scene {
    match Newest(s.queue, f)
    case Some(p) => p
    case None => Stored(s.server, f)
  }

  /** A clean layer agrees with what is saved or on its way. */
  predicate Agrees(s: State) {
    s.file.Some? && !s.dirty ==> Expected(s, s.file.value) == s.scene
  }

  lemma {:induction false} NewestAfterAnswer(queue: seq<Save>, f: int)
    requires queue != []
    ensures Newest(queue[1..], f).Some? ==> Newest(queue, f) == Newest(queue[1..], f)
    ensures Newest(queue[1..], f).None? ==>
              Newest(queue, f) == if queue[0].file == f then Some(queue[0].payload) else None
  {
    if |queue| > 1 {
      var front := queue[..|queue| - 1];
      assert queue[1..][..|queue| - 2] == front[1..];
      NewestAfterAnswer(front, f);
    } else {
      assert queue[..0] == [];
    }
  }

  /** A gesture shows at once and arms the flag; with no image on screen there is nothing to edit. */
  lemma EditExact(s: State, scene: Scene)
    ensures var t := AfterEdit(s, scene);
            && (s.file.Some? ==> t.dirty && t.scene == scene) && (s.file.None? ==> t == s)
            && t.file == s.file && t.queue == s.queue && t.server == s.server && t.issued == s.issued && t.answers == s.answers
  {
  }

  /** A flush sends what is unsaved, once, and counts it as saved from then on. */
  lemma FlushExact(s: State)
    ensures var t := AfterFlush(s);
            && t.file == s.file && t.scene == s.scene && t.server == s.server && t.answers == s.answers
            && (if s.dirty && s.file.Some?
                then !t.dirty && t.queue == s.queue + [Save(s.file.value, s.scene)] && t.issued == s.issued + [Save(s.file.value, s.scene)]
                else t == s)
    ensures AfterFlush(AfterFlush(s)) == AfterFlush(s)
  {
  }

  /** The oldest save is answered, and only that one. Succeeding, it is what the server holds for its file;
      failing, it leaves the server alone, and the image it was for, if still on screen, is to be saved
      again. */
  lemma AnswerExact(s: State, ok: bool)
    requires s.queue != []
    ensures var t := AfterAnswer(s, ok); var save := s.queue[0];
            && s.queue == [save] + t.queue && t.answers == s.answers + [ok]
            && t.file == s.file && t.scene == s.scene && t.issued == s.issued
            && (ok ==> Stored(t.server, save.file) == save.payload && t.dirty == s.dirty)
            && (forall f | !ok || f != save.file :: Stored(t.server, f) == Stored(s.server, f))
            && (!ok ==> (t.dirty <==> s.dirty || s.file == Some(save.file)))
  {
  }

  /** Mounting an image shows what was loaded and sends what was unsaved of the one left: when that agreed
      with what was saved or on its way, nothing of it is lost. */
  lemma MountLosesNothing(s: State, f: int, loaded: bool)
    requires Agrees(s)
    ensures var t := AfterMount(s, f, loaded);
            && t.file == Some(f) && !t.dirty && t.scene == (if loaded then Stored(s.server, f) else [])
            && t.server == s.server && t.answers == s.answers
            && (s.file.Some? ==> Expected(t, s.file.value) == s.scene)
            && (forall g | s.file != Some(g) :: Expected(t, g) == Expected(s, g))
  {
    if s.dirty && s.file.Some? {
      var save := Save(s.file.value, s.scene);
      assert (s.queue + [save])[..|s.queue|] == s.queue;
    }
  }

  /** While one image stays mounted, every edit, flush, success and failure keeps the agreement. */
  lemma StepKeepsAgreement(s: State, op: Op)
    requires Agrees(s) && !op.Mount?
    ensures Agrees(Apply(s, op)) && Apply(s, op).file == s.file
  {
    match op
    case Answer(ok) =>
      if s.queue != [] && s.file.Some? {
        NewestAfterAnswer(s.queue, s.file.value);
      }
    case Flush =>
      if s.dirty && s.file.Some? {
        var q := s.queue + [Save(s.file.value, s.scene)];
        assert Newest(q, s.file.value) == Some(s.scene);
      }
    case Edit(_) =>
  }

  lemma {:induction false} MountedRunKeepsAgreement(s: State, ops: seq<Op>)
    requires Agrees(s) && forall op | op in ops :: !op.Mount?
    ensures Agrees(Run(s, ops)) && Run(s, ops).file == s.file
    decreases |ops|
  {
    if ops != [] {
      assert ops[0] in ops;
      StepKeepsAgreement(s, ops[0]);
      MountedRunKeepsAgreement(Apply(s, ops[0]), ops[1..]);
    }
  }

  /** A freshly mounted image agrees exactly when no older save for it is still queued (or that save
      holds just what was loaded) and, with none queued, the load succeeded (or there was nothing to
      load). The queue looked at includes the flush of the image being left. */
  lemma MountAgreesIff(s: State, f: int, loaded: bool)
    ensures var shown := if loaded then Stored(s.server, f) else [];
            Agrees(AfterMount(s, f, loaded)) <==>
            match Newest(AfterFlush(s).queue, f)
            case None => loaded || Stored(s.server, f) == []
            case Some(p) => p == shown
  {
  }

  /** From any mount that agrees, whatever follows on that image, the agreement holds. */
  lemma AgreementSinceMount(s: State, f: int, loaded: bool, ops: seq<Op>)
    requires Agrees(AfterMount(s, f, loaded))
    requires forall op | op in ops :: !op.Mount?
    ensures Agrees(Run(AfterMount(s, f, loaded), ops))
  {
    MountedRunKeepsAgreement(AfterMount(s, f, loaded), ops);
  }

  /** A run that breaks it: draw on image 1, look at image 2 and come back before the save of image 1
      is answered. The layer is clean, shows nothing, and the save on its way holds the drawing. */
  lemma QuickReturnDisagrees(drawn: ShapeVal)
    ensures !Agrees(Run(Start(map[]), [Mount(1, true), Edit([drawn]), Mount(2, true), Mount(1, true)]))
  {
    var a := AfterMount(Start(map[]), 1, true);
    var b := AfterEdit(a, [drawn]);
    var c := AfterMount(b, 2, true);
    var d := AfterMount(c, 1, true);
    assert c.queue == [Save(1, [drawn])];
    assert d.queue == [Save(1, [drawn])] && d.scene == [];
    assert Newest(d.queue, 1) == Some([drawn]);
    var ops := [Mount(1, true), Edit([drawn]), Mount(2, true), Mount(1, true)];
    assert Run(Start(map[]), ops) == Run(a, ops[1..]) == Run(b, ops[1..][1..]) == Run(c, ops[1..][1..][1..]);
    assert ops[1..][1..][1..][1..] == [];
    assert Run(c, ops[1..][1..][1..]) == Run(d, []);
  }

  function AllAnswered(n: nat): seq<Op> {
    seq(n, _ => Answer(true))
  }

  lemma {:induction false} AnswersDrainQueue(s: State, f: int)
    ensures var t := Run(s, AllAnswered(|s.queue|));
            t.queue == [] && Stored(t.server, f) == Expected(s, f) && t.scene == s.scene && t.file == s.file
    decreases |s.queue|
  {
    if s.queue != [] {
      NewestAfterAnswer(s.queue, f);
      assert AllAnswered(|s.queue|)[1..] == AllAnswered(|s.queue| - 1);
      AnswersDrainQueue(AfterAnswer(s, true), f);
    } else {
      assert AllAnswered(0) == [];
    }
  }

  /** Once flushed and answered without failure, the server holds exactly what is on the canvas. */
  lemma FlushedMeansSaved(s: State)
    requires Agrees(s) && s.file.Some?
    ensures var t := AfterFlush(s);
            Stored(Run(t, AllAnswered(|t.queue|)).server, s.file.value) == s.scene
  {
    StepKeepsAgreement(s, Flush);
    var t := AfterFlush(s);
    AnswersDrainQueue(t, s.file.value);
  }

  // ---------- saves land in issue order, each on its own file ----------

  /** The successful saves among those answered, applied oldest first. */
  function Landed(server: map<int, Scene>, issued: seq<Save>, answers: seq<bool>): map<int, Scene>
    requires |answers| <= |issued|
  {
    if answers == [] then server
    else
      var n := |answers| - 1;
      var before := Landed(server, issued, answers[..n]);
      if answers[n] then before[issued[n].file := issued[n].payload] else before
  }

  predicate InOrder(s: State, server: map<int, Scene>) {
    && |s.answers| + |s.queue| == |s.issued|
    && s.queue == s.issued[|s.answers|..]
    && s.server == Landed(server, s.issued, s.answers)
  }

  lemma {:induction false} LandedIgnoresLater(server: map<int, Scene>, issued: seq<Save>, more: seq<Save>, answers: seq<bool>)
    requires |answers| <= |issued|
    ensures Landed(server, issued + more, answers) == Landed(server, issued, answers)
    decreases |answers|
  {
    if answers != [] {
      LandedIgnoresLater(server, issued, more, answers[..|answers| - 1]);
    }
  }

  lemma StepKeepsOrder(s: State, server: map<int, Scene>, op: Op)
    requires InOrder(s, server)
    ensures InOrder(Apply(s, op), server)
  {
    match op
    case Edit(_) =>
    case Flush => FlushKeepsOrder(s, server);
    case Mount(_, _) => FlushKeepsOrder(s, server);
    case Answer(ok) => if s.queue != [] { AnswerKeepsOrder(s, server, ok); }
  }

  lemma AnswerKeepsOrder(s: State, server: map<int, Scene>, ok: bool)
    requires InOrder(s, server) && s.queue != []
    ensures InOrder(Apply(s, Answer(ok)), server)
  {
    var n := |s.answers|;
    assert s.queue[0] == s.issued[n];
    assert (s.answers + [ok])[..n] == s.answers;
    assert s.issued[n..][1..] == s.issued[n + 1..];
  }

  lemma FlushKeepsOrder(s: State, server: map<int, Scene>)
    requires InOrder(s, server)
    ensures InOrder(AfterFlush(s), server)
  {
    if s.dirty && s.file.Some? {
      LandedIgnoresLater(server, s.issued, [Save(s.file.value, s.scene)], s.answers);
    }
  }

  lemma {:induction false} RunKeepsOrder(s: State, server: map<int, Scene>, ops: seq<Op>)
    requires InOrder(s, server)
    ensures InOrder(Run(s, ops), server)
    decreases |ops|
  {
    if ops != [] {
      StepKeepsOrder(s, server, ops[0]);
      RunKeepsOrder(Apply(s, ops[0]), server, ops[1..]);
    }
  }

  /** Index of the last successful save for `f` among the answered ones, or none. */
  ghost predicate LastLanding(issued: seq<Save>, answers: seq<bool>, f: int, i: int)
    requires |answers| <= |issued|
  {
    && 0 <= i < |answers| && answers[i] && issued[i].file == f
    && forall j | i < j < |answers| :: !(answers[j] && issued[j].file == f)
  }

  lemma {:induction false} LandedIs(server: map<int, Scene>, issued: seq<Save>, answers: seq<bool>, f: int, i: int)
    requires |answers| <= |issued| && LastLanding(issued, answers, f, i)
    ensures Stored(Landed(server, issued, answers), f) == issued[i].payload
    decreases |answers|
  {
    var n := |answers| - 1;
    if i < n {
      LandedIs(server, issued, answers[..n], f, i);
      assert !(answers[n] && issued[n].file == f);
    }
  }

  lemma {:induction false} NothingLanded(server: map<int, Scene>, issued: seq<Save>, answers: seq<bool>, f: int)
    requires |answers| <= |issued|
    requires forall j | 0 <= j < |answers| :: !(answers[j] && issued[j].file == f)
    ensures Stored(Landed(server, issued, answers), f) == Stored(server, f)
    decreases |answers|
  {
    if answers != [] {
      var n := |answers| - 1;
      NothingLanded(server, issued, answers[..n], f);
      assert !(answers[n] && issued[n].file == f);
    }
  }

  /** In every run, across failures and image switches: the server holds for each file the payload of
      the last successful save issued for that file, and nothing of any other file. */
  lemma ServerHoldsLastSuccessfulSave(server: map<int, Scene>, ops: seq<Op>, f: int)
    ensures var s := Run(Start(server), ops);
            && |s.answers| <= |s.issued| && s.queue == s.issued[|s.answers|..]
            && (forall i | LastLanding(s.issued, s.answers, f, i) :: Stored(s.server, f) == s.issued[i].payload)
            && ((forall j | 0 <= j < |s.answers| :: !(s.answers[j] && s.issued[j].file == f)) ==>
                  Stored(s.server, f) == Stored(server, f))
  {
    RunKeepsOrder(Start(server), server, ops);
    var s := Run(Start(server), ops);
    forall i | LastLanding(s.issued, s.answers, f, i) ensures Stored(s.server, f) == s.issued[i].payload {
      LandedIs(server, s.issued, s.answers, f, i);
    }
    if forall j | 0 <= j < |s.answers| :: !(s.answers[j] && s.issued[j].file == f) {
      NothingLanded(server, s.issued, s.answers, f);
    }
  }
}
