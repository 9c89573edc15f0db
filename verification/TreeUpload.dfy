/** Where a resumable upload ends up when its destination is trashed, restored or purged while the
    session is open. */
module TreeUpload {
  import opened Basics
  import opened Forest
  import opened TreeSpec
  import opened TreeInvariants

  /** As long as the session is there it belongs to the same owner and project, both of them rows, and
      points at folder `p` exactly as long as `p` is a row. */
  ghost predicate Bound(s: State, sid: int, p: int, owner: int, project: Option<int>) {
    && sid in s.used.sessions && p in s.used.folders
    && (sid in s.sessions ==>
          && s.sessions[sid].owner == owner && s.sessions[sid].project == project && RefersToRows(s, owner, project)
          && s.sessions[sid].folder == if p in s.folders then Some(p) else None)
  }

  lemma DropKeepsBound(s: State, ids: set<int>, sid: int, p: int, owner: int, project: Option<int>)
    requires Bound(s, sid, p, owner, project)
    ensures Bound(DropFolders(s, ids), sid, p, owner, project)
  {
  }

  lemma DeleteUserKeepsBound(s: State, u: int, actor: int, ok: bool, sid: int, p: int, owner: int, project: Option<int>)
    requires Bound(s, sid, p, owner, project)
    ensures Bound(DeleteUser(s, u, actor, ok), sid, p, owner, project)
  {
    var r := Reassign(s, u, actor);
    assert Bound(r, sid, p, owner, project);
    var t := r.(users := r.users - {u},
                files := map f | f in r.files && r.files[f].owner != u :: r.files[f],
                sessions := map x | x in r.sessions && r.sessions[x].owner != u :: r.sessions[x]);
    DropKeepsBound(t, OwnedFolders(r, u), sid, p, owner, project);
  }

  lemma DeleteProjectKeepsBound(s: State, q: int, sid: int, p: int, owner: int, project: Option<int>)
    requires Bound(s, sid, p, owner, project)
    ensures Bound(DeleteProject(s, q), sid, p, owner, project)
  {
    var t := s.(projects := s.projects - {q},
                files := map f | f in s.files && s.files[f].project != Some(q) :: s.files[f],
                sessions := map x | x in s.sessions && s.sessions[x].project != Some(q) :: s.sessions[x]);
    DropKeepsBound(t, ProjectFolders(s, q), sid, p, owner, project);
  }

  lemma FolderStepKeepsBound(s: State, op: Op, sid: int, p: int, owner: int, project: Option<int>)
    requires Bound(s, sid, p, owner, project) && OnFolders(op)
    ensures Bound(Apply(s, op), sid, p, owner, project)
  {
    match op
    case OpCreateFolder(_, _, _, _, _, _) =>
    case OpMoveFolder(_, _, _, _) =>
    case OpDeleteFolder(_, _) =>
    case OpRestoreFolder(_, _) =>
    case OpPurgeFolder(_, _) =>
  }

  lemma FileStepKeepsBound(s: State, op: Op, sid: int, p: int, owner: int, project: Option<int>)
    requires Bound(s, sid, p, owner, project) && OnFiles(op)
    ensures Bound(Apply(s, op), sid, p, owner, project)
  {
    match op
    case OpInitUpload(_, _, _, _, _, _) =>
    case OpCompleteUpload(_, _, _, _) =>
    case _ =>
  }

  lemma StepKeepsBound(s: State, op: Op, sid: int, p: int, owner: int, project: Option<int>)
    requires Bound(s, sid, p, owner, project)
    ensures Bound(Apply(s, op), sid, p, owner, project)
  {
    if OnFolders(op) {
      FolderStepKeepsBound(s, op, sid, p, owner, project);
    } else if OnFiles(op) {
      FileStepKeepsBound(s, op, sid, p, owner, project);
    } else {
      match op
      case OpDeleteUser(u, actor, ok) => DeleteUserKeepsBound(s, u, actor, ok, sid, p, owner, project);
      case OpDeleteProject(q) => DeleteProjectKeepsBound(s, q, sid, p, owner, project);
      case _ =>
    }
  }

  lemma {:induction false} RunKeepsBound(s: State, ops: seq<Op>, sid: int, p: int, owner: int, project: Option<int>)
    requires Bound(s, sid, p, owner, project)
    ensures Bound(Run(s, ops), sid, p, owner, project)
    decreases |ops|
  {
    if ops != [] {
      StepKeepsBound(s, ops[0], sid, p, owner, project);
      RunKeepsBound(Apply(s, ops[0]), ops[1..], sid, p, owner, project);
    }
  }

  /** After any run since the upload began, completing it puts the file in `p` if and only if `p` is live,
      abandons it if and only if `p` is in the trash, and puts the file at the root if and only if the
      row of `p` is gone, however it went. */
  lemma UploadLandsWhere(s: State, sid: int, user: int, p: int, scope: string, given: Option<int>, ops: seq<Op>, id: int)
    requires Inv(s) && sid !in s.used.sessions && UploadAccepted(s, user, Some(p), scope, given, true)
    requires var t := Run(InitUpload(s, sid, user, Some(p), scope, given, true), ops);
             sid in t.sessions && id !in t.used.files
    ensures var t := Run(InitUpload(s, sid, user, Some(p), scope, given, true), ops);
            var c := CompleteUpload(t, sid, id, true, Stored);
            && (id in c.files && c.files[id].folder == Some(p) <==> LiveFolder(t, p))
            && (c.files == t.files <==> p in t.folders && t.folders[p].deleted.Some?)
            && (id in c.files && c.files[id].folder == None <==> p !in t.folders)
            && c.sessions == t.sessions - {sid}
  {
    var s1 := InitUpload(s, sid, user, Some(p), scope, given, true);
    InitUploadKeepsInv(s, sid, user, Some(p), scope, given, true);
    RunKeepsInv(s1, ops);
    assert p in s.folders.Keys;
    assert Bound(s1, sid, p, user, UploadProject(scope, given));
    RunKeepsBound(s1, ops, sid, p, user, UploadProject(scope, given));
  }

  const ROW := Folder(None, 1, None, "personal", None)

  /** User 1 has folder 3 and an upload into it. */
  const OPEN := State(map[3 := ROW], map[], map[20 := Session(Some(3), 1, None, "personal")], {1}, {}, 0,
                      Ids({3}, {}, {20}), Idle)

  const TRASHED := OPEN.(folders := map[3 := ROW.(deleted := Some(0))])

  const GONE := OPEN.(folders := map[], sessions := map[20 := Session(None, 1, None, "personal")])

  const AT_ROOT := GONE.(files := map[5 := File(None, 1, None, "personal", None)], sessions := map[],
                         used := Ids({3}, {5}, {20}))

  lemma OpensUpload()
    ensures var s := EMPTY.(users := {} + {1});
            var t := CreateFolder(s, 3, 1, None, "personal", None, true);
            InitUpload(t, 20, 1, Some(3), "personal", None, true) == OPEN
  {
    var s := EMPTY.(users := {} + {1});
    var t := CreateFolder(s, 3, 1, None, "personal", None, true);
    assert t.folders == OPEN.folders && t.used.folders == {3};
    assert InitUpload(t, 20, 1, Some(3), "personal", None, true).sessions == OPEN.sessions;
  }

  lemma TrashesAndPurges()
    ensures DeleteFolder(OPEN, 3, true) == TRASHED && PurgeFolder(TRASHED, 3, true) == GONE
  {
    UnderSelf(Links(OPEN.folders), 3);
    UnderSelf(Links(TRASHED.folders), 3);
    assert Subtree(OPEN, 3) == {3} && Subtree(TRASHED, 3) == {3};
    assert DeleteFolder(OPEN, 3, true).folders == TRASHED.folders;
    assert DeleteFolder(OPEN, 3, true).files == TRASHED.files;
    assert RemoveFilesIn(TRASHED, {3}) == TRASHED by { assert RemoveFilesIn(TRASHED, {3}).files == map[]; }
    assert CascadeOf(TRASHED, {3}) == {3};
    var t := RemoveFolders(TRASHED, {3});
    assert t.folders == map[] && t.files == map[] && t.sessions == GONE.sessions;
  }

  lemma RunOfThree(s: State, a: Op, b: Op, c: Op)
    ensures Run(s, [a, b, c]) == Apply(Apply(Apply(s, a), b), c)
  {
    assert [a, b, c][1..] == [b, c] && [b, c][1..] == [c] && [c][1..] == [];
    assert Run(Apply(Apply(s, a), b), [c]) == Run(Apply(Apply(Apply(s, a), b), c), []);
    assert Run(Apply(s, a), [b, c]) == Run(Apply(Apply(s, a), b), [c]);
  }

  lemma RunOpens()
    ensures Run(EMPTY, [OpAddUser(1), OpCreateFolder(3, 1, None, "personal", None, true),
                        OpInitUpload(20, 1, Some(3), "personal", None, true)]) == OPEN
  {
    var b, c := OpCreateFolder(3, 1, None, "personal", None, true), OpInitUpload(20, 1, Some(3), "personal", None, true);
    RunOfThree(EMPTY, OpAddUser(1), b, c);
    OpensUpload();
  }

  lemma CompletesAtRoot()
    ensures CompleteUpload(GONE, 20, 5, true, Stored) == AT_ROOT
  {
    assert CompleteUpload(GONE, 20, 5, true, Stored).sessions == map[];
    assert CompleteUpload(GONE, 20, 5, true, Stored).files == AT_ROOT.files;
  }

  lemma RunLosesFolder()
    ensures Run(OPEN, [OpDeleteFolder(3, true), OpPurgeFolder(3, true), OpCompleteUpload(20, 5, true, Stored)]) == AT_ROOT
  {
    RunOfThree(OPEN, OpDeleteFolder(3, true), OpPurgeFolder(3, true), OpCompleteUpload(20, 5, true, Stored));
    TrashesAndPurges();
    CompletesAtRoot();
  }

  /** A run in which the destination is trashed and then purged while the session is open: the upload is
      not stopped, and the file lands at the root. */
  lemma UploadOutlivesItsFolder()
    ensures var s := Run(EMPTY, [OpAddUser(1), OpCreateFolder(3, 1, None, "personal", None, true),
                                 OpInitUpload(20, 1, Some(3), "personal", None, true)]);
            var t := Run(s, [OpDeleteFolder(3, true), OpPurgeFolder(3, true), OpCompleteUpload(20, 5, true, Stored)]);
            t.folders == map[] && t.sessions == map[] && t.files == map[5 := File(None, 1, None, "personal", None)]
  {
    RunOpens();
    RunLosesFolder();
  }
}
