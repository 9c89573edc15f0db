/** What every run of the file-tree steps keeps, and what hard deletion may and may not take. */
module TreeInvariants {
  import opened Basics
  import opened Forest
  import opened TreeSpec

  // ---------- the invariant ----------

  /** Foreign keys: no parent_id or folder_id dangles. */
  ghost predicate RefsResolve(s: State) {
    && (forall d | d in s.folders && s.folders[d].parent.Some? :: s.folders[d].parent.value in s.folders)
    && (forall f | f in s.files && s.files[f].folder.Some? :: s.files[f].folder.value in s.folders)
    && (forall u | u in s.sessions && s.sessions[u].folder.Some? :: s.sessions[u].folder.value in s.folders)
  }

  /** A row directly under a trashed folder carries exactly that folder's stamp; under a live
      folder it may be live or trashed. So nothing live sits in the trash. */
  predicate StampAgrees(place: Option<int>, deleted: Option<int>, folders: map<int, Folder>) {
    place.Some? && place.value in folders && folders[place.value].deleted.Some?
    ==> deleted == folders[place.value].deleted
  }

  /** A link joins rows of one scope and project, and of one owner when personal. */
  predicate SpaceAgrees(place: Option<int>, scope: string, project: Option<int>, owner: int, folders: map<int, Folder>) {
    place.Some? && place.value in folders ==> SameSpace(scope, project, owner, folders[place.value])
  }

  predicate FolderSound(r: Folder, folders: map<int, Folder>) {
    && StampAgrees(r.parent, r.deleted, folders)
    && SpaceAgrees(r.parent, r.scope, r.project, r.owner, folders)
    && (r.scope != "project" ==> r.project.None?)
  }

  predicate FileSound(r: File, folders: map<int, Folder>) {
    StampAgrees(r.folder, r.deleted, folders) && SpaceAgrees(r.folder, r.scope, r.project, r.owner, folders)
  }

  predicate SessionSound(r: Session, folders: map<int, Folder>) {
    SpaceAgrees(r.folder, r.scope, r.project, r.owner, folders)
  }

  /** Every link of every row is sound. */
  ghost predicate RowsSound(s: State) {
    && (forall d | d in s.folders :: FolderSound(s.folders[d], s.folders))
    && (forall f | f in s.files :: FileSound(s.files[f], s.folders))
    && (forall u | u in s.sessions :: SessionSound(s.sessions[u], s.folders))
  }

  /** Between its statements the janitor has listed, and then removed, every file older than its cutoff,
      and then listed every folder that is. */
  ghost predicate SweepHolds(s: State) {
    && (!s.sweep.Idle? ==> s.sweep.cutoff <= s.now)
    && (forall f | f in s.files && !s.sweep.Idle? && Expired(s.files[f].deleted, s.sweep.cutoff) ::
          s.sweep.FilesListed? && f in s.sweep.ids)
    && (forall d | d in s.folders && s.sweep.FoldersListed? && Expired(s.folders[d].deleted, s.sweep.cutoff) ::
          d in s.sweep.ids)
  }

  ghost predicate IdsUsed(s: State) {
    s.folders.Keys <= s.used.folders && s.files.Keys <= s.used.files && s.sessions.Keys <= s.used.sessions
  }

  ghost predicate Inv(s: State) {
    RefsResolve(s) && IsForest(Links(s.folders)) && RowsSound(s) && IdsUsed(s) && SweepHolds(s)
  }

  // ---------- trash is uniform below a trashed folder ----------

  /** Whatever lies below a trashed folder, at any depth, carries that folder's stamp. */
  lemma {:induction false} BelowTrashSameStamp(s: State, a: int, d: int, n: nat)
    requires RowsSound(s) && a in s.folders && s.folders[a].deleted.Some?
    requires Up(Links(s.folders), d, n) == Some(a)
    ensures d in s.folders && s.folders[d].deleted == s.folders[a].deleted
    decreases n
  {
    if n > 0 {
      BelowTrashSameStamp(s, a, s.folders[d].parent.value, n - 1);
    }
  }

  lemma SubtreeOfTrash(s: State, a: int, d: int)
    requires RowsSound(s) && a in s.folders && s.folders[a].deleted.Some?
    requires Under(Links(s.folders), a, d)
    ensures d in s.folders && s.folders[d].deleted == s.folders[a].deleted
  {
    var n: nat :| Up(Links(s.folders), d, n) == Some(a);
    BelowTrashSameStamp(s, a, d, n);
  }

  /** The same along a link of a space: scope, project and personal owner hold for a whole subtree. */
  lemma {:induction false} BelowSameSpace(s: State, a: int, d: int, n: nat)
    requires RowsSound(s) && a in s.folders
    requires Up(Links(s.folders), d, n) == Some(a)
    ensures d in s.folders
    ensures SameSpace(s.folders[d].scope, s.folders[d].project, s.folders[d].owner, s.folders[a])
    decreases n
  {
    if n > 0 {
      var r := s.folders[d];
      assert Up(Links(s.folders), r.parent.value, n - 1) == Some(a);
      BelowSameSpace(s, a, r.parent.value, n - 1);
      assert FolderSound(r, s.folders);
    }
  }

  lemma SubtreeOneSpace(s: State, a: int, d: int)
    requires RowsSound(s) && a in s.folders && Under(Links(s.folders), a, d)
    ensures d in s.folders
    ensures SameSpace(s.folders[d].scope, s.folders[d].project, s.folders[d].owner, s.folders[a])
  {
    var n: nat :| Up(Links(s.folders), d, n) == Some(a);
    BelowSameSpace(s, a, d, n);
  }

  // ---------- removal keeps the invariant ----------

  /** `t` is `s` with some rows gone and some places cleared, nothing else changed. */
  ghost predicate Shrunk(s: State, t: State) {
    && t.now == s.now && t.used == s.used && t.sweep == s.sweep
    && (forall d | d in t.folders :: d in s.folders && t.folders[d] == s.folders[d])
    && (forall f | f in t.files :: f in s.files &&
          (t.files[f] == s.files[f] || t.files[f] == s.files[f].(folder := None)))
    && (forall u | u in t.sessions :: u in s.sessions &&
          (t.sessions[u] == s.sessions[u] || t.sessions[u] == s.sessions[u].(folder := None)))
  }

  lemma PlaceKept(s: State, t: State, place: Option<int>)
    requires Shrunk(s, t)
    ensures place.Some? && place.value in t.folders ==>
              place.value in s.folders && t.folders[place.value] == s.folders[place.value]
  {
    if place.Some? {
      var p: int := place.value;
      assert p in t.folders ==> p in s.folders && t.folders[p] == s.folders[p];
    }
  }

  lemma ShrinkKeepsInv(s: State, t: State)
    requires Inv(s) && Shrunk(s, t) && RefsResolve(t)
    ensures Inv(t)
  {
    RemovalKeepsForest(Links(s.folders), Links(t.folders));
    forall d | d in t.folders.Keys ensures d in s.folders.Keys { assert d in t.folders; }
    forall f | f in t.files.Keys ensures f in s.files.Keys { assert f in t.files; }
    forall u | u in t.sessions.Keys ensures u in s.sessions.Keys { assert u in t.sessions; }
    forall d | d in t.folders ensures FolderSound(t.folders[d], t.folders) {
      assert FolderSound(s.folders[d], s.folders);
      PlaceKept(s, t, t.folders[d].parent);
    }
    forall f | f in t.files ensures FileSound(t.files[f], t.folders) {
      assert FileSound(s.files[f], s.folders);
      PlaceKept(s, t, t.files[f].folder);
    }
    forall u | u in t.sessions ensures SessionSound(t.sessions[u], t.folders) {
      assert SessionSound(s.sessions[u], s.folders);
      PlaceKept(s, t, t.sessions[u].folder);
    }
  }

  lemma CascadeClosed(s: State, ids: set<int>, d: int)
    requires d in s.folders && s.folders[d].parent.Some? && s.folders[d].parent.value in CascadeOf(s, ids)
    ensures d in CascadeOf(s, ids)
  {
    var g := Links(s.folders);
    var a :| a in ids && Under(g, a, s.folders[d].parent.value);
    UnderParent(g, a, d);
  }

  lemma DropFoldersShrinks(s: State, ids: set<int>)
    requires RefsResolve(s)
    ensures Shrunk(s, DropFolders(s, ids)) && RefsResolve(DropFolders(s, ids))
  {
    var t := DropFolders(s, ids);
    forall d | d in t.folders && t.folders[d].parent.Some? ensures t.folders[d].parent.value in t.folders {
      if t.folders[d].parent.value in CascadeOf(s, ids) {
        CascadeClosed(s, ids, d);
      }
    }
  }

  // ---------- every step keeps the invariant ----------

  lemma LinksOfUpdate(fs: map<int, Folder>, id: int, f: Folder)
    ensures Links(fs[id := f]) == Links(fs)[id := f.parent]
  {
  }

  lemma CreateFolderKeepsInv(s: State, id: int, user: int, parent: Option<int>, scope: string,
                             project: Option<int>, permitted: bool)
    requires Inv(s)
    ensures Inv(CreateFolder(s, id, user, parent, scope, project, permitted))
  {
    var t := CreateFolder(s, id, user, parent, scope, project, permitted);
    if t != s {
      LinksOfUpdate(s.folders, id, t.folders[id]);
      InsertKeepsForest(Links(s.folders), id, parent);
    }
  }

  lemma MoveFolderKeepsInv(s: State, id: int, dest: Option<int>, canEdit: bool, canEditDest: bool)
    requires Inv(s)
    ensures Inv(MoveFolder(s, id, dest, canEdit, canEditDest))
  {
    var t := MoveFolder(s, id, dest, canEdit, canEditDest);
    if t != s {
      LinksOfUpdate(s.folders, id, t.folders[id]);
      ReparentKeepsForest(Links(s.folders), id, dest);
    }
  }

  lemma DeleteFolderKeepsInv(s: State, id: int, permitted: bool)
    requires Inv(s)
    ensures Inv(DeleteFolder(s, id, permitted))
  {
    var g := Links(s.folders);
    var ids := Subtree(s, id);
    var t := DeleteFolder(s, id, permitted);
    if LiveFolder(s, id) && permitted {
      assert Links(t.folders) == g;
      forall d | d in t.folders ensures FolderSound(t.folders[d], t.folders) {
        var r := s.folders[d];
        assert FolderSound(r, s.folders);
        if r.parent.Some? && r.parent.value in ids {
          UnderParent(g, id, d);
        } else if d in ids && d != id {
          UnderStep(g, id, d);
        }
      }
      forall f | f in t.files ensures FileSound(t.files[f], t.folders) {
        assert FileSound(s.files[f], s.folders);
      }
      forall u | u in t.sessions ensures SessionSound(t.sessions[u], t.folders) {
        assert SessionSound(s.sessions[u], s.folders);
      }
    }
  }

  lemma RestoreFolderKeepsInv(s: State, id: int, permitted: bool)
    requires Inv(s)
    ensures Inv(RestoreFolder(s, id, permitted))
  {
    var g := Links(s.folders);
    var t := RestoreFolder(s, id, permitted);
    if t != s {
      var p := t.folders[id].parent;
      LinksOfUpdate(s.folders, id, t.folders[id]);
      if p.Some? && Under(g, id, p.value) {
        SubtreeOfTrash(s, id, p.value);
      }
      ReparentKeepsForest(g, id, p);
    }
  }

  lemma EmptyTrashKeepsInv(s: State, user: int)
    requires Inv(s)
    ensures Inv(EmptyTrash(s, user)) && Shrunk(s, EmptyTrash(s, user))
  {
    var gone := CascadeOf(s, TrashedFoldersOf(s, user));
    var t := EmptyTrash(s, user);
    forall d | d in t.folders && t.folders[d].parent.Some? ensures t.folders[d].parent.value in t.folders {
      if t.folders[d].parent.value in gone {
        CascadeClosed(s, TrashedFoldersOf(s, user), d);
      }
    }
    ShrinkKeepsInv(s, t);
  }

  lemma PurgeTreeShrinks(s: State, id: int)
    requires Inv(s)
    ensures Inv(PurgeTree(s, id)) && Shrunk(s, PurgeTree(s, id))
  {
    var t := RemoveFilesIn(s, Subtree(s, id));
    DropFoldersShrinks(t, Subtree(s, id));
    ShrinkKeepsInv(s, PurgeTree(s, id));
  }

  lemma RemoveFilesKeepsInv(s: State, ids: set<int>)
    requires Inv(s)
    ensures Inv(RemoveFiles(s, ids))
  {
    ShrinkKeepsInv(s, RemoveFiles(s, ids));
  }

  lemma RemoveFilesInKeepsInv(s: State, ids: set<int>)
    requires Inv(s)
    ensures Inv(RemoveFilesIn(s, ids))
  {
    ShrinkKeepsInv(s, RemoveFilesIn(s, ids));
  }

  lemma DropFoldersKeepsInv(s: State, ids: set<int>)
    requires Inv(s)
    ensures Inv(DropFolders(s, ids))
  {
    DropFoldersShrinks(s, ids);
    ShrinkKeepsInv(s, DropFolders(s, ids));
  }

  /** The three calls that remove rows keep the invariant whatever ids they are given, and so in
      whatever state the others have left. */
  lemma PurgeCallsKeepInv(s: State, ids: set<int>)
    requires Inv(s)
    ensures Inv(RemoveFiles(s, ids)) && Inv(RemoveFilesIn(s, ids)) && Inv(DropFolders(s, ids))
  {
    RemoveFilesKeepsInv(s, ids);
    RemoveFilesInKeepsInv(s, ids);
    DropFoldersKeepsInv(s, ids);
  }

  lemma JanitorKeepsInv(s: State)
    requires Inv(s)
    ensures Inv(JanitorList(s)) && Inv(JanitorFiles(s)) && Inv(JanitorListFolders(s)) && Inv(JanitorFolders(s))
  {
    if s.sweep.FilesListed? { RemoveFilesKeepsInv(s, s.sweep.ids); }
    if s.sweep.FoldersListed? { DropFoldersKeepsInv(s, s.sweep.ids); }
  }

  lemma ReassignKeepsInv(s: State, from: int, to: int)
    requires Inv(s)
    ensures Inv(Reassign(s, from, to))
  {
    var t := Reassign(s, from, to);
    assert Links(t.folders) == Links(s.folders);
    forall d | d in t.folders ensures FolderSound(t.folders[d], t.folders) {
      assert FolderSound(s.folders[d], s.folders);
    }
    forall f | f in t.files ensures FileSound(t.files[f], t.folders) {
      assert FileSound(s.files[f], s.folders);
    }
    forall u | u in t.sessions ensures SessionSound(t.sessions[u], t.folders) {
      assert SessionSound(s.sessions[u], s.folders);
    }
  }

  lemma DropUserKeepsInv(s: State, user: int)
    requires Inv(s)
    ensures Inv(DropUser(s, user)) && Shrunk(s, DropUser(s, user))
  {
    var t := s.(users := s.users - {user},
                files := map f | f in s.files && s.files[f].owner != user :: s.files[f],
                sessions := map u | u in s.sessions && s.sessions[u].owner != user :: s.sessions[u]);
    DropFoldersShrinks(t, OwnedFolders(s, user));
    ShrinkKeepsInv(s, DropUser(s, user));
  }

  lemma DeleteProjectKeepsInv(s: State, project: int)
    requires Inv(s)
    ensures Inv(DeleteProject(s, project)) && Shrunk(s, DeleteProject(s, project))
  {
    var t := s.(projects := s.projects - {project},
                files := map f | f in s.files && s.files[f].project != Some(project) :: s.files[f],
                sessions := map u | u in s.sessions && s.sessions[u].project != Some(project) :: s.sessions[u]);
    DropFoldersShrinks(t, ProjectFolders(s, project));
    ShrinkKeepsInv(s, DeleteProject(s, project));
  }

  lemma CreateFileKeepsInv(s: State, id: int, user: int, folder: Option<int>, scope: string,
                           project: Option<int>, accepted: bool)
    requires Inv(s)
    ensures Inv(CreateFile(s, id, user, folder, scope, project, accepted))
  {
  }

  lemma InitUploadKeepsInv(s: State, sid: int, user: int, folder: Option<int>, scope: string,
                           project: Option<int>, accepted: bool)
    requires Inv(s)
    ensures Inv(InitUpload(s, sid, user, folder, scope, project, accepted))
  {
  }

  lemma CompleteUploadKeepsInv(s: State, sid: int, id: int, permitted: bool, answer: Completion)
    requires Inv(s)
    ensures Inv(CompleteUpload(s, sid, id, permitted, answer)) && Inv(AbortUpload(s, sid, permitted))
  {
  }

  /** Steps on one live or trashed file row. */
  lemma FileStepsKeepInv(s: State, id: int, dest: Option<int>, ok: bool, okDest: bool)
    requires Inv(s)
    ensures Inv(MoveFile(s, id, dest, ok, okDest))
    ensures Inv(DeleteFile(s, id, ok)) && Inv(RestoreFile(s, id, ok)) && Inv(PurgeFile(s, id, ok))
  {
    MoveFileKeepsInv(s, id, dest, ok, okDest);
    FileTrashKeepsInv(s, id, ok);
  }

  lemma MoveFileKeepsInv(s: State, id: int, dest: Option<int>, ok: bool, okDest: bool)
    requires Inv(s)
    ensures Inv(MoveFile(s, id, dest, ok, okDest))
  {
    if id in s.files {
      assert FileSound(s.files[id], s.folders);
    }
  }

  lemma FileTrashKeepsInv(s: State, id: int, ok: bool)
    requires Inv(s)
    ensures Inv(DeleteFile(s, id, ok)) && Inv(RestoreFile(s, id, ok)) && Inv(PurgeFile(s, id, ok))
  {
    if id in s.files {
      assert FileSound(s.files[id], s.folders);
    }
  }

  predicate OnFolders(op: Op) {
    op.OpCreateFolder? || op.OpMoveFolder? || op.OpDeleteFolder? || op.OpRestoreFolder? || op.OpPurgeFolder?
  }

  lemma FolderStepKeepsInv(s: State, op: Op)
    requires Inv(s) && OnFolders(op)
    ensures Inv(Apply(s, op))
  {
    match op
    case OpCreateFolder(id, u, place, scope, pr, ok) => CreateFolderKeepsInv(s, id, u, place, scope, pr, ok);
    case OpMoveFolder(id, place, ok, okDest) => MoveFolderKeepsInv(s, id, place, ok, okDest);
    case OpDeleteFolder(id, ok) => DeleteFolderKeepsInv(s, id, ok);
    case OpRestoreFolder(id, ok) => RestoreFolderKeepsInv(s, id, ok);
    case OpPurgeFolder(id, ok) => PurgeTreeShrinks(s, id);
  }

  predicate OnFiles(op: Op) {
    || op.OpCreateFile? || op.OpInitUpload? || op.OpCompleteUpload? || op.OpAbortUpload?
    || op.OpMoveFile? || op.OpDeleteFile? || op.OpRestoreFile? || op.OpPurgeFile?
  }

  lemma OneFileStepKeepsInv(s: State, op: Op)
    requires Inv(s) && (op.OpMoveFile? || op.OpDeleteFile? || op.OpRestoreFile? || op.OpPurgeFile?)
    ensures Inv(Apply(s, op))
  {
    match op
    case OpMoveFile(id, place, ok, okDest) => MoveFileKeepsInv(s, id, place, ok, okDest);
    case OpDeleteFile(id, ok) => FileTrashKeepsInv(s, id, ok);
    case OpRestoreFile(id, ok) => FileTrashKeepsInv(s, id, ok);
    case OpPurgeFile(id, ok) => FileTrashKeepsInv(s, id, ok);
  }

  lemma FileStepKeepsInv(s: State, op: Op)
    requires Inv(s) && OnFiles(op)
    ensures Inv(Apply(s, op))
  {
    match op
    case OpCreateFile(id, u, place, scope, pr, ok) => CreateFileKeepsInv(s, id, u, place, scope, pr, ok);
    case OpInitUpload(sid, u, place, scope, pr, ok) => InitUploadKeepsInv(s, sid, u, place, scope, pr, ok);
    case OpCompleteUpload(sid, id, ok, answer) => CompleteUploadKeepsInv(s, sid, id, ok, answer);
    case OpAbortUpload(sid, ok) => CompleteUploadKeepsInv(s, sid, 0, ok, Refused);
    case _ => OneFileStepKeepsInv(s, op);
  }

  /** One of the calls that remove rows, by whatever ids. */
  predicate IsPurgeCall(op: Op) {
    op.OpPurgeFileRows? || op.OpPurgeFilesIn? || op.OpPurgeFolderRows?
  }

  lemma PurgeCallKeepsInv(s: State, op: Op)
    requires Inv(s) && IsPurgeCall(op)
    ensures Inv(Apply(s, op))
  {
    match op
    case OpPurgeFileRows(ids) => RemoveFilesKeepsInv(s, ids);
    case OpPurgeFilesIn(ids) => RemoveFilesInKeepsInv(s, ids);
    case OpPurgeFolderRows(ids) => DropFoldersKeepsInv(s, ids);
  }

  predicate IsJanitor(op: Op) {
    op.OpJanitorList? || op.OpJanitorFiles? || op.OpJanitorListFolders? || op.OpJanitorFolders?
  }

  lemma JanitorStepKeepsInv(s: State, op: Op)
    requires Inv(s) && IsJanitor(op)
    ensures Inv(Apply(s, op))
  {
    JanitorKeepsInv(s);
  }

  /** One step of any kind keeps the invariant. */
  lemma StepKeepsInv(s: State, op: Op)
    requires Inv(s)
    ensures Inv(Apply(s, op))
  {
    if OnFolders(op) {
      FolderStepKeepsInv(s, op);
    } else if OnFiles(op) {
      FileStepKeepsInv(s, op);
    } else {
      match op
      case OpAddUser(_) =>
      case OpAddProject(_) =>
      case OpTick(_) =>
      case OpDeleteUser(u, actor, ok) =>
        ReassignKeepsInv(s, u, actor);
        DropUserKeepsInv(Reassign(s, u, actor), u);
      case OpDeleteProject(p) => DeleteProjectKeepsInv(s, p);
      case OpEmptyTrash(u) => EmptyTrashKeepsInv(s, u);
      case _ => if IsJanitor(op) { JanitorStepKeepsInv(s, op); } else { PurgeCallKeepsInv(s, op); }
    }
  }

  lemma {:induction false} RunKeepsInv(s: State, ops: seq<Op>)
    requires Inv(s)
    ensures Inv(Run(s, ops))
    decreases |ops|
  {
    if ops != [] {
      StepKeepsInv(s, ops[0]);
      RunKeepsInv(Apply(s, ops[0]), ops[1..]);
    }
  }

  /** The whole invariant holds after any run from an empty database: parent links form a forest,
      nothing live lies in the trash, and every link stays inside one space. */
  lemma ReachableStatesAreSound(ops: seq<Op>)
    ensures Inv(Run(EMPTY, ops))
  {
    RunKeepsInv(EMPTY, ops);
  }
}
