/** What every file, folder, trash, janitor and account-deletion step does to the rows of the
    `folders`, `files` and `upload_sessions` tables, with the foreign-key actions applied.
    A handler is one atomic step, but the calls that remove rows are steps of their own as well, with
    ids listed at any earlier time; a permission check is a truth value handed in. */
module TreeSpec {
  import opened Basics
  import opened Forest

  /** How long a row stays in the trash, in seconds. */
  const TRASH_RETENTION: nat := 30 * 24 * 3600

  datatype Folder = Folder(parent: Option<int>, owner: int, project: Option<int>, scope: string,
                           deleted: Option<int>)
  datatype File = File(folder: Option<int>, owner: int, project: Option<int>, scope: string,
                       deleted: Option<int>)
  datatype Session = Session(folder: Option<int>, owner: int, project: Option<int>, scope: string)

  /** Every id ever handed out: serial numbers and random session ids are not reused. */
  datatype Ids = Ids(folders: set<int>, files: set<int>, sessions: set<int>)

  /** Where a janitor run stands between its four statements: it has listed the expired files, purged
      them, or listed the expired folders. It keeps the cutoff it began with throughout. */
  datatype Sweep =
    | Idle
    | FilesListed(cutoff: int, ids: set<int>)
    | FilesPurged(cutoff: int)
    | FoldersListed(cutoff: int, ids: set<int>)

  datatype State = State(folders: map<int, Folder>, files: map<int, File>, sessions: map<int, Session>,
                         users: set<int>, projects: set<int>, now: int, used: Ids, sweep: Sweep)

  const EMPTY := State(map[], map[], map[], {}, {}, 0, Ids({}, {}, {}), Idle)

  function Links(fs: map<int, Folder>): Parents {
    map f | f in fs :: fs[f].parent
  }

  predicate LiveFolder(s: State, id: int) {
    id in s.folders && s.folders[id].deleted.None?
  }

  predicate LiveFile(s: State, id: int) {
    id in s.files && s.files[id].deleted.None?
  }

  // ---------- creating ----------

  /** A client-supplied destination: the scope root, or a live folder of the same space. */
  predicate DestFolderValid(s: State, dest: Option<int>, scope: string, project: Option<int>, owner: int) {
    dest.Some? ==>
      && LiveFolder(s, dest.value)
      && s.folders[dest.value].scope == scope
      && s.folders[dest.value].project == project
      && (scope == "personal" ==> s.folders[dest.value].owner == owner)
  }

  /** A project scope needs a positive project id. */
  predicate ProjectGiven(scope: string, project: Option<int>) {
    scope == "project" ==> project.Some? && project.value > 0
  }

  predicate RefersToRows(s: State, owner: int, project: Option<int>) {
    owner in s.users && (project.Some? ==> project.value in s.projects)
  }

  function CreateFolder(s: State, id: int, user: int, parent: Option<int>, scope: string,
                        project: Option<int>, permitted: bool): State
  {
    var kept := if scope == "project" then project else None;
    if ProjectGiven(scope, project) && permitted && DestFolderValid(s, parent, scope, project, user)
       && id !in s.used.folders && RefersToRows(s, user, kept)
    then s.(folders := s.folders[id := Folder(parent, user, kept, scope, None)],
            used := s.used.(folders := s.used.folders + {id}))
    else s
  }

  /** Every upload path falls back to the personal space for an unknown scope. */
  function UploadScope(scope: string): string {
    if scope == "project" || scope == "common" then scope else "personal"
  }

  function UploadProject(scope: string, project: Option<int>): Option<int> {
    if scope == "project" then project else None
  }

  predicate UploadAccepted(s: State, user: int, folder: Option<int>, scope: string,
                           project: Option<int>, accepted: bool)
  {
    && ProjectGiven(scope, project) && accepted
    && DestFolderValid(s, folder, UploadScope(scope), UploadProject(scope, project), user)
    && RefersToRows(s, user, UploadProject(scope, project))
  }

  /** A direct upload or a blank document; `accepted` covers permission, quota and storage. */
  function CreateFile(s: State, id: int, user: int, folder: Option<int>, scope: string,
                      project: Option<int>, accepted: bool): State
  {
    if UploadAccepted(s, user, folder, scope, project, accepted) && id !in s.used.files then
      s.(files := s.files[id := File(folder, user, UploadProject(scope, project), UploadScope(scope), None)],
         used := s.used.(files := s.used.files + {id}))
    else s
  }

  function InitUpload(s: State, sid: int, user: int, folder: Option<int>, scope: string,
                      project: Option<int>, accepted: bool): State
  {
    if UploadAccepted(s, user, folder, scope, project, accepted) && sid !in s.used.sessions then
      s.(sessions := s.sessions[sid := Session(folder, user, UploadProject(scope, project), UploadScope(scope))],
         used := s.used.(sessions := s.used.sessions + {sid}))
    else s
  }

  /** How the object store and the quota answer when an upload is completed. */
  datatype Completion = Refused | OverQuota | Stored

  function CompleteUpload(s: State, sid: int, id: int, permitted: bool, answer: Completion): State {
    if sid !in s.sessions || !permitted then s
    else
      var u := s.sessions[sid];
      if u.folder.Some? && !LiveFolder(s, u.folder.value) then s.(sessions := s.sessions - {sid})
      else match answer
        case Refused => s
        case OverQuota => s.(sessions := s.sessions - {sid})
        case Stored =>
          if id in s.used.files || !RefersToRows(s, u.owner, u.project) then s
          else s.(files := s.files[id := File(u.folder, u.owner, u.project, u.scope, None)],
                  sessions := s.sessions - {sid},
                  used := s.used.(files := s.used.files + {id}))
  }

  function AbortUpload(s: State, sid: int, permitted: bool): State {
    if permitted then s.(sessions := s.sessions - {sid}) else s
  }

  // ---------- moving ----------

  /** A move stays inside one space; a personal row also stays with its owner. */
  predicate SameSpace(scope: string, project: Option<int>, owner: int, dest: Folder) {
    && dest.scope == scope && dest.project == project
    && (scope == "personal" ==> dest.owner == owner)
  }

  function MoveFile(s: State, id: int, dest: Option<int>, canEdit: bool, canEditDest: bool): State {
    if !LiveFile(s, id) || !canEdit then s
    else
      var f := s.files[id];
      if dest.Some? && !(LiveFolder(s, dest.value)
                         && SameSpace(f.scope, f.project, f.owner, s.folders[dest.value]) && canEditDest)
      then s
      else s.(files := s.files[id := f.(folder := dest)])
  }

  ghost function MoveFolder(s: State, id: int, dest: Option<int>, canEdit: bool, canEditDest: bool): State {
    if !LiveFolder(s, id) || !canEdit then s
    else
      var f := s.folders[id];
      if dest.Some? && !(dest.value != id && LiveFolder(s, dest.value)
                         && SameSpace(f.scope, f.project, f.owner, s.folders[dest.value]) && canEditDest
                         && !Under(Links(s.folders), id, dest.value))
      then s
      else s.(folders := s.folders[id := f.(parent := dest)])
  }

  // ---------- trash ----------

  ghost function Subtree(s: State, id: int): set<int> {
    set d | d in s.folders && Under(Links(s.folders), id, d)
  }

  predicate InFolders(folder: Option<int>, ids: set<int>) {
    folder.Some? && folder.value in ids
  }

  /** Stamps the folders named and every file directly inside one of them. */
  function SoftDelete(s: State, ids: set<int>): State {
    s.(folders := map d | d in s.folders ::
                    if d in ids then s.folders[d].(deleted := Some(s.now)) else s.folders[d],
       files := map f | f in s.files ::
                  if InFolders(s.files[f].folder, ids) then s.files[f].(deleted := Some(s.now)) else s.files[f])
  }

  function DeleteFile(s: State, id: int, permitted: bool): State {
    if LiveFile(s, id) && permitted then
      s.(files := s.files[id := s.files[id].(deleted := Some(s.now))])
    else s
  }

  ghost function DeleteFolder(s: State, id: int, permitted: bool): State {
    if LiveFolder(s, id) && permitted then SoftDelete(s, Subtree(s, id)) else s
  }

  /** Where a restored row lands: its old place when that is a live folder, else the root. */
  function RestoreParent(s: State, place: Option<int>): Option<int> {
    if place.Some? && LiveFolder(s, place.value) then place else None
  }

  function RestoreFile(s: State, id: int, permitted: bool): State {
    if id in s.files && s.files[id].deleted.Some? && permitted then
      s.(files := s.files[id := s.files[id].(deleted := None, folder := RestoreParent(s, s.files[id].folder))])
    else s
  }

  function RestoreFolder(s: State, id: int, permitted: bool): State {
    if id in s.folders && s.folders[id].deleted.Some? && permitted then
      s.(folders := s.folders[id := s.folders[id].(deleted := None, parent := RestoreParent(s, s.folders[id].parent))])
    else s
  }

  // ---------- hard deletion ----------

  function DetachFile(f: File, gone: set<int>): File {
    if InFolders(f.folder, gone) then f.(folder := None) else f
  }

  function DetachSession(u: Session, gone: set<int>): Session {
    if InFolders(u.folder, gone) then u.(folder := None) else u
  }

  /** Removes folder rows; `folder_id` of files and sessions is ON DELETE SET NULL. */
  function RemoveFolders(s: State, gone: set<int>): State {
    s.(folders := s.folders - gone,
       files := map f | f in s.files :: DetachFile(s.files[f], gone),
       sessions := map u | u in s.sessions :: DetachSession(s.sessions[u], gone))
  }

  /** Everything that goes with the folder rows named: `parent_id` is ON DELETE CASCADE. */
  ghost function CascadeOf(s: State, ids: set<int>): set<int> {
    set d | d in s.folders && Doomed(Links(s.folders), ids, d)
  }

  ghost function DropFolders(s: State, ids: set<int>): State {
    RemoveFolders(s, CascadeOf(s, ids))
  }

  function RemoveFilesIn(s: State, ids: set<int>): State {
    s.(files := map f | f in s.files && !InFolders(s.files[f].folder, ids) :: s.files[f])
  }

  function PurgeFile(s: State, id: int, permitted: bool): State {
    if id in s.files && s.files[id].deleted.Some? && permitted then s.(files := s.files - {id}) else s
  }

  /** File rows by id, in whatever state they are. */
  function RemoveFiles(s: State, ids: set<int>): State {
    s.(files := s.files - ids)
  }

  ghost function PurgeTree(s: State, id: int): State {
    DropFolders(RemoveFilesIn(s, Subtree(s, id)), Subtree(s, id))
  }

  ghost function PurgeFolder(s: State, id: int, permitted: bool): State {
    if id in s.folders && s.folders[id].deleted.Some? && permitted then PurgeTree(s, id) else s
  }

  function TrashedFoldersOf(s: State, user: int): set<int> {
    set d | d in s.folders && s.folders[d].deleted.Some? && s.folders[d].owner == user
  }

  function TrashedFilesOf(s: State, user: int): set<int> {
    set f | f in s.files && s.files[f].deleted.Some? && s.files[f].owner == user
  }

  /** Purges the caller's trashed files and the subtree of each of the caller's trashed folders. */
  ghost function EmptyTrash(s: State, user: int): State {
    var gone := CascadeOf(s, TrashedFoldersOf(s, user));
    RemoveFiles(RemoveFolders(RemoveFilesIn(s, gone), gone), TrashedFilesOf(s, user))
  }

  predicate Expired(deleted: Option<int>, cutoff: int) {
    deleted.Some? && deleted.value < cutoff
  }

  function ExpiredFolders(s: State, cutoff: int): set<int> {
    set d | d in s.folders && Expired(s.folders[d].deleted, cutoff)
  }

  function ExpiredFiles(s: State, cutoff: int): set<int> {
    set f | f in s.files && Expired(s.files[f].deleted, cutoff)
  }

  /** The janitor's first statement lists the expired files; deleting their objects takes its time. */
  function JanitorList(s: State): State {
    var cutoff := s.now - TRASH_RETENTION;
    s.(sweep := FilesListed(cutoff, ExpiredFiles(s, cutoff)))
  }

  /** The second purges by the ids listed, whatever has happened to those rows since. */
  function JanitorFiles(s: State): State {
    if s.sweep.FilesListed? then RemoveFiles(s, s.sweep.ids).(sweep := FilesPurged(s.sweep.cutoff)) else s
  }

  /** The third lists the folders, against the same cutoff. */
  function JanitorListFolders(s: State): State {
    if s.sweep.FilesPurged? then s.(sweep := FoldersListed(s.sweep.cutoff, ExpiredFolders(s, s.sweep.cutoff))) else s
  }

  /** The last purges those by id, again whatever they have become, and the cascade follows. */
  ghost function JanitorFolders(s: State): State {
    if s.sweep.FoldersListed? then DropFolders(s, s.sweep.ids).(sweep := Idle) else s
  }

  // ---------- accounts and projects ----------

  function Reassign(s: State, from: int, to: int): State {
    s.(files := map f | f in s.files ::
                  if s.files[f].owner == from && s.files[f].scope != "personal"
                  then s.files[f].(owner := to) else s.files[f],
       folders := map d | d in s.folders ::
                    if s.folders[d].owner == from && s.folders[d].scope != "personal"
                    then s.folders[d].(owner := to) else s.folders[d])
  }

  function OwnedFolders(s: State, user: int): set<int> {
    set d | d in s.folders && s.folders[d].owner == user
  }

  /** Deleting a user row: files, folders and sessions it owns cascade. */
  ghost function DropUser(s: State, user: int): State {
    var t := s.(users := s.users - {user},
                files := map f | f in s.files && s.files[f].owner != user :: s.files[f],
                sessions := map u | u in s.sessions && s.sessions[u].owner != user :: s.sessions[u]);
    DropFolders(t, OwnedFolders(s, user))
  }

  ghost function DeleteUser(s: State, from: int, actor: int, permitted: bool): State {
    if permitted && actor in s.users then DropUser(Reassign(s, from, actor), from) else s
  }

  function ProjectFolders(s: State, project: int): set<int> {
    set d | d in s.folders && s.folders[d].project == Some(project)
  }

  ghost function DeleteProject(s: State, project: int): State {
    var t := s.(projects := s.projects - {project},
                files := map f | f in s.files && s.files[f].project != Some(project) :: s.files[f],
                sessions := map u | u in s.sessions && s.sessions[u].project != Some(project) :: s.sessions[u]);
    DropFolders(t, ProjectFolders(s, project))
  }

  // ---------- runs ----------

  datatype Op =
    | OpAddUser(user: int)
    | OpAddProject(project: int)
    | OpTick(seconds: nat)
    | OpCreateFolder(id: int, user: int, place: Option<int>, scope: string, inProject: Option<int>, ok: bool)
    | OpCreateFile(id: int, user: int, place: Option<int>, scope: string, inProject: Option<int>, ok: bool)
    | OpInitUpload(sid: int, user: int, place: Option<int>, scope: string, inProject: Option<int>, ok: bool)
    | OpCompleteUpload(sid: int, id: int, ok: bool, answer: Completion)
    | OpAbortUpload(sid: int, ok: bool)
    | OpMoveFile(id: int, place: Option<int>, ok: bool, okDest: bool)
    | OpMoveFolder(id: int, place: Option<int>, ok: bool, okDest: bool)
    | OpDeleteFile(id: int, ok: bool)
    | OpDeleteFolder(id: int, ok: bool)
    | OpRestoreFile(id: int, ok: bool)
    | OpRestoreFolder(id: int, ok: bool)
    | OpPurgeFile(id: int, ok: bool)
    | OpPurgeFolder(id: int, ok: bool)
    | OpEmptyTrash(user: int)
    | OpJanitorList
    | OpJanitorFiles
    | OpJanitorListFolders
    | OpJanitorFolders
    | OpPurgeFileRows(rows: set<int>)
    | OpPurgeFilesIn(rows: set<int>)
    | OpPurgeFolderRows(rows: set<int>)
    | OpDeleteUser(user: int, actor: int, ok: bool)
    | OpDeleteProject(project: int)

  ghost function Apply(s: State, op: Op): State {
    match op
    case OpAddUser(u) => s.(users := s.users + {u})
    case OpAddProject(p) => s.(projects := s.projects + {p})
    case OpTick(n) => s.(now := s.now + n)
    case OpCreateFolder(id, u, place, scope, pr, ok) => CreateFolder(s, id, u, place, scope, pr, ok)
    case OpCreateFile(id, u, place, scope, pr, ok) => CreateFile(s, id, u, place, scope, pr, ok)
    case OpInitUpload(sid, u, place, scope, pr, ok) => InitUpload(s, sid, u, place, scope, pr, ok)
    case OpCompleteUpload(sid, id, ok, answer) => CompleteUpload(s, sid, id, ok, answer)
    case OpAbortUpload(sid, ok) => AbortUpload(s, sid, ok)
    case OpMoveFile(id, place, ok, okDest) => MoveFile(s, id, place, ok, okDest)
    case OpMoveFolder(id, place, ok, okDest) => MoveFolder(s, id, place, ok, okDest)
    case OpDeleteFile(id, ok) => DeleteFile(s, id, ok)
    case OpDeleteFolder(id, ok) => DeleteFolder(s, id, ok)
    case OpRestoreFile(id, ok) => RestoreFile(s, id, ok)
    case OpRestoreFolder(id, ok) => RestoreFolder(s, id, ok)
    case OpPurgeFile(id, ok) => PurgeFile(s, id, ok)
    case OpPurgeFolder(id, ok) => PurgeFolder(s, id, ok)
    case OpEmptyTrash(u) => EmptyTrash(s, u)
    case OpJanitorList => JanitorList(s)
    case OpJanitorFiles => JanitorFiles(s)
    case OpJanitorListFolders => JanitorListFolders(s)
    case OpJanitorFolders => JanitorFolders(s)
    case OpPurgeFileRows(ids) => RemoveFiles(s, ids)
    case OpPurgeFilesIn(ids) => RemoveFilesIn(s, ids)
    case OpPurgeFolderRows(ids) => DropFolders(s, ids)
    case OpDeleteUser(u, actor, ok) => DeleteUser(s, u, actor, ok)
    case OpDeleteProject(p) => DeleteProject(s, p)
  }

  ghost function Run(s: State, ops: seq<Op>): State
    decreases |ops|
  {
    if ops == [] then s else Run(Apply(s, ops[0]), ops[1..])
  }
}
