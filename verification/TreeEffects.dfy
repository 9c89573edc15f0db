/** What each handler does to the rows: when it is accepted, what the row it is about becomes, and that
    nothing else changes. */
module TreeEffects {
  import opened Basics
  import opened Forest
  import opened TreeSpec
  import opened TreeInvariants

  /** All but the folder, file or session rows stays as it is. */
  predicate SameRest(s: State, t: State) {
    t.users == s.users && t.projects == s.projects && t.now == s.now && t.sweep == s.sweep
  }

  /** No row but this folder's changes, appears or goes. */
  predicate OnlyFolder(s: State, t: State, id: int) {
    && SameRest(s, t) && t.files == s.files && t.sessions == s.sessions
    && t.folders.Keys + {id} == s.folders.Keys + {id}
    && forall d | d in s.folders && d != id :: t.folders[d] == s.folders[d]
  }

  predicate OnlyFile(s: State, t: State, id: int) {
    && SameRest(s, t) && t.folders == s.folders && t.sessions == s.sessions
    && t.files.Keys + {id} == s.files.Keys + {id}
    && forall f | f in s.files && f != id :: t.files[f] == s.files[f]
  }

  // ---------- moving a folder ----------

  /** Hung under `p`, a folder has `p` above it and then whatever `p` had. */
  lemma AncestorsAfter(g: Parents, id: int, p: Option<int>, k: nat)
    requires id in g && (p.Some? ==> !Under(g, id, p.value))
    ensures Up(g[id := p], id, k + 1) == if p.None? then None else Up(g, p.value, k)
  {
    if p.Some? { UpUnaffected(g, id, p, p.value, k); }
  }

  /** What lies below it is the same as before. */
  lemma SubtreeAfter(g: Parents, id: int, p: Option<int>, d: int)
    requires id in g
    ensures Under(g[id := p], id, d) <==> Under(g, id, d)
  {
    var h := g[id := p];
    if Under(g, id, d) {
      var n := FirstHit(g, id, d);
      UpUnaffected(g, id, p, d, n);
    }
    if Under(h, id, d) {
      var n := FirstHit(h, id, d);
      UpUnaffected(h, id, g[id], d, n);
      assert h[id := g[id]] == g;
    }
  }

  /** The destination is the root, or a live folder of the same scope, project and, when personal, owner,
      outside the folder's own subtree, in which the caller may write. */
  ghost predicate FolderFitsIn(s: State, id: int, dest: Option<int>, mayWrite: bool)
    requires id in s.folders
  {
    dest.Some? ==>
      && dest.value in s.folders && s.folders[dest.value].deleted == None && mayWrite
      && s.folders[dest.value].scope == s.folders[id].scope && s.folders[dest.value].project == s.folders[id].project
      && (s.folders[id].scope == "personal" ==> s.folders[dest.value].owner == s.folders[id].owner)
      && dest.value !in Subtree(s, id)
  }

  ghost predicate FolderMoves(s: State, id: int, dest: Option<int>, mayEdit: bool, mayWrite: bool) {
    id in s.folders && s.folders[id].deleted == None && mayEdit && FolderFitsIn(s, id, dest, mayWrite)
  }

  /** A move takes effect exactly when it may: then the folder hangs under the destination, and no row but
      its own has changed. */
  lemma MoveFolderExact(s: State, id: int, dest: Option<int>, mayEdit: bool, mayWrite: bool)
    ensures var t := MoveFolder(s, id, dest, mayEdit, mayWrite);
            if FolderMoves(s, id, dest, mayEdit, mayWrite)
            then OnlyFolder(s, t, id) && t.used == s.used && id in t.folders && t.folders[id].parent == dest
                 && t.folders[id].(parent := None) == s.folders[id].(parent := None)
            else t == s
  {
    if id in s.folders { UnderSelf(Links(s.folders), id); }
  }

  lemma SubtreeIds(s: State, t: State, id: int)
    requires OnlyFolder(s, t, id) && id in s.folders && id in t.folders
    ensures Subtree(t, id) == Subtree(s, id)
  {
    var g := Links(s.folders);
    var h := Links(t.folders);
    forall d ensures d in h <==> d in g { assert d in t.folders.Keys <==> d in s.folders.Keys; }
    forall d | d in g && d != id ensures h[d] == g[d] { assert t.folders[d] == s.folders[d]; }
    assert h[id] == t.folders[id].parent;
    assert h == g[id := t.folders[id].parent];
    forall d | d in s.folders ensures Under(Links(t.folders), id, d) <==> Under(g, id, d) {
      SubtreeAfter(g, id, t.folders[id].parent, d);
    }
  }

  /** After an accepted move the folder's ancestors are the destination and then the destination's, and its
      subtree has come along whole. */
  lemma MovedFolderIsUnder(s: State, id: int, dest: Option<int>, k: nat)
    requires FolderMoves(s, id, dest, true, true)
    ensures var t := MoveFolder(s, id, dest, true, true); var h := Links(t.folders);
            && Up(h, id, 1) == dest
            && (dest.None? ==> Up(h, id, k + 1) == None)
            && (dest.Some? ==> Up(h, id, k + 1) == Up(Links(s.folders), dest.value, k))
            && Subtree(t, id) == Subtree(s, id)
  {
    var g := Links(s.folders);
    var t := MoveFolder(s, id, dest, true, true);
    MoveFolderExact(s, id, dest, true, true);
    assert Links(t.folders) == g[id := dest];
    assert dest.Some? ==> !Under(g, id, dest.value);
    AncestorsAfter(g, id, dest, k);
    AncestorsAfter(g, id, dest, 0);
    SubtreeIds(s, t, id);
  }

  /** The place a live folder has is one it could be moved to. */
  lemma OldPlaceFits(s: State, id: int)
    requires Inv(s) && LiveFolder(s, id)
    ensures FolderFitsIn(s, id, s.folders[id].parent, true)
  {
    assert FolderSound(s.folders[id], s.folders);
    ParentIsNotBelow(Links(s.folders), id);
  }

  lemma ParentIsNotBelow(g: Parents, id: int)
    requires IsForest(g) && id in g
    ensures g[id].Some? ==> !Under(g, id, g[id].value)
  {
    if g[id].Some? {
      ReparentKeepsForestIff(g, id, g[id].value);
      assert g[id := Some(g[id].value)] == g;
    }
  }

  /** Moving a folder back to where it was undoes the move. */
  lemma MoveBackRestores(s: State, id: int, dest: Option<int>)
    requires Inv(s) && FolderMoves(s, id, dest, true, true)
    ensures MoveFolder(MoveFolder(s, id, dest, true, true), id, s.folders[id].parent, true, true) == s
  {
    var t := MoveFolder(s, id, dest, true, true);
    MoveFolderExact(s, id, dest, true, true);
    OldPlaceFits(s, id);
    SubtreeIds(s, t, id);
    var p := s.folders[id].parent;
    OldPlaceIsAnother(s, id);
    MoveFolderExact(t, id, p, true, true);
    var u := MoveFolder(t, id, p, true, true);
    assert u.folders == s.folders;
  }

  lemma OldPlaceIsAnother(s: State, id: int)
    requires Inv(s) && LiveFolder(s, id)
    ensures s.folders[id].parent != Some(id)
  {
    OldPlaceFits(s, id);
    UnderSelf(Links(s.folders), id);
  }

  // ---------- moving, trashing and restoring a file ----------

  predicate FileFitsIn(s: State, id: int, dest: Option<int>, mayWrite: bool)
    requires id in s.files
  {
    dest.Some? ==>
      && dest.value in s.folders && s.folders[dest.value].deleted == None && mayWrite
      && s.folders[dest.value].scope == s.files[id].scope && s.folders[dest.value].project == s.files[id].project
      && (s.files[id].scope == "personal" ==> s.folders[dest.value].owner == s.files[id].owner)
  }

  predicate FileMoves(s: State, id: int, dest: Option<int>, mayEdit: bool, mayWrite: bool) {
    id in s.files && s.files[id].deleted == None && mayEdit && FileFitsIn(s, id, dest, mayWrite)
  }

  lemma MoveFileExact(s: State, id: int, dest: Option<int>, mayEdit: bool, mayWrite: bool)
    ensures var t := MoveFile(s, id, dest, mayEdit, mayWrite);
            if FileMoves(s, id, dest, mayEdit, mayWrite)
            then OnlyFile(s, t, id) && t.used == s.used && id in t.files && t.files[id].folder == dest
                 && t.files[id].(folder := None) == s.files[id].(folder := None)
            else t == s
  {
  }

  lemma MoveFileBackRestores(s: State, id: int, dest: Option<int>)
    requires Inv(s) && FileMoves(s, id, dest, true, true)
    ensures MoveFile(MoveFile(s, id, dest, true, true), id, s.files[id].folder, true, true) == s
  {
    var t := MoveFile(s, id, dest, true, true);
    MoveFileExact(s, id, dest, true, true);
    assert FileSound(s.files[id], s.folders);
    MoveFileExact(t, id, s.files[id].folder, true, true);
    assert MoveFile(t, id, s.files[id].folder, true, true).files == s.files;
  }

  /** A live file is stamped with the present time, and that is all. */
  lemma DeleteFileExact(s: State, id: int, mayEdit: bool)
    ensures var t := DeleteFile(s, id, mayEdit);
            if id in s.files && s.files[id].deleted == None && mayEdit
            then OnlyFile(s, t, id) && t.used == s.used && id in t.files && t.files[id].deleted == Some(s.now)
                 && t.files[id].(deleted := None) == s.files[id]
            else t == s
  {
  }

  /** A trashed file comes back live, in its old place when that is a live folder and at the root otherwise. */
  lemma RestoreFileExact(s: State, id: int, mayEdit: bool)
    ensures var t := RestoreFile(s, id, mayEdit);
            if id in s.files && s.files[id].deleted != None && mayEdit
            then OnlyFile(s, t, id) && t.used == s.used && id in t.files && t.files[id].deleted == None
                 && (t.files[id].folder == s.files[id].folder || t.files[id].folder == None)
                 && (t.files[id].folder == None <==> s.files[id].folder == None || !LiveFolder(s, s.files[id].folder.value))
                 && t.files[id].(folder := None) == s.files[id].(folder := None, deleted := None)
            else t == s
  {
  }

  /** A trashed file goes for good; a live one does not. */
  lemma PurgeFileExact(s: State, id: int, mayEdit: bool)
    ensures var t := PurgeFile(s, id, mayEdit);
            if id in s.files && s.files[id].deleted != None && mayEdit
            then OnlyFile(s, t, id) && t.used == s.used && id !in t.files
            else t == s
  {
  }

  // ---------- trashing and restoring a folder ----------

  /** A live folder's whole subtree and every file in it carry the present time, already trashed ones
      included; every other row stays as it is. */
  lemma DeleteFolderExact(s: State, id: int, mayEdit: bool)
    ensures var t := DeleteFolder(s, id, mayEdit);
            if LiveFolder(s, id) && mayEdit
            then SameRest(s, t) && t.sessions == s.sessions && t.used == s.used
                 && t.folders.Keys == s.folders.Keys && t.files.Keys == s.files.Keys
                 && (forall d | d in s.folders :: t.folders[d].(deleted := None) == s.folders[d].(deleted := None))
                 && (forall d | d in s.folders && Under(Links(s.folders), id, d) :: t.folders[d].deleted == Some(s.now))
                 && (forall d | d in s.folders && !Under(Links(s.folders), id, d) :: t.folders[d] == s.folders[d])
                 && (forall f | f in s.files :: t.files[f].(deleted := None) == s.files[f].(deleted := None))
                 && (forall f | f in s.files :: if LiesUnder(s, id, s.files[f].folder) then t.files[f].deleted == Some(s.now)
                                                else t.files[f] == s.files[f])
            else t == s
  {
    if LiveFolder(s, id) && mayEdit {
      forall f | f in s.files ensures InFolders(s.files[f].folder, Subtree(s, id)) <==> LiesUnder(s, id, s.files[f].folder) {
      }
    }
  }

  ghost predicate LiesUnder(s: State, id: int, place: Option<int>) {
    place.Some? && place.value in s.folders && Under(Links(s.folders), id, place.value)
  }

  lemma RestoreFolderExact(s: State, id: int, mayEdit: bool)
    ensures var t := RestoreFolder(s, id, mayEdit);
            if id in s.folders && s.folders[id].deleted != None && mayEdit
            then OnlyFolder(s, t, id) && t.used == s.used && id in t.folders && t.folders[id].deleted == None
                 && (t.folders[id].parent == s.folders[id].parent || t.folders[id].parent == None)
                 && (t.folders[id].parent == None <==> s.folders[id].parent == None || !LiveFolder(s, s.folders[id].parent.value))
                 && t.folders[id].(parent := None) == s.folders[id].(parent := None, deleted := None)
            else t == s
  {
  }

  // ---------- creating ----------

  /** A place in the space named: its root, or a live folder of it. */
  predicate PlaceIn(s: State, place: Option<int>, scope: string, project: Option<int>, user: int) {
    place.Some? ==>
      && place.value in s.folders && s.folders[place.value].deleted == None
      && s.folders[place.value].scope == scope && s.folders[place.value].project == project
      && (scope == "personal" ==> s.folders[place.value].owner == user)
  }

  predicate Exists(s: State, user: int, project: Option<int>) {
    user in s.users && (project.Some? ==> project.value in s.projects)
  }

  /** A new folder is live, its creator's, and where it was asked for. A project is kept for the project
      scope only, and must then be given. */
  lemma CreateFolderExact(s: State, id: int, user: int, place: Option<int>, scope: string, project: Option<int>, may: bool)
    ensures var t := CreateFolder(s, id, user, place, scope, project, may);
            var kept := if scope == "project" then project else None;
            if may && id !in s.used.folders && (scope == "project" ==> project.Some? && project.value > 0)
               && PlaceIn(s, place, scope, project, user) && Exists(s, user, kept)
            then OnlyFolder(s, t, id) && t.used == s.used.(folders := s.used.folders + {id})
                 && id in t.folders && t.folders[id] == Folder(place, user, kept, scope, None)
            else t == s
  {
  }

  /** The space of an upload: a project's, the common one, or else the uploader's own. */
  predicate UploadsTo(scope: string, project: Option<int>, space: string, kept: Option<int>) {
    && (scope == "project" ==> space == "project" && kept == project && project.Some? && project.value > 0)
    && (scope == "common" ==> space == "common" && kept == None)
    && (scope != "project" && scope != "common" ==> space == "personal" && kept == None)
  }

  /** A new file is live, its uploader's, and where it was asked for, in the space the scope stands for. */
  lemma CreateFileExact(s: State, id: int, user: int, place: Option<int>, scope: string, project: Option<int>, may: bool)
    ensures var t := CreateFile(s, id, user, place, scope, project, may);
            forall space: string, kept: Option<int> | UploadsTo(scope, project, space, kept) ::
              if may && id !in s.used.files && PlaceIn(s, place, space, kept, user) && Exists(s, user, kept)
              then OnlyFile(s, t, id) && t.used == s.used.(files := s.used.files + {id})
                   && id in t.files && t.files[id] == File(place, user, kept, space, None)
              else t == s
    ensures scope == "project" && !(project.Some? && project.value > 0) ==>
              CreateFile(s, id, user, place, scope, project, may) == s
  {
  }

  predicate OnlySession(s: State, t: State, sid: int) {
    && SameRest(s, t) && t.folders == s.folders && t.files == s.files
    && t.sessions.Keys + {sid} == s.sessions.Keys + {sid}
    && forall u | u in s.sessions && u != sid :: t.sessions[u] == s.sessions[u]
  }

  lemma InitUploadExact(s: State, sid: int, user: int, place: Option<int>, scope: string, project: Option<int>, may: bool)
    ensures var t := InitUpload(s, sid, user, place, scope, project, may);
            forall space: string, kept: Option<int> | UploadsTo(scope, project, space, kept) ::
              if may && sid !in s.used.sessions && PlaceIn(s, place, space, kept, user) && Exists(s, user, kept)
              then OnlySession(s, t, sid) && t.used == s.used.(sessions := s.used.sessions + {sid})
                   && sid in t.sessions && t.sessions[sid] == Session(place, user, kept, space)
              else t == s
    ensures scope == "project" && !(project.Some? && project.value > 0) ==>
              InitUpload(s, sid, user, place, scope, project, may) == s
  {
  }

  /** Completing ends the session and adds a file of the session's owner, project, scope and place, or: a
      destination in the trash or too little quota ends the session with no file, and an object store that
      refuses, or a row that cannot be written, leaves everything as it is. */
  lemma CompleteUploadExact(s: State, sid: int, id: int, may: bool, answer: Completion)
    requires sid in s.sessions
    ensures var t := CompleteUpload(s, sid, id, may, answer); var u := s.sessions[sid];
            var gone := u.folder.Some? && !(u.folder.value in s.folders && s.folders[u.folder.value].deleted == None);
            var adds := may && !gone && answer == Stored && id !in s.used.files && Exists(s, u.owner, u.project);
            && (sid !in t.sessions <==> may && (gone || answer == OverQuota || adds))
            && SameRest(s, t) && t.folders == s.folders
            && (forall v | v != sid :: v in t.sessions <==> v in s.sessions)
            && (forall v | v in t.sessions :: v in s.sessions && t.sessions[v] == s.sessions[v])
            && t.files == (if adds then s.files[id := File(u.folder, u.owner, u.project, u.scope, None)] else s.files)
            && t.used == (if adds then s.used.(files := s.used.files + {id}) else s.used)
  {
  }

  /** Without the session nothing happens; aborting ends it and does nothing else. */
  lemma AbortUploadExact(s: State, sid: int, id: int, may: bool, answer: Completion)
    ensures sid !in s.sessions ==> CompleteUpload(s, sid, id, may, answer) == s && AbortUpload(s, sid, may) == s
    ensures !may ==> AbortUpload(s, sid, may) == s
    ensures may ==> OnlySession(s, AbortUpload(s, sid, may), sid) && sid !in AbortUpload(s, sid, may).sessions
                    && AbortUpload(s, sid, may).used == s.used
  {
    assert sid !in s.sessions ==> s.sessions - {sid} == s.sessions;
  }

  // ---------- the janitor's lists ----------

  /** Thirty days, to the second: a row trashed exactly that long ago stays. */
  lemma ListsAreOlderThanThirtyDays(s: State)
    ensures var t := JanitorList(s);
            && t.sweep.FilesListed? && t.(sweep := s.sweep) == s
            && (forall f :: f in t.sweep.ids <==> f in s.files && s.files[f].deleted != None
                                                  && s.now - s.files[f].deleted.value > 30 * 86400)
    ensures s.sweep == FilesPurged(s.now - 30 * 86400) ==>
            var t := JanitorListFolders(s);
            && t.sweep.FoldersListed? && t.(sweep := s.sweep) == s
            && (forall d :: d in t.sweep.ids <==> d in s.folders && s.folders[d].deleted != None
                                                  && s.now - s.folders[d].deleted.value > 30 * 86400)
  {
  }

  // ---------- rows that go with others ----------

  /** Folder rows go with everything below them. A file or session that was in one stays, at the root; nothing
      else changes. */
  lemma DropFoldersExact(s: State, ids: set<int>)
    ensures var t := DropFolders(s, ids);
            && SameRest(s, t) && t.used == s.used && t.files.Keys == s.files.Keys && t.sessions.Keys == s.sessions.Keys
            && (forall d :: d in t.folders <==> d in s.folders && !exists a :: a in ids && Under(Links(s.folders), a, d))
            && (forall d | d in t.folders :: t.folders[d] == s.folders[d])
            && (forall f | f in s.files :: t.files[f] == if Goes(s, t, s.files[f].folder) then s.files[f].(folder := None) else s.files[f])
            && (forall u | u in s.sessions ::
                  t.sessions[u] == if Goes(s, t, s.sessions[u].folder) then s.sessions[u].(folder := None) else s.sessions[u])
  {
  }

  predicate Goes(s: State, t: State, place: Option<int>) {
    place.Some? && place.value in s.folders && place.value !in t.folders
  }

  /** With an account go its sessions and nobody else's; the account and no other is gone. */
  lemma DeleteUserRest(s: State, user: int, actor: int, may: bool)
    ensures var t := DeleteUser(s, user, actor, may);
            if may && actor in s.users
            then t.users == s.users - {user} && t.projects == s.projects && t.now == s.now && t.sweep == s.sweep && t.used == s.used
                 && (forall u :: u in t.sessions <==> u in s.sessions && s.sessions[u].owner != user)
                 && (forall u | u in t.sessions :: t.sessions[u].(folder := None) == s.sessions[u].(folder := None))
            else t == s
  {
  }

  lemma DeleteProjectRest(s: State, project: int)
    ensures var t := DeleteProject(s, project);
            t.projects == s.projects - {project} && t.users == s.users && t.now == s.now && t.sweep == s.sweep && t.used == s.used
  {
  }
}
