/** The handlers and the statements they send, over mutable tables. Each handler leaves the tables
    exactly as its step in `TreeSpec` says. */
module TreeStore {
  import opened Basics
  import opened Forest
  import Spec = TreeSpec
  import opened TreeInvariants

  // ---------- facts about removing closed sets ----------

  lemma {:induction false} WalkSurvives(g: Parents, gone: set<int>, d: int, n: nat)
    requires forall x | x in g && g[x].Some? && g[x].value in gone :: x in gone
    requires d !in gone && Up(g, d, n).Some?
    ensures Up(g - gone, d, n) == Up(g, d, n)
    decreases n
  {
    if n > 0 {
      var p: int := g[d].value;
      assert d in g;
      WalkSurvives(g, gone, p, n - 1);
    }
  }

  lemma {:induction false} WalkWasThere(g: Parents, gone: set<int>, d: int, n: nat)
    requires Up(g - gone, d, n).Some?
    ensures d !in gone && Up(g, d, n) == Up(g - gone, d, n)
    decreases n
  {
    if n > 0 {
      WalkWasThere(g, gone, g[d].value, n - 1);
    }
  }

  lemma UnderAfterRemoval(g: Parents, gone: set<int>, a: int, d: int)
    requires forall x | x in g && g[x].Some? && g[x].value in gone :: x in gone
    ensures Under(g - gone, a, d) <==> Under(g, a, d) && d !in gone
  {
    if Under(g - gone, a, d) {
      var n: nat :| Up(g - gone, d, n) == Some(a);
      WalkWasThere(g, gone, d, n);
    }
    if Under(g, a, d) && d !in gone {
      var n: nat :| Up(g, d, n) == Some(a);
      WalkSurvives(g, gone, d, n);
      assert Up(g - gone, d, n) == Some(a);
    }
  }

  /** `s` without the subtrees of `roots` and the files in them. */
  ghost function WithoutTrees(s: Spec.State, roots: set<int>): Spec.State {
    var gone := Spec.CascadeOf(s, roots);
    Spec.RemoveFolders(Spec.RemoveFilesIn(s, gone), gone)
  }

  lemma NextTreeGone(s: Spec.State, roots: set<int>, id: int)
    ensures var t := WithoutTrees(s, roots); var gone := Spec.CascadeOf(s, roots);
            && Spec.CascadeOf(s, roots + {id}) == gone + Spec.Subtree(t, id)
            && Spec.CascadeOf(t, Spec.Subtree(t, id)) == Spec.Subtree(t, id)
  {
    var g := Spec.Links(s.folders);
    var gone := Spec.CascadeOf(s, roots);
    var t := WithoutTrees(s, roots);
    assert Spec.Links(t.folders) == g - gone;
    forall x | x in g && g[x].Some? && g[x].value in gone ensures x in gone {
      CascadeClosed(s, roots, x);
    }
    forall d | d in s.folders
      ensures d in Spec.CascadeOf(s, roots + {id}) <==> d in gone + Spec.Subtree(t, id)
    {
      UnderAfterRemoval(g, gone, id, d);
      if d in Spec.CascadeOf(s, roots + {id}) {
        var a :| a in roots + {id} && Under(g, a, d);
        assert a in roots || a == id;
      }
      if d in gone {
        var a :| a in roots && Under(g, a, d);
        assert a in roots + {id};
      }
      if d in Spec.Subtree(t, id) {
        assert id in roots + {id} && Under(g, id, d);
      }
    }
    var h := Spec.Links(t.folders);
    forall x | x in h && h[x].Some? && h[x].value in Spec.Subtree(t, id) ensures x in Spec.Subtree(t, id) {
      UnderParent(h, id, x);
    }
    ClosedSetIsItsCascade(h, Spec.Subtree(t, id));
  }

  /** A file left after the first trees goes with the next one exactly when it lies in the union. */
  lemma NextTreeFiles(s: Spec.State, roots: set<int>, id: int)
    ensures Spec.PurgeTree(WithoutTrees(s, roots), id).files == WithoutTrees(s, roots + {id}).files
  {
    var gone, all := Spec.CascadeOf(s, roots), Spec.CascadeOf(s, roots + {id});
    var t := WithoutTrees(s, roots);
    var sub := Spec.Subtree(t, id);
    NextTreeGone(s, roots, id);
    assert Spec.CascadeOf(Spec.RemoveFilesIn(t, sub), sub) == sub;
    var v, w := Spec.PurgeTree(t, id), WithoutTrees(s, roots + {id});
    forall f | f in s.files && !Spec.InFolders(s.files[f].folder, gone)
      ensures f in t.files && t.files[f] == s.files[f]
      ensures Spec.InFolders(s.files[f].folder, sub) <==> Spec.InFolders(s.files[f].folder, all)
    {
    }
    forall f | f in s.files ensures f in v.files <==> f in w.files {
      if f in t.files {
        assert t.files[f] == s.files[f];
      }
    }
    forall f | f in v.files ensures f in w.files && v.files[f] == w.files[f] {
      assert f in t.files && t.files[f] == s.files[f];
    }
  }

  /** Purging the trees of a list one after the other purges the union of their subtrees. */
  lemma PurgeNextTree(s: Spec.State, roots: set<int>, id: int)
    ensures Spec.PurgeTree(WithoutTrees(s, roots), id) == WithoutTrees(s, roots + {id})
  {
    var t := WithoutTrees(s, roots);
    var sub := Spec.Subtree(t, id);
    NextTreeGone(s, roots, id);
    assert Spec.CascadeOf(Spec.RemoveFilesIn(t, sub), sub) == sub;
    var v, w := Spec.PurgeTree(t, id), WithoutTrees(s, roots + {id});
    NextTreeFiles(s, roots, id);
    assert v.folders == w.folders;
    forall x | x in s.sessions ensures v.sessions[x] == w.sessions[x] {
    }
    assert v.sessions == w.sessions;
  }

  lemma StampNone(s: Spec.State)
    ensures Spec.SoftDelete(s, {}) == s
  {
    assert Spec.SoftDelete(s, {}).folders == s.folders;
    forall f | f in s.files ensures Spec.SoftDelete(s, {}).files[f] == s.files[f] {}
    assert Spec.SoftDelete(s, {}).files == s.files;
  }

  lemma WithoutNoTrees(s: Spec.State)
    ensures WithoutTrees(s, {}) == s
  {
    var t := WithoutTrees(s, {});
    assert Spec.CascadeOf(s, {}) == {};
    forall f | f in s.files ensures f in t.files && t.files[f] == s.files[f] {}
    forall u | u in s.sessions ensures t.sessions[u] == s.sessions[u] {}
    assert t.files == s.files && t.sessions == s.sessions && t.folders == s.folders;
  }

  /** The order in which the engine happens to read a table's rows. */
  method TableScan(keys: set<int>) returns (scan: seq<int>)
    ensures NoRepeats(scan)
    ensures forall x :: x in scan <==> x in keys
    ensures SetOf(scan) == keys
  {
    scan := [];
    var left := keys;
    while left != {}
      invariant NoRepeats(scan)
      invariant forall x | x in scan :: x in keys && x !in left
      invariant forall x | x in keys :: x in scan || x in left
      invariant forall x | x in left :: x in keys
      decreases left
    {
      ghost var some := SomeMember(left);
      var x :| x in left;
      assert x !in scan;
      assert forall i | 0 <= i < |scan| :: scan[i] in scan;
      scan := scan + [x];
      left := left - {x};
    }
  }

  class Store {
    var folders: map<int, Spec.Folder>
    var files: map<int, Spec.File>
    var sessions: map<int, Spec.Session>
    var users: set<int>
    var projects: set<int>
    var now: int
    var used: Spec.Ids
    var sweep: Spec.Sweep  // where the janitor stands

    function View(): Spec.State
      reads this
    {
      Spec.State(folders, files, sessions, users, projects, now, used, sweep)
    }

    constructor ()
      ensures View() == Spec.EMPTY
    {
      folders, files, sessions, users, projects, now := map[], map[], map[], {}, {}, 0;
      used, sweep := Spec.Ids({}, {}, {}), Spec.Idle;
    }

    // ---------- statements ----------

    method GetFolder(id: int) returns (f: Option<Spec.Folder>)
      ensures f == if Spec.LiveFolder(View(), id) then Some(folders[id]) else None
    {
      if id in folders && folders[id].deleted.None? {
        f := Some(folders[id]);
      } else {
        f := None;
      }
    }

    /** A missing folder counts as trashed. */
    method IsFolderTrashed(id: int) returns (trashed: bool)
      ensures trashed <==> !Spec.LiveFolder(View(), id)
    {
      trashed := id !in folders || folders[id].deleted.Some?;
    }

    method ListSubtree(id: int) returns (ids: seq<int>)
      ensures NoRepeats(ids)
      ensures SetOf(ids) == Spec.Subtree(View(), id)
    {
      var scan := TableScan(folders.Keys);
      ids := ListFolderAndDescendantIDs(Spec.Links(folders), scan, id);
      forall d ensures d in ids <==> d in Spec.Subtree(View(), id) {
        if Under(Spec.Links(folders), id, d) {
          var n: nat :| Up(Spec.Links(folders), d, n) == Some(id);
          UpInTable(Spec.Links(folders), d, n);
        }
      }
    }

    method SoftDeleteFolderTree(ids: seq<int>)
      modifies this`files, this`folders
      ensures View() == Spec.SoftDelete(old(View()), SetOf(ids))
    {
      if ids == [] {
        StampNone(View());
        assert SetOf(ids) == {};
        return;
      }
      var named := SetOf(ids);
      files := map f | f in files ::
        if Spec.InFolders(files[f].folder, named) then files[f].(deleted := Some(now)) else files[f];
      folders := map d | d in folders ::
        if d in named then folders[d].(deleted := Some(now)) else folders[d];
    }

    method PurgeFiles(ids: seq<int>)
      modifies this`files
      ensures View() == Spec.RemoveFiles(old(View()), SetOf(ids))
    {
      files := files - SetOf(ids);
    }

    method DeleteFilesInFolders(ids: seq<int>)
      modifies this`files
      ensures View() == Spec.RemoveFilesIn(old(View()), SetOf(ids))
    {
      var named := SetOf(ids);
      files := map f | f in files && !Spec.InFolders(files[f].folder, named) :: files[f];
    }

    /** Deletes folder rows; the engine cascades over parent_id and clears the places that pointed
        at them. */
    method PurgeFolders(named: set<int>)
      modifies this`folders, this`files, this`sessions
      ensures View() == Spec.DropFolders(old(View()), named)
    {
      var gone := Cascade(Spec.Links(folders), named);
      assert gone == Spec.CascadeOf(View(), named);
      folders := folders - gone;
      files := map f | f in files :: Spec.DetachFile(files[f], gone);
      sessions := map u | u in sessions :: Spec.DetachSession(sessions[u], gone);
    }

    method PurgeFolderTree(id: int)
      modifies this`folders, this`files, this`sessions
      ensures View() == Spec.PurgeTree(old(View()), id)
    {
      var ids := ListSubtree(id);
      DeleteFilesInFolders(ids);
      PurgeFolders(SetOf(ids));
    }

    // ---------- handlers: browsing and creating ----------

    /** The breadcrumb trail of a folder, root first, the folder itself last when it is live. */
    method Breadcrumbs(id: int) returns (crumbs: seq<int>)
      requires Inv(View())
      ensures var g := Spec.Links(folders);
              var up := if Spec.LiveFolder(View(), id) && crumbs != [] then crumbs[..|crumbs| - 1] else crumbs;
              && (Spec.LiveFolder(View(), id) ==> crumbs == up + [id])
              && (forall i | 0 <= i < |up| :: Up(g, id, |up| - i) == Some(up[i]))
              && Up(g, id, |up| + 1) == None && NoRepeats(crumbs)
    {
      var g := Spec.Links(folders);
      if id !in g {
        assert Up(g, id, 0) == None;
      }
      assert Ends(g, id);
      crumbs := GetFolderAncestors(g, id);
      var f := GetFolder(id);
      if f.Some? {
        crumbs := crumbs + [id];
      }
    }

    method CreateFolder(id: int, user: int, parent: Option<int>, scope: string, project: Option<int>, permitted: bool)
      modifies this`folders, this`used
      ensures View() == Spec.CreateFolder(old(View()), id, user, parent, scope, project, permitted)
    {
      if scope == "project" && (project.None? || project.value <= 0) { return; }
      if !permitted { return; }
      var valid := DestFolderValid(parent, scope, project, user);
      if !valid { return; }
      var kept := None;
      if scope == "project" { kept := project; }
      if id in used.folders || user !in users || (kept.Some? && kept.value !in projects) { return; }
      folders := folders[id := Spec.Folder(parent, user, kept, scope, None)];
      used := used.(folders := used.folders + {id});
    }

    method DestFolderValid(dest: Option<int>, scope: string, project: Option<int>, owner: int) returns (valid: bool)
      ensures valid <==> Spec.DestFolderValid(View(), dest, scope, project, owner)
    {
      if dest.None? { return true; }
      var f := GetFolder(dest.value);
      if f.None? { return false; }
      if f.value.scope != scope || f.value.project != project { return false; }
      if scope == "personal" && f.value.owner != owner { return false; }
      return true;
    }

    /** The checks a direct upload, a blank document and a resumable upload share. */
    method UploadDestination(user: int, folder: Option<int>, asked: string, given: Option<int>, accepted: bool)
      returns (ok: bool, scope: string, project: Option<int>)
      ensures ok <==> Spec.UploadAccepted(View(), user, folder, asked, given, accepted)
      ensures scope == Spec.UploadScope(asked) && project == Spec.UploadProject(asked, given)
    {
      ok, scope, project := false, asked, None;
      if scope == "project" {
        project := given;
        if given.None? || given.value <= 0 { return; }
      } else if scope != "common" {
        scope := "personal";
      }
      if !accepted { return; }
      ok := DestFolderValid(folder, scope, project, user);
      ok := ok && user in users && (project.Some? ==> project.value in projects);
    }

    method CreateFile(id: int, user: int, folder: Option<int>, asked: string, given: Option<int>, accepted: bool)
      modifies this`files, this`used
      ensures View() == Spec.CreateFile(old(View()), id, user, folder, asked, given, accepted)
    {
      var ok, scope, project := UploadDestination(user, folder, asked, given, accepted);
      if !ok || id in used.files { return; }
      files := files[id := Spec.File(folder, user, project, scope, None)];
      used := used.(files := used.files + {id});
    }

    method InitUpload(sid: int, user: int, folder: Option<int>, asked: string, given: Option<int>, accepted: bool)
      modifies this`sessions, this`used
      ensures View() == Spec.InitUpload(old(View()), sid, user, folder, asked, given, accepted)
    {
      var ok, scope, project := UploadDestination(user, folder, asked, given, accepted);
      if !ok || sid in used.sessions { return; }
      sessions := sessions[sid := Spec.Session(folder, user, project, scope)];
      used := used.(sessions := used.sessions + {sid});
    }

    method CompleteUpload(sid: int, id: int, permitted: bool, answer: Spec.Completion)
      modifies this`files, this`sessions, this`used
      ensures View() == Spec.CompleteUpload(old(View()), sid, id, permitted, answer)
    {
      if sid !in sessions || !permitted { return; }
      var u := sessions[sid];
      if u.folder.Some? {
        var f := GetFolder(u.folder.value);
        if f.None? {
          sessions := sessions - {sid};
          return;
        }
      }
      if answer == Spec.Refused { return; }
      if answer == Spec.OverQuota {
        sessions := sessions - {sid};
        return;
      }
      if id in used.files || u.owner !in users || (u.project.Some? && u.project.value !in projects) { return; }
      files := files[id := Spec.File(u.folder, u.owner, u.project, u.scope, None)];
      used := used.(files := used.files + {id});
      sessions := sessions - {sid};
    }

    // ---------- handlers: moving ----------

    method MoveFile(id: int, dest: Option<int>, canEdit: bool, canEditDest: bool)
      modifies this`files
      ensures View() == Spec.MoveFile(old(View()), id, dest, canEdit, canEditDest)
    {
      if id !in files || files[id].deleted.Some? || !canEdit { return; }
      var f := files[id];
      if dest.Some? {
        var to := GetFolder(dest.value);
        if to.None? { return; }
        if to.value.scope != f.scope || to.value.project != f.project { return; }
        if f.scope == "personal" && to.value.owner != f.owner { return; }
        if !canEditDest { return; }
      }
      files := files[id := f.(folder := dest)];
    }

    method MoveFolder(id: int, dest: Option<int>, canEdit: bool, canEditDest: bool)
      modifies this`folders
      ensures View() == Spec.MoveFolder(old(View()), id, dest, canEdit, canEditDest)
    {
      var f := GetFolder(id);
      if f.None? || !canEdit { return; }
      if dest.Some? {
        if dest.value == id { return; }
        var to := GetFolder(dest.value);
        if to.None? { return; }
        if to.value.scope != f.value.scope || to.value.project != f.value.project { return; }
        if f.value.scope == "personal" && to.value.owner != f.value.owner { return; }
        if !canEditDest { return; }
        var below := ListSubtree(id);
        assert dest.value in Spec.Subtree(View(), id) <==> dest.value in SetOf(below);
        for i := 0 to |below|
          invariant dest.value !in below[..i]
          invariant View() == old(View())
        {
          if below[i] == dest.value { return; }
        }
        assert below[..|below|] == below;
      }
      folders := folders[id := f.value.(parent := dest)];
    }

    // ---------- handlers: trash ----------

    method DeleteFile(id: int, permitted: bool)
      modifies this`files
      ensures View() == Spec.DeleteFile(old(View()), id, permitted)
    {
      if id !in files || files[id].deleted.Some? || !permitted { return; }
      files := files[id := files[id].(deleted := Some(now))];
    }

    method DeleteFolder(id: int, permitted: bool)
      modifies this`folders, this`files
      ensures View() == Spec.DeleteFolder(old(View()), id, permitted)
    {
      var f := GetFolder(id);
      if f.None? || !permitted { return; }
      var ids := ListSubtree(id);
      SoftDeleteFolderTree(ids);
    }

    method RestoreFile(id: int, permitted: bool)
      modifies this`files
      ensures View() == Spec.RestoreFile(old(View()), id, permitted)
    {
      if id !in files || files[id].deleted.None? || !permitted { return; }
      var place := files[id].folder;
      if place.Some? {
        var trashed := IsFolderTrashed(place.value);
        if trashed { place := None; }
      }
      files := files[id := files[id].(deleted := None, folder := place)];
    }

    method RestoreFolder(id: int, permitted: bool)
      modifies this`folders
      ensures View() == Spec.RestoreFolder(old(View()), id, permitted)
    {
      if id !in folders || folders[id].deleted.None? || !permitted { return; }
      var place := folders[id].parent;
      if place.Some? {
        var trashed := IsFolderTrashed(place.value);
        if trashed { place := None; }
      }
      folders := folders[id := folders[id].(deleted := None, parent := place)];
    }

    method PurgeFile(id: int, permitted: bool)
      modifies this`files
      ensures View() == Spec.PurgeFile(old(View()), id, permitted)
    {
      if id !in files || files[id].deleted.None? || !permitted { return; }
      PurgeFiles([id]);
      assert SetOf([id]) == {id};
    }

    method PurgeFolder(id: int, permitted: bool)
      modifies this`folders, this`files, this`sessions
      ensures View() == Spec.PurgeFolder(old(View()), id, permitted)
    {
      if id !in folders || folders[id].deleted.None? || !permitted { return; }
      PurgeFolderTree(id);
    }

    /** A listed folder whose tree went with an earlier one is simply not found again. */
    method EmptyTrash(user: int)
      modifies this`folders, this`files, this`sessions
      ensures View() == Spec.EmptyTrash(old(View()), user)
    {
      ghost var s := View();
      var fileIDs := TableScan(Spec.TrashedFilesOf(View(), user));
      var list := TableScan(Spec.TrashedFoldersOf(View(), user));
      WithoutNoTrees(s);
      ghost var done: set<int> := {};
      for i := 0 to |list|
        invariant done == SetOf(list[..i])
        invariant View() == WithoutTrees(s, done)
      {
        PurgeFolderTree(list[i]);
        PurgeNextTree(s, done, list[i]);
        done := done + {list[i]};
      }
      assert list[..|list|] == list;
      assert done == Spec.TrashedFoldersOf(s, user);
      PurgeFiles(fileIDs);
      assert SetOf(fileIDs) == Spec.TrashedFilesOf(s, user);
    }

    // ---------- the janitor ----------

    /** The expired files as listed, in the order their objects are then deleted. */
    method JanitorList() returns (fileIDs: seq<int>)
      modifies this`sweep
      ensures View() == Spec.JanitorList(old(View())) && SetOf(fileIDs) == sweep.ids
    {
      var cutoff := now - Spec.TRASH_RETENTION;
      var listed := TableScan(Spec.ExpiredFiles(View(), cutoff));
      fileIDs := [];
      for i := 0 to |listed|
        invariant fileIDs == listed[..i]
      {
        fileIDs := fileIDs + [listed[i]];
      }
      assert listed[..|listed|] == listed;
      sweep := Spec.FilesListed(cutoff, Spec.ExpiredFiles(View(), cutoff));
    }

    /** The purge knows the ids listed and nothing else. */
    method JanitorFiles(fileIDs: seq<int>)
      requires sweep.FilesListed? && SetOf(fileIDs) == sweep.ids
      modifies this`files, this`sweep
      ensures View() == Spec.JanitorFiles(old(View()))
    {
      PurgeFiles(fileIDs);
      sweep := Spec.FilesPurged(sweep.cutoff);
    }

    method JanitorListFolders() returns (folderIDs: seq<int>)
      requires sweep.FilesPurged?
      modifies this`sweep
      ensures View() == Spec.JanitorListFolders(old(View())) && SetOf(folderIDs) == sweep.ids
    {
      var expired := Spec.ExpiredFolders(View(), sweep.cutoff);
      folderIDs := TableScan(expired);
      sweep := Spec.FoldersListed(sweep.cutoff, expired);
    }

    method JanitorFolders(folderIDs: seq<int>)
      requires sweep.FoldersListed? && SetOf(folderIDs) == sweep.ids
      modifies this`folders, this`files, this`sessions, this`sweep
      ensures View() == Spec.JanitorFolders(old(View()))
    {
      PurgeFolders(SetOf(folderIDs));
      sweep := Spec.Idle;
    }

    /** The whole sweep, nothing in between. */
    method PurgeExpiredTrash()
      modifies this`folders, this`files, this`sessions, this`sweep
      ensures View() == Spec.JanitorFolders(Spec.JanitorListFolders(Spec.JanitorFiles(Spec.JanitorList(old(View())))))
    {
      var fileIDs := JanitorList();
      JanitorFiles(fileIDs);
      var folderIDs := JanitorListFolders();
      JanitorFolders(folderIDs);
    }

    // ---------- accounts and projects ----------

    method ReassignAndDeleteUser(from: int, to: int)
      modifies this`folders, this`files, this`sessions, this`users
      ensures View() == Spec.DropUser(Spec.Reassign(old(View()), from, to), from)
    {
      files := map f | f in files ::
        if files[f].owner == from && files[f].scope != "personal" then files[f].(owner := to) else files[f];
      folders := map d | d in folders ::
        if folders[d].owner == from && folders[d].scope != "personal" then folders[d].(owner := to) else folders[d];
      ghost var r := Spec.Reassign(old(View()), from, to);
      assert View() == r;
      DeleteUserRow(from);
    }

    /** The row's deletion cascades to what the user still owns. */
    method DeleteUserRow(from: int)
      modifies this`folders, this`files, this`sessions, this`users
      ensures View() == Spec.DropUser(old(View()), from)
    {
      users := users - {from};
      files := map f | f in files && files[f].owner != from :: files[f];
      sessions := map u | u in sessions && sessions[u].owner != from :: sessions[u];
      PurgeFolders(set d | d in folders && folders[d].owner == from);
    }

    method DeleteUser(user: int, actor: int, permitted: bool)
      modifies this`folders, this`files, this`sessions, this`users
      ensures View() == Spec.DeleteUser(old(View()), user, actor, permitted)
    {
      if !permitted || actor !in users { return; }
      ReassignAndDeleteUser(user, actor);
    }

    method DeleteProject(project: int)
      modifies this`folders, this`files, this`sessions, this`projects
      ensures View() == Spec.DeleteProject(old(View()), project)
    {
      sessions := map u | u in sessions && sessions[u].project != Some(project) :: sessions[u];
      files := map f | f in files && files[f].project != Some(project) :: files[f];
      projects := projects - {project};
      PurgeFolders(set d | d in folders && folders[d].project == Some(project));
    }
  }
}
