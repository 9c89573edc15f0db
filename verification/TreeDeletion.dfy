/** Deletion and the trash: what a purge, a janitor sweep, a deleted account and a deleted project
    take with them, and what restoring gives back. */
module TreeDeletion {
  import opened Basics
  import opened Forest
  import opened TreeSpec
  import opened TreeInvariants

  // ---------- what reachable states look like ----------

  /** In every reachable state a live file or folder sits at a root or under a live folder, and
      whatever lies below a trashed folder, however deep, carries that folder's stamp. */
  lemma NothingLiveInTheTrash(ops: seq<Op>)
    ensures var s := Run(EMPTY, ops);
            && (forall d | LiveFolder(s, d) && s.folders[d].parent.Some? :: LiveFolder(s, s.folders[d].parent.value))
            && (forall f | LiveFile(s, f) && s.files[f].folder.Some? :: LiveFolder(s, s.files[f].folder.value))
            && (forall a, d | a in s.folders && s.folders[a].deleted.Some? && Under(Links(s.folders), a, d) ::
                  d in s.folders && s.folders[d].deleted == s.folders[a].deleted)
            && (forall a, f | a in s.folders && s.folders[a].deleted.Some? && f in s.files
                  && s.files[f].folder == Some(a) :: s.files[f].deleted == s.folders[a].deleted)
  {
    var s := Run(EMPTY, ops);
    ReachableStatesAreSound(ops);
    forall d | LiveFolder(s, d) && s.folders[d].parent.Some? ensures LiveFolder(s, s.folders[d].parent.value) {
      assert FolderSound(s.folders[d], s.folders);
    }
    forall f | LiveFile(s, f) && s.files[f].folder.Some? ensures LiveFolder(s, s.files[f].folder.value) {
      assert FileSound(s.files[f], s.folders);
    }
    forall a, d | a in s.folders && s.folders[a].deleted.Some? && Under(Links(s.folders), a, d)
      ensures d in s.folders && s.folders[d].deleted == s.folders[a].deleted
    {
      SubtreeOfTrash(s, a, d);
    }
    forall a, f | a in s.folders && s.folders[a].deleted.Some? && f in s.files && s.files[f].folder == Some(a)
      ensures s.files[f].deleted == s.folders[a].deleted
    {
      assert FileSound(s.files[f], s.folders);
    }
  }

  /** In every reachable state a whole subtree belongs to one space. */
  lemma SubtreesStayInOneSpace(ops: seq<Op>, a: int, d: int)
    requires var s := Run(EMPTY, ops); a in s.folders && Under(Links(s.folders), a, d)
    ensures var s := Run(EMPTY, ops);
            d in s.folders && s.folders[d].scope == s.folders[a].scope && s.folders[d].project == s.folders[a].project
            && (s.folders[a].scope == "personal" ==> s.folders[d].owner == s.folders[a].owner)
  {
    ReachableStatesAreSound(ops);
    SubtreeOneSpace(Run(EMPTY, ops), a, d);
  }

  // ---------- purging removes trash only ----------

  /** Rows missing from `t` were trashed; rows still there are untouched, place included. */
  ghost predicate OnlyTrashRemoved(s: State, t: State) {
    && (forall d | d in s.folders && d !in t.folders :: s.folders[d].deleted.Some?)
    && (forall f | f in s.files && f !in t.files :: s.files[f].deleted.Some?)
    && (forall d | d in t.folders :: d in s.folders && t.folders[d] == s.folders[d])
    && (forall f | f in t.files :: f in s.files && t.files[f] == s.files[f])
  }

  predicate IsPurge(op: Op) {
    op.OpPurgeFile? || op.OpPurgeFolder? || op.OpEmptyTrash? || op.OpJanitorFiles? || op.OpJanitorFolders?
  }

  lemma FileBelowTrash(s: State, ids: set<int>, f: int)
    requires Inv(s) && (forall a | a in ids && a in s.folders :: s.folders[a].deleted.Some?)
    requires f in s.files && InFolders(s.files[f].folder, CascadeOf(s, ids))
    ensures s.files[f].deleted.Some?
  {
    var p: int := s.files[f].folder.value;
    FolderBelowTrash(s, ids, p);
    assert FileSound(s.files[f], s.folders);
  }

  lemma FolderBelowTrash(s: State, ids: set<int>, d: int)
    requires Inv(s) && (forall a | a in ids && a in s.folders :: s.folders[a].deleted.Some?)
    requires d in CascadeOf(s, ids)
    ensures s.folders[d].deleted.Some?
  {
    var a :| a in ids && Under(Links(s.folders), a, d);
    var n: nat :| Up(Links(s.folders), d, n) == Some(a);
    UpInTable(Links(s.folders), d, n);
    SubtreeOfTrash(s, a, d);
  }

  lemma SubtreeIsCascade(s: State, id: int)
    ensures CascadeOf(s, Subtree(s, id)) == Subtree(s, id)
  {
    var g := Links(s.folders);
    forall d | d in s.folders && g[d].Some? && g[d].value in Subtree(s, id) ensures d in Subtree(s, id) {
      UnderParent(g, id, d);
    }
    ClosedSetIsItsCascade(g, Subtree(s, id));
  }

  /** Purging one folder removes exactly its subtree and the files in it. */
  lemma PurgeFolderExact(s: State, id: int)
    requires Inv(s) && id in s.folders && s.folders[id].deleted.Some?
    ensures var t := PurgeFolder(s, id, true);
            t.folders.Keys == s.folders.Keys - Subtree(s, id) && OnlyTrashRemoved(s, t)
            && (forall f | f in s.files :: f !in t.files <==> InFolders(s.files[f].folder, Subtree(s, id)))
  {
    var ids := Subtree(s, id);
    var t := PurgeFolder(s, id, true);
    SubtreeIsCascade(s, id);
    assert CascadeOf(RemoveFilesIn(s, ids), ids) == ids;
    forall d | d in s.folders && d !in t.folders ensures s.folders[d].deleted.Some? {
      SubtreeOfTrash(s, id, d);
    }
    forall f | f in s.files && f !in t.files ensures s.files[f].deleted.Some? {
      var p: int := s.files[f].folder.value;
      SubtreeOfTrash(s, id, p);
      assert FileSound(s.files[f], s.folders);
    }
  }

  /** At or below a trashed folder that this user owns. */
  ghost predicate InOwnTrash(s: State, user: int, d: int) {
    exists a :: a in s.folders && s.folders[a].deleted.Some? && s.folders[a].owner == user && Under(Links(s.folders), a, d)
  }

  lemma OwnTrashIsCascade(s: State, user: int, d: int)
    requires d in s.folders
    ensures d in CascadeOf(s, TrashedFoldersOf(s, user)) <==> InOwnTrash(s, user, d)
  {
    forall a ensures a in TrashedFoldersOf(s, user) <==> a in s.folders && s.folders[a].deleted.Some? && s.folders[a].owner == user {
    }
    assert Doomed(Links(s.folders), TrashedFoldersOf(s, user), d) <==> InOwnTrash(s, user, d);
  }

  predicate OwnTrashedFile(s: State, user: int, f: int)
    requires f in s.files
  {
    s.files[f].deleted.Some? && s.files[f].owner == user
  }

  /** In or below a trashed folder of this user's. */
  ghost predicate FileInOwnTrash(s: State, user: int, f: int)
    requires f in s.files
  {
    s.files[f].folder.Some? && InOwnTrash(s, user, s.files[f].folder.value)
  }

  lemma FileInOwnTrashIsCascade(s: State, user: int, f: int)
    requires RefsResolve(s) && f in s.files
    ensures InFolders(s.files[f].folder, CascadeOf(s, TrashedFoldersOf(s, user))) <==> FileInOwnTrash(s, user, f)
  {
    if s.files[f].folder.Some? {
      var p: int := s.files[f].folder.value;
      assert p in s.folders;
      OwnTrashIsCascade(s, user, p);
    }
  }

  lemma EmptyTrashRemovesTrash(s: State, user: int)
    requires Inv(s)
    ensures OnlyTrashRemoved(s, EmptyTrash(s, user))
  {
    var roots := TrashedFoldersOf(s, user);
    var t := EmptyTrash(s, user);
    forall d | d in s.folders && d !in t.folders ensures s.folders[d].deleted.Some? {
      FolderBelowTrash(s, roots, d);
    }
    forall f | f in s.files && f !in t.files ensures s.files[f].deleted.Some? {
      if f !in TrashedFilesOf(s, user) {
        FileBelowTrash(s, roots, f);
      }
    }
  }

  /** Emptying the trash removes exactly the trees of the caller's trashed folders, the files in them,
      and the caller's other trashed files; everybody else's trash stays, and nothing live goes. */
  lemma EmptyTrashExact(s: State, user: int)
    requires Inv(s)
    ensures var t := EmptyTrash(s, user);
            && OnlyTrashRemoved(s, t)
            && (forall d | d in s.folders :: d !in t.folders <==> InOwnTrash(s, user, d))
            && (forall f | f in s.files :: f !in t.files <==> OwnTrashedFile(s, user, f) || FileInOwnTrash(s, user, f))
  {
    var t := EmptyTrash(s, user);
    EmptyTrashRemovesTrash(s, user);
    forall d | d in s.folders ensures d !in t.folders <==> InOwnTrash(s, user, d) {
      OwnTrashIsCascade(s, user, d);
    }
    forall f | f in s.files ensures f !in t.files <==> OwnTrashedFile(s, user, f) || FileInOwnTrash(s, user, f) {
      FileInOwnTrashIsCascade(s, user, f);
    }
  }

  /** Afterwards the caller has no trash left. */
  lemma EmptyTrashLeavesNone(s: State, user: int)
    requires Inv(s)
    ensures var t := EmptyTrash(s, user);
            && (forall d | d in t.folders :: t.folders[d].deleted.Some? ==> t.folders[d].owner != user)
            && (forall f | f in t.files :: !OwnTrashedFile(t, user, f))
  {
    EmptyTrashExact(s, user);
    var t := EmptyTrash(s, user);
    forall d | d in t.folders && t.folders[d].deleted.Some? ensures t.folders[d].owner != user {
      UnderSelf(Links(s.folders), d);
      assert !InOwnTrash(s, user, d);
      assert t.folders[d] == s.folders[d];
    }
    forall f | f in t.files ensures !OwnTrashedFile(t, user, f) {
      assert t.files[f].deleted == s.files[f].deleted && t.files[f].owner == s.files[f].owner;
    }
  }

  // ---------- purges by ids listed earlier ----------

  /** The folders older than the cutoff are closed under children, and when no file is older none lies in
      them: exactly they would go. */
  lemma ExpiredFoldersAlone(s: State, cutoff: int)
    requires Inv(s) && ExpiredFiles(s, cutoff) == {}
    ensures var gone := ExpiredFolders(s, cutoff); var t := DropFolders(s, gone);
            CascadeOf(s, gone) == gone && t.folders == s.folders - gone && t.files == s.files
  {
    var g := Links(s.folders);
    var gone := ExpiredFolders(s, cutoff);
    forall d | d in g && g[d].Some? && g[d].value in gone ensures d in gone {
      assert FolderSound(s.folders[d], s.folders);
    }
    ClosedSetIsItsCascade(g, gone);
    forall f | f in s.files ensures DetachFile(s.files[f], gone) == s.files[f] {
      NotInExpired(s, cutoff, f);
    }
  }

  lemma NotInExpired(s: State, cutoff: int, f: int)
    requires Inv(s) && ExpiredFiles(s, cutoff) == {} && f in s.files
    ensures !InFolders(s.files[f].folder, ExpiredFolders(s, cutoff))
  {
    if s.files[f].folder.Some? {
      var p: int := s.files[f].folder.value;
      assert FileSound(s.files[f], s.folders) && f !in ExpiredFiles(s, cutoff);
      assert p !in ExpiredFolders(s, cutoff);
    }
  }

  /** Only the ids that are still rows matter. */
  lemma CascadeOfPresent(s: State, ids: set<int>, present: set<int>)
    requires present == set d | d in ids && d in s.folders
    ensures CascadeOf(s, ids) == CascadeOf(s, present)
  {
    var g := Links(s.folders);
    forall d | d in CascadeOf(s, ids) ensures d in CascadeOf(s, present) {
      var a :| a in ids && Under(g, a, d);
      var n: nat :| Up(g, d, n) == Some(a);
      UpInTable(g, d, n);
      assert a in present;
    }
    forall d | d in CascadeOf(s, present) ensures d in CascadeOf(s, ids) {
      var a :| a in present && Under(g, a, d);
      assert a in ids;
    }
  }

  /** Every listed folder that is still a row still carries a stamp older than the cutoff. */
  predicate StillExpired(s: State, ids: set<int>, cutoff: int) {
    forall d | d in ids && d in s.folders :: Expired(s.folders[d].deleted, cutoff)
  }

  /** The purge by ids takes the listed rows still there with everything below them, and leaves no folder
      older than the cutoff. It takes exactly the expired folders, and touches no file, if and only if
      every listed row still there still is expired. */
  lemma JanitorFoldersExactIff(s: State)
    requires Inv(s) && s.sweep.FoldersListed?
    ensures var t := JanitorFolders(s); var (ids, cutoff) := (s.sweep.ids, s.sweep.cutoff);
            && t.folders == s.folders - CascadeOf(s, ids)
            && ExpiredFolders(t, cutoff) == {} && ExpiredFiles(t, cutoff) == {}
            && (t.folders == s.folders - ExpiredFolders(s, cutoff) && t.files == s.files <==> StillExpired(s, ids, cutoff))
  {
    NoneExpiredLeft(s);
    if StillExpired(s, s.sweep.ids, s.sweep.cutoff) {
      StillExpiredIsExact(s);
    }
    if JanitorFolders(s).folders == s.folders - ExpiredFolders(s, s.sweep.cutoff) {
      ExactIsStillExpired(s);
    }
  }

  lemma StillExpiredIsExact(s: State)
    requires Inv(s) && s.sweep.FoldersListed? && StillExpired(s, s.sweep.ids, s.sweep.cutoff)
    ensures var t := JanitorFolders(s); t.folders == s.folders - ExpiredFolders(s, s.sweep.cutoff) && t.files == s.files
  {
    var present := set d | d in s.sweep.ids && d in s.folders;
    NoneExpiredLeft(s);
    forall d ensures d in present <==> d in ExpiredFolders(s, s.sweep.cutoff) { }
    CascadeOfPresent(s, s.sweep.ids, present);
    assert present == ExpiredFolders(s, s.sweep.cutoff);
    ExpiredFoldersAlone(s, s.sweep.cutoff);
  }

  lemma ExactIsStillExpired(s: State)
    requires s.sweep.FoldersListed? && JanitorFolders(s).folders == s.folders - ExpiredFolders(s, s.sweep.cutoff)
    ensures StillExpired(s, s.sweep.ids, s.sweep.cutoff)
  {
    forall d | d in s.sweep.ids && d in s.folders ensures Expired(s.folders[d].deleted, s.sweep.cutoff) {
      ListedGoes(s, s.sweep.ids, d);
      assert d !in JanitorFolders(s).folders;
    }
  }

  lemma ListedGoes(s: State, ids: set<int>, d: int)
    requires d in ids && d in s.folders
    ensures d in CascadeOf(s, ids)
  {
    UnderSelf(Links(s.folders), d);
  }

  lemma NoneExpiredLeft(s: State)
    requires Inv(s) && s.sweep.FoldersListed?
    ensures ExpiredFiles(s, s.sweep.cutoff) == {}
    ensures ExpiredFolders(JanitorFolders(s), s.sweep.cutoff) == {} && ExpiredFiles(JanitorFolders(s), s.sweep.cutoff) == {}
  {
    var t, cutoff := JanitorFolders(s), s.sweep.cutoff;
    forall f | f in s.files ensures !Expired(s.files[f].deleted, cutoff) { }
    forall d | d in ExpiredFolders(s, cutoff) ensures d !in t.folders {
      ListedGoes(s, s.sweep.ids, d);
    }
    forall f | f in t.files ensures !Expired(t.files[f].deleted, cutoff) {
      assert t.files[f].deleted == s.files[f].deleted;
    }
  }

  /** A purge of folder rows by id takes a live one if and only if one of those named is live. */
  lemma LiveFolderGoesIff(s: State, ids: set<int>)
    requires Inv(s)
    ensures (exists d :: LiveFolder(s, d) && d !in DropFolders(s, ids).folders) <==> (exists a :: a in ids && LiveFolder(s, a))
  {
    if d :| LiveFolder(s, d) && d !in DropFolders(s, ids).folders {
      var a :| a in ids && Under(Links(s.folders), a, d);
      AboveLive(s, a, d);
    }
    if a :| a in ids && LiveFolder(s, a) {
      ListedGoes(s, ids, a);
      assert a !in DropFolders(s, ids).folders;
    }
  }

  /** Everything above a live folder is live. */
  lemma AboveLive(s: State, a: int, d: int)
    requires Inv(s) && LiveFolder(s, d) && Under(Links(s.folders), a, d)
    ensures LiveFolder(s, a)
  {
    var n: nat :| Up(Links(s.folders), d, n) == Some(a);
    UpInTable(Links(s.folders), d, n);
    if s.folders[a].deleted.Some? { SubtreeOfTrash(s, a, d); }
  }

  /** A file the janitor has listed for purging is live again. */
  ghost predicate ListIsStale(s: State) {
    s.sweep.FilesListed? && exists f :: f in s.sweep.ids && LiveFile(s, f)
  }

  lemma JanitorFilesExactIff(s: State)
    requires Inv(s)
    ensures OnlyTrashRemoved(s, JanitorFiles(s)) <==> !ListIsStale(s)
  {
    var t := JanitorFiles(s);
    if ListIsStale(s) {
      var f :| f in s.sweep.ids && LiveFile(s, f);
      assert f in s.files && f !in t.files;
    }
  }

  /** A folder the janitor has listed for purging is live again, or holds files again. */
  ghost predicate FolderListIsStale(s: State) {
    s.sweep.FoldersListed? && exists d :: d in s.sweep.ids && d in s.folders && (LiveFolder(s, d) || HoldsFiles(s, d))
  }

  /** At this folder or below it lies a file. */
  ghost predicate HoldsFiles(s: State, d: int) {
    exists f :: f in s.files && s.files[f].folder.Some? && Under(Links(s.folders), d, s.files[f].folder.value)
  }

  lemma JanitorFoldersRemoveTrashIff(s: State)
    requires Inv(s)
    ensures OnlyTrashRemoved(s, JanitorFolders(s)) <==> !FolderListIsStale(s)
  {
    if s.sweep.FoldersListed? {
      if FolderListIsStale(s) {
        StaleListTakesMore(s);
      } else {
        FreshListTakesTrash(s);
      }
    }
  }

  lemma StaleListTakesMore(s: State)
    requires Inv(s) && FolderListIsStale(s)
    ensures !OnlyTrashRemoved(s, JanitorFolders(s))
  {
    var t, ids := JanitorFolders(s), s.sweep.ids;
    var d :| d in ids && d in s.folders && (LiveFolder(s, d) || HoldsFiles(s, d));
    if LiveFolder(s, d) {
      ListedGoes(s, ids, d);
      assert d !in t.folders;
    } else {
      var f :| f in s.files && s.files[f].folder.Some? && Under(Links(s.folders), d, s.files[f].folder.value);
      assert s.files[f].folder.value in CascadeOf(s, ids);
      assert t.files[f] == s.files[f].(folder := None);
    }
  }

  lemma FreshListTakesTrash(s: State)
    requires Inv(s) && s.sweep.FoldersListed? && !FolderListIsStale(s)
    ensures OnlyTrashRemoved(s, JanitorFolders(s))
  {
    var t, ids := JanitorFolders(s), s.sweep.ids;
    assert forall a | a in ids :: !LiveFolder(s, a);
    LiveFolderGoesIff(s, ids);
    forall d | d in s.folders && d !in t.folders ensures s.folders[d].deleted.Some? {
      assert !LiveFolder(s, d);
    }
    forall f | f in s.files ensures DetachFile(s.files[f], CascadeOf(s, ids)) == s.files[f] {
      if InFolders(s.files[f].folder, CascadeOf(s, ids)) {
        var a :| a in ids && Under(Links(s.folders), a, s.files[f].folder.value);
        var n: nat :| Up(Links(s.folders), s.files[f].folder.value, n) == Some(a);
        UpInTable(Links(s.folders), s.files[f].folder.value, n);
        assert HoldsFiles(s, a);
      }
    }
  }

  /** A purge removes no live row, moves none and clears no place, with two exceptions that it always
      gets wrong: the janitor's purges by id when a listed file or folder is live again or, for a folder,
      holds files again. */
  lemma PurgesRemoveOnlyTrashIff(s: State, op: Op)
    requires Inv(s) && IsPurge(op)
    ensures OnlyTrashRemoved(s, Apply(s, op)) <==>
            !(op.OpJanitorFiles? && ListIsStale(s)) && !(op.OpJanitorFolders? && FolderListIsStale(s))
  {
    match op
    case OpPurgeFile(id, ok) => PurgeFileRemovesTrash(s, id, ok);
    case OpPurgeFolder(id, ok) => PurgeFolderRemovesTrash(s, id, ok);
    case OpEmptyTrash(u) => EmptyTrashRemovesTrash(s, u);
    case OpJanitorFiles => JanitorFilesExactIff(s);
    case OpJanitorFolders => JanitorFoldersRemoveTrashIff(s);
  }

  lemma PurgeFileRemovesTrash(s: State, id: int, ok: bool)
    ensures OnlyTrashRemoved(s, PurgeFile(s, id, ok))
  {
  }

  lemma PurgeFolderRemovesTrash(s: State, id: int, ok: bool)
    requires Inv(s)
    ensures OnlyTrashRemoved(s, PurgeFolder(s, id, ok))
  {
    if ok && id in s.folders && s.folders[id].deleted.Some? { PurgeFolderExact(s, id); }
  }

  predicate IsHardDelete(op: Op) {
    IsPurge(op) || IsPurgeCall(op) || op.OpDeleteUser? || op.OpDeleteProject?
  }

  /** Every other step keeps every row: deleting to the trash, moving and restoring lose nothing. */
  lemma OnlyHardDeletesRemoveRows(s: State, op: Op)
    requires !IsHardDelete(op)
    ensures s.folders.Keys <= Apply(s, op).folders.Keys && s.files.Keys <= Apply(s, op).files.Keys
  {
    match op
    case OpDeleteFolder(id, ok) =>
    case OpMoveFolder(id, p, ok, ok2) =>
    case OpCompleteUpload(_, _, _, _) =>
    case _ =>
  }

  // ---------- deleting an account ----------

  predicate PersonalTo(scope: string, owner: int, user: int) {
    scope == "personal" && owner == user
  }

  /** Exactly the user's personal rows go; every other row stays where it is, with ownership of
      the user's shared rows handed over. */
  ghost predicate RemovesExactlyPersonal(s: State, t: State, user: int, heir: int) {
    && (forall d | d in s.folders :: d in t.folders <==> !PersonalTo(s.folders[d].scope, s.folders[d].owner, user))
    && (forall f | f in s.files :: f in t.files <==> !PersonalTo(s.files[f].scope, s.files[f].owner, user))
    && (forall d | d in t.folders :: d in s.folders && t.folders[d] ==
          (if s.folders[d].owner == user then s.folders[d].(owner := heir) else s.folders[d]))
    && (forall f | f in t.files :: f in s.files && t.files[f] ==
          (if s.files[f].owner == user then s.files[f].(owner := heir) else s.files[f]))
  }

  ghost predicate OwnsShared(s: State, user: int) {
    || (exists d :: d in s.folders && s.folders[d].owner == user && s.folders[d].scope != "personal")
    || (exists f :: f in s.files && s.files[f].owner == user && s.files[f].scope != "personal")
  }

  /** Once nothing shared is left with the user, the cascade stays inside the personal rows. */
  lemma OwnedFoldersClosed(s: State, user: int)
    requires Inv(s) && !OwnsShared(s, user)
    ensures CascadeOf(s, OwnedFolders(s, user)) == OwnedFolders(s, user)
  {
    var g := Links(s.folders);
    var mine := OwnedFolders(s, user);
    forall d | d in g && g[d].Some? && g[d].value in mine ensures d in mine {
      assert FolderSound(s.folders[d], s.folders);
      var p: int := g[d].value;
      assert s.folders[p].scope == "personal";
    }
    ClosedSetIsItsCascade(g, mine);
  }

  lemma OthersFilesStay(s: State, user: int, f: int)
    requires Inv(s) && !OwnsShared(s, user) && f in s.files && s.files[f].owner != user
    ensures DetachFile(s.files[f], OwnedFolders(s, user)) == s.files[f]
  {
    assert FileSound(s.files[f], s.folders);
    if s.files[f].folder.Some? {
      var p: int := s.files[f].folder.value;
      assert p !in OwnedFolders(s, user);
    }
  }

  lemma DropUserExact(s: State, user: int)
    requires Inv(s) && !OwnsShared(s, user)
    ensures var t := DropUser(s, user);
            && t.folders == s.folders - OwnedFolders(s, user)
            && t.files == map f | f in s.files && s.files[f].owner != user :: s.files[f]
  {
    OwnedFoldersClosed(s, user);
    forall f | f in s.files && s.files[f].owner != user
      ensures DetachFile(s.files[f], OwnedFolders(s, user)) == s.files[f]
    {
      OthersFilesStay(s, user, f);
    }
  }

  /** Deleting an account through another administrator removes exactly its personal rows. */
  lemma DeleteOtherUserExact(s: State, user: int, actor: int)
    requires Inv(s) && actor in s.users && user != actor
    ensures RemovesExactlyPersonal(s, DeleteUser(s, user, actor, true), user, actor)
  {
    var r := Reassign(s, user, actor);
    ReassignKeepsInv(s, user, actor);
    DropUserExact(r, user);
    var t := DeleteUser(s, user, actor, true);
    assert r.files.Keys == s.files.Keys && r.folders.Keys == s.folders.Keys;
    forall d | d in s.folders
      ensures d in t.folders <==> !PersonalTo(s.folders[d].scope, s.folders[d].owner, user)
    {
      assert d in r.folders;
    }
    forall f | f in s.files
      ensures f in t.files <==> !PersonalTo(s.files[f].scope, s.files[f].owner, user)
    {
      assert f in r.files;
    }
  }

  lemma SelfReassignIsIdle(s: State, user: int)
    ensures Reassign(s, user, user) == s
  {
    var r := Reassign(s, user, user);
    forall d | d in s.folders ensures r.folders[d] == s.folders[d] {}
    forall f | f in s.files ensures r.files[f] == s.files[f] {}
    assert r.folders == s.folders && r.files == s.files;
  }

  /** Whatever a user still owns goes when the user row goes, shared or not. */
  lemma DropUserTakesAllOwned(s: State, user: int)
    ensures forall d | d in DropUser(s, user).folders && d in s.folders :: s.folders[d].owner != user
    ensures forall f | f in DropUser(s, user).files && f in s.files :: s.files[f].owner != user
  {
    forall d | d in s.folders && s.folders[d].owner == user ensures d !in DropUser(s, user).folders {
      UnderSelf(Links(s.folders), d);
      assert d in OwnedFolders(s, user);
    }
  }

  lemma SelfDeletionKeepsSharedIff(s: State, user: int)
    requires Inv(s)
    ensures RemovesExactlyPersonal(s, DropUser(s, user), user, user) <==> !OwnsShared(s, user)
  {
    if OwnsShared(s, user) {
      DropUserTakesAllOwned(s, user);
    } else {
      DropUserExact(s, user);
    }
  }

  /** The promise that shared work survives its owner fails exactly when an administrator who owns
      shared rows deletes their own account: the ownership hand-over is then to the same account. */
  lemma DeleteUserKeepsSharedIff(s: State, user: int, actor: int)
    requires Inv(s) && actor in s.users
    ensures RemovesExactlyPersonal(s, DeleteUser(s, user, actor, true), user, actor)
            <==> user != actor || !OwnsShared(s, user)
  {
    if user != actor {
      DeleteOtherUserExact(s, user, actor);
    } else {
      SelfReassignIsIdle(s, user);
      SelfDeletionKeepsSharedIff(s, user);
    }
  }

  /** A run in which it fails: administrator 1 shares a folder, user 2 puts a folder inside it,
      and administrator 1's self-deletion removes user 2's folder too. */
  lemma SelfDeletionTakesOthersFolders()
    ensures var s := Run(EMPTY, [OpAddUser(1), OpAddUser(2), OpCreateFolder(10, 1, None, "common", None, true),
                                 OpCreateFolder(11, 2, Some(10), "common", None, true)]);
            11 in s.folders && s.folders[11].owner == 2 && s.folders[11].scope == "common"
            && 11 !in DeleteUser(s, 1, 1, true).folders
  {
    var s1 := EMPTY.(users := {} + {1});
    var s2 := s1.(users := s1.users + {2});
    var s3 := CreateFolder(s2, 10, 1, None, "common", None, true);
    var s := CreateFolder(s3, 11, 2, Some(10), "common", None, true);
    var ops := [OpAddUser(1), OpAddUser(2), OpCreateFolder(10, 1, None, "common", None, true),
                OpCreateFolder(11, 2, Some(10), "common", None, true)];
    assert ops[1..][1..][1..][1..] == [];
    assert Run(EMPTY, ops) == Run(s1, ops[1..]) == Run(s2, ops[1..][1..]) == Run(s3, ops[1..][1..][1..]) == s;
    var g := Links(s.folders);
    assert g[11] == Some(10);
    UnderSelf(g, 10);
    UnderParent(g, 10, 11);
    var r := Reassign(s, 1, 1);
    assert r.folders == s.folders;
    assert 10 in OwnedFolders(r, 1);
  }

  // ---------- deleting a project ----------

  /** Deleting a project removes exactly the rows of that project, cascades included. */
  lemma DeleteProjectExact(s: State, project: int)
    requires Inv(s)
    ensures var t := DeleteProject(s, project);
            && (forall d | d in s.folders :: d in t.folders <==> s.folders[d].project != Some(project))
            && (forall f | f in s.files :: f in t.files <==> s.files[f].project != Some(project))
            && (forall d | d in t.folders :: d in s.folders && t.folders[d] == s.folders[d])
            && (forall f | f in t.files :: f in s.files && t.files[f] == s.files[f])
            && (forall u | u in s.sessions :: u in t.sessions <==> s.sessions[u].project != Some(project))
            && (forall u | u in t.sessions :: u in s.sessions && t.sessions[u] == s.sessions[u])
  {
    var g := Links(s.folders);
    var ours := ProjectFolders(s, project);
    forall d | d in g && g[d].Some? && g[d].value in ours ensures d in ours {
      assert FolderSound(s.folders[d], s.folders);
    }
    ClosedSetIsItsCascade(g, ours);
    forall f | f in s.files && s.files[f].project != Some(project) ensures DetachFile(s.files[f], ours) == s.files[f] {
      assert FileSound(s.files[f], s.folders);
    }
    forall u | u in s.sessions && s.sessions[u].project != Some(project)
      ensures DetachSession(s.sessions[u], ours) == s.sessions[u]
    {
      assert SessionSound(s.sessions[u], s.folders);
    }
  }

  // ---------- restoring undoes deleting ----------

  lemma RunOne(s: State, op: Op)
    ensures Run(s, [op]) == Apply(s, op)
  {
    assert [op][1..] == [];
    assert Run(s, [op]) == Run(Apply(s, op), []);
  }

  lemma {:induction false} RunSplit(s: State, a: seq<Op>, b: seq<Op>)
    ensures Run(s, a + b) == Run(Run(s, a), b)
    decreases |a|
  {
    if a == [] {
      assert a + b == b;
    } else {
      assert (a + b)[0] == a[0] && (a + b)[1..] == a[1..] + b;
      RunSplit(Apply(s, a[0]), a[1..], b);
    }
  }

  /** `s` with the folders and files named stamped `now`. */
  function Stamped(s: State, folders: set<int>, files: set<int>): State {
    s.(folders := map d | d in s.folders ::
                    if d in folders then s.folders[d].(deleted := Some(s.now)) else s.folders[d],
       files := map f | f in s.files ::
                  if f in files then s.files[f].(deleted := Some(s.now)) else s.files[f])
  }

  function FilesIn(s: State, ids: set<int>): set<int> {
    set f | f in s.files && InFolders(s.files[f].folder, ids)
  }

  /** The parent is live and not among the folders still to come. */
  predicate AfterParent(s: State, parent: Option<int>, rest: seq<int>) {
    parent.Some? ==> LiveFolder(s, parent.value) && parent.value !in rest
  }

  /** `order` still has to be restored: each folder comes after its parent. */
  ghost predicate ParentsFirst(s: State, order: seq<int>, left: set<int>) {
    && (forall d :: d in order <==> d in left)
    && (forall i | 0 <= i < |order| :: order[i] !in order[i + 1..] && LiveFolder(s, order[i])
          && AfterParent(s, s.folders[order[i]].parent, order[i..]))
  }

  function RestoreFolders(order: seq<int>): seq<Op> {
    seq(|order|, i requires 0 <= i < |order| => OpRestoreFolder(order[i], true))
  }

  function RestoreFiles(order: seq<int>): seq<Op> {
    seq(|order|, i requires 0 <= i < |order| => OpRestoreFile(order[i], true))
  }

  lemma ParentsFirstRest(s: State, order: seq<int>, left: set<int>)
    requires ParentsFirst(s, order, left) && order != []
    ensures ParentsFirst(s, order[1..], left - {order[0]})
  {
    forall i | 0 <= i < |order[1..]|
      ensures order[1..][i] !in order[1..][i + 1..]
      ensures LiveFolder(s, order[1..][i]) && AfterParent(s, s.folders[order[1..][i]].parent, order[1..][i..])
    {
      assert order[1..][i] == order[i + 1] && order[1..][i + 1..] == order[i + 1 + 1..];
      assert order[1..][i..] == order[i + 1..];
    }
    forall x ensures x in order[1..] <==> x in left - {order[0]} {
      assert order[0] !in order[0 + 1..];
      assert x in order <==> x == order[0] || x in order[1..];
    }
  }

  /** The first folder's parent is out of the trash already, so it goes back to its own place. */
  lemma RestoringFirst(s: State, order: seq<int>, left: set<int>, files: set<int>)
    requires ParentsFirst(s, order, left) && order != []
    ensures Apply(Stamped(s, left, files), OpRestoreFolder(order[0], true)) == Stamped(s, left - {order[0]}, files)
  {
    var d := order[0];
    assert order[0..] == order;
    if s.folders[d].parent.Some? {
      var p: int := s.folders[d].parent.value;
      assert p !in left && p in s.folders;
    }
    assert d in left;
    assert Apply(Stamped(s, left, files), OpRestoreFolder(d, true)).folders == Stamped(s, left - {d}, files).folders;
  }

  lemma {:induction false} RestoringFolders(s: State, order: seq<int>, left: set<int>, files: set<int>)
    requires ParentsFirst(s, order, left)
    ensures Run(Stamped(s, left, files), RestoreFolders(order)) == Stamped(s, {}, files)
    decreases |order|
  {
    if order == [] {
      forall x ensures x !in left { assert x in order <==> x in left; }
    } else {
      RestoringFirst(s, order, left, files);
      ParentsFirstRest(s, order, left);
      assert RestoreFolders(order)[1..] == RestoreFolders(order[1..]);
      RestoringFolders(s, order[1..], left - {order[0]}, files);
    }
  }

  lemma {:induction false} RestoringFiles(s: State, order: seq<int>, left: set<int>)
    requires forall f :: f in order <==> f in left
    requires forall i | 0 <= i < |order| :: order[i] !in order[i + 1..]
    requires forall f | f in left :: LiveFile(s, f) && AfterParent(s, s.files[f].folder, [])
    ensures Run(Stamped(s, {}, left), RestoreFiles(order)) == Stamped(s, {}, {})
    decreases |order|
  {
    if order == [] {
      forall x ensures x !in left { assert x in order <==> x in left; }
    } else {
      var f := order[0];
      var t := Stamped(s, {}, left);
      assert f in left;
      if s.files[f].folder.Some? {
        var p: int := s.files[f].folder.value;
        assert p in s.folders;
      }
      assert Apply(t, OpRestoreFile(f, true)).files == Stamped(s, {}, left - {f}).files;
      assert Apply(t, OpRestoreFile(f, true)).folders == Stamped(s, {}, left - {f}).folders;
      assert RestoreFiles(order)[1..] == RestoreFiles(order[1..]);
      forall i | 0 <= i < |order[1..]| ensures order[1..][i] !in order[1..][i + 1..] {
        assert order[1..][i] == order[i + 1] && order[1..][i + 1..] == order[i + 1 + 1..];
      }
      forall x ensures x in order[1..] <==> x in left - {f} {
        assert f !in order[0 + 1..];
        assert x in order <==> x == order[0] || x in order[1..];
      }
      RestoringFiles(s, order[1..], left - {f});
    }
  }

  lemma DeletedIsStamped(s: State, id: int)
    requires LiveFolder(s, id)
    requires forall d | d in Subtree(s, id) :: s.folders[d].deleted.None?
    requires forall f | f in FilesIn(s, Subtree(s, id)) :: s.files[f].deleted.None?
    ensures DeleteFolder(s, id, true) == Stamped(s, Subtree(s, id), FilesIn(s, Subtree(s, id)))
  {
    var t := Stamped(s, Subtree(s, id), FilesIn(s, Subtree(s, id)));
    assert DeleteFolder(s, id, true).folders == t.folders;
    assert DeleteFolder(s, id, true).files == t.files;
  }

  lemma SubtreeParentsFirst(s: State, id: int, folders: seq<int>)
    requires Inv(s) && forall d | d in Subtree(s, id) :: LiveFolder(s, d)
    requires forall d :: d in folders <==> d in Subtree(s, id)
    requires forall i | 0 <= i < |folders| :: folders[i] !in folders[i + 1..]
    requires forall i, p | 0 <= i < |folders| && p in folders[i..] && folders[i] in s.folders ::
               s.folders[folders[i]].parent != Some(p)
    ensures ParentsFirst(s, folders, Subtree(s, id))
  {
    forall i | 0 <= i < |folders|
      ensures LiveFolder(s, folders[i]) && AfterParent(s, s.folders[folders[i]].parent, folders[i..])
    {
      var d: int := folders[i];
      assert d in folders;
      assert d in Subtree(s, id);
      assert FolderSound(s.folders[d], s.folders);
    }
  }

  lemma FilesUnderLiveFolders(s: State, ids: set<int>)
    requires Inv(s) && forall f | f in FilesIn(s, ids) :: s.files[f].deleted.None?
    ensures forall f | f in FilesIn(s, ids) :: LiveFile(s, f) && AfterParent(s, s.files[f].folder, [])
  {
    forall f | f in FilesIn(s, ids) ensures LiveFile(s, f) && AfterParent(s, s.files[f].folder, []) {
      assert FileSound(s.files[f], s.folders);
    }
  }

  lemma NothingStamped(s: State)
    ensures Stamped(s, {}, {}) == s
  {
    assert Stamped(s, {}, {}).folders == s.folders && Stamped(s, {}, {}).files == s.files;
  }

  /** Restoring a deleted folder's whole subtree, parents before children and then the files in
      any order, gives back exactly the state before the delete, provided nothing in the subtree
      was in the trash already. */
  lemma RestoreUndoesDelete(s: State, id: int, folders: seq<int>, files: seq<int>)
    requires Inv(s) && LiveFolder(s, id)
    requires forall d | d in Subtree(s, id) :: s.folders[d].deleted.None?
    requires forall f | f in FilesIn(s, Subtree(s, id)) :: s.files[f].deleted.None?
    requires forall d :: d in folders <==> d in Subtree(s, id)
    requires forall i | 0 <= i < |folders| :: folders[i] !in folders[i + 1..]
    requires forall i, p | 0 <= i < |folders| && p in folders[i..] && folders[i] in s.folders ::
               s.folders[folders[i]].parent != Some(p)
    requires forall f :: f in files <==> f in FilesIn(s, Subtree(s, id))
    requires forall i | 0 <= i < |files| :: files[i] !in files[i + 1..]
    ensures Run(DeleteFolder(s, id, true), RestoreFolders(folders) + RestoreFiles(files)) == s
  {
    var ids := Subtree(s, id);
    DeletedIsStamped(s, id);
    SubtreeParentsFirst(s, id, folders);
    RestoringFolders(s, folders, ids, FilesIn(s, ids));
    FilesUnderLiveFolders(s, ids);
    RestoringFiles(s, files, FilesIn(s, ids));
    RunSplit(DeleteFolder(s, id, true), RestoreFolders(folders), RestoreFiles(files));
    NothingStamped(s);
  }
}
