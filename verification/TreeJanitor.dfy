/** The janitor's sweep with anything else in its gaps: between listing the expired files and purging them
    by id, before the folders, and between listing the expired folders and purging those by id. */
module TreeJanitor {
  import opened Basics
  import opened Forest
  import opened TreeSpec
  import opened TreeInvariants
  import opened TreeDeletion

  lemma StepKeepsSweep(s: State, op: Op)
    requires !IsJanitor(op)
    ensures Apply(s, op).sweep == s.sweep
  {
    match op
    case OpCompleteUpload(_, _, _, _) =>
    case OpMoveFolder(_, _, _, _) =>
    case _ =>
  }

  /** A run without the janitor. */
  predicate Undriven(ops: seq<Op>) {
    forall op | op in ops :: !IsJanitor(op)
  }

  lemma {:induction false} SweepSurvives(s: State, ops: seq<Op>)
    requires Undriven(ops)
    ensures Run(s, ops).sweep == s.sweep
    decreases |ops|
  {
    if ops != [] {
      assert ops[0] in ops;
      StepKeepsSweep(s, ops[0]);
      SweepSurvives(Apply(s, ops[0]), ops[1..]);
    }
  }

  // ---------- what can make a trashed row live ----------

  datatype Row = FileRow(id: int) | FolderRow(id: int)

  predicate Live(s: State, r: Row) {
    match r
    case FileRow(f) => LiveFile(s, f)
    case FolderRow(d) => LiveFolder(s, d)
  }

  /** The id has been handed out. */
  predicate Used(s: State, r: Row) {
    match r
    case FileRow(f) => f in s.used.files
    case FolderRow(d) => d in s.used.folders
  }

  predicate Restores(op: Op, r: Row) {
    match r
    case FileRow(f) => op == OpRestoreFile(f, true)
    case FolderRow(d) => op == OpRestoreFolder(d, true)
  }

  lemma FolderStepKeepsIds(s: State, op: Op, r: Row)
    requires Used(s, r) && OnFolders(op)
    ensures Used(Apply(s, op), r)
  {
    match op
    case OpCreateFolder(_, _, _, _, _, _) =>
    case OpMoveFolder(_, _, _, _) =>
    case _ =>
  }

  lemma FileStepKeepsIds(s: State, op: Op, r: Row)
    requires Used(s, r) && OnFiles(op)
    ensures Used(Apply(s, op), r)
  {
    match op
    case OpCompleteUpload(_, _, _, _) =>
    case _ =>
  }

  lemma UsedIdsGrow(s: State, op: Op, r: Row)
    requires Used(s, r)
    ensures Used(Apply(s, op), r)
  {
    if OnFolders(op) {
      FolderStepKeepsIds(s, op, r);
    } else if OnFiles(op) {
      FileStepKeepsIds(s, op, r);
    }
  }

  lemma OnlyRestoreRevivesFile(s: State, op: Op, f: int)
    requires Inv(s) && f in s.used.files && !LiveFile(s, f) && LiveFile(Apply(s, op), f)
    ensures op == OpRestoreFile(f, true)
  {
    if OnFiles(op) {
      match op
      case OpCompleteUpload(_, _, _, _) =>
      case _ =>
    } else if OnFolders(op) {
      match op
      case OpMoveFolder(_, _, _, _) =>
      case _ =>
    }
  }

  lemma OnlyRestoreRevivesFolder(s: State, op: Op, d: int)
    requires Inv(s) && d in s.used.folders && !LiveFolder(s, d) && LiveFolder(Apply(s, op), d)
    ensures op == OpRestoreFolder(d, true)
  {
    if OnFiles(op) {
      match op
      case OpCompleteUpload(_, _, _, _) =>
      case _ =>
    } else if OnFolders(op) {
      match op
      case OpCreateFolder(_, _, _, _, _, _) =>
      case OpMoveFolder(_, _, _, _) =>
      case _ =>
    }
  }

  /** Only a restore brings a row back; ids are not reused, so no other row takes its place. */
  lemma OnlyRestoreRevives(s: State, op: Op, r: Row)
    requires Inv(s) && Used(s, r) && !Live(s, r) && Live(Apply(s, op), r)
    ensures Restores(op, r)
  {
    match r
    case FileRow(f) => OnlyRestoreRevivesFile(s, op, f);
    case FolderRow(d) => OnlyRestoreRevivesFolder(s, op, d);
  }

  /** Step `i` restores the row, and from then on it is live throughout. */
  ghost predicate LiveSince(s: State, ops: seq<Op>, r: Row, i: int) {
    && 0 <= i < |ops| && Restores(ops[i], r)
    && forall j | i < j <= |ops| :: Live(Run(s, ops[..j]), r)
  }

  /** The row was restored and not trashed, nor removed, again. */
  ghost predicate RestoredForGood(s: State, ops: seq<Op>, r: Row) {
    exists i :: LiveSince(s, ops, r, i)
  }

  lemma RunLast(s: State, ops: seq<Op>)
    requires ops != []
    ensures Run(s, ops) == Apply(Run(s, ops[..|ops| - 1]), ops[|ops| - 1])
  {
    var init, last := ops[..|ops| - 1], ops[|ops| - 1];
    assert ops == init + [last];
    RunSplit(s, init, [last]);
    RunOne(Run(s, init), last);
  }

  lemma {:induction false} UsedIdsKept(s: State, ops: seq<Op>, r: Row)
    requires Used(s, r)
    ensures Used(Run(s, ops), r)
    decreases |ops|
  {
    if ops != [] {
      UsedIdsGrow(s, ops[0], r);
      UsedIdsKept(Apply(s, ops[0]), ops[1..], r);
    }
  }

  lemma LiveSinceLonger(s: State, ops: seq<Op>, r: Row, i: int)
    requires ops != [] && LiveSince(s, ops[..|ops| - 1], r, i) && Live(Run(s, ops), r)
    ensures LiveSince(s, ops, r, i)
  {
    var init := ops[..|ops| - 1];
    assert ops[..|ops|] == ops;
    forall j | i < j <= |ops| ensures Live(Run(s, ops[..j]), r) {
      if j < |ops| { assert ops[..j] == init[..j]; }
    }
  }

  /** After any run a trashed or missing row is live if and only if it was restored for good. */
  lemma {:induction false} LiveAfterIff(s: State, ops: seq<Op>, r: Row)
    requires Inv(s) && Used(s, r) && !Live(s, r)
    ensures Live(Run(s, ops), r) <==> RestoredForGood(s, ops, r)
    decreases |ops|
  {
    assert ops[..|ops|] == ops;
    if Live(Run(s, ops), r) {
      var n := |ops| - 1;
      var init := ops[..n];
      RunLast(s, ops);
      if Live(Run(s, init), r) {
        LiveAfterIff(s, init, r);
        var i :| LiveSince(s, init, r, i);
        LiveSinceLonger(s, ops, r, i);
      } else {
        RunKeepsInv(s, init);
        UsedIdsKept(s, init, r);
        OnlyRestoreRevives(Run(s, init), ops[n], r);
        assert LiveSince(s, ops, r, n);
      }
    }
  }

  // ---------- purging by ids listed earlier ----------

  /** Some live file of `s` is not among `left`. */
  ghost predicate LiveFileGoes(s: State, left: map<int, File>) {
    exists f :: LiveFile(s, f) && f !in left
  }

  ghost predicate LiveFolderGoes(s: State, left: map<int, Folder>) {
    exists d :: LiveFolder(s, d) && d !in left
  }

  /** One of the files was restored and not trashed, nor removed, again. */
  ghost predicate FileRestored(m: State, gap: seq<Op>, ids: set<int>) {
    exists f :: f in ids && RestoredForGood(m, gap, FileRow(f))
  }

  ghost predicate FolderRestored(m: State, gap: seq<Op>, ids: set<int>) {
    exists d :: d in ids && RestoredForGood(m, gap, FolderRow(d))
  }

  /** Rows purged by ids read in state `m`, all of them trash then, with `gap` in between: a live file goes
      if and only if one of them was restored in the gap and not trashed again. */
  lemma FilesPurgedLater(m: State, gap: seq<Op>, ids: set<int>)
    requires Inv(m) && forall f | f in ids :: f in m.files && m.files[f].deleted.Some?
    ensures var s := Run(m, gap); var t := RemoveFiles(s, ids);
            && (forall f | f in s.files :: f !in t.files <==> f in ids)
            && (LiveFileGoes(s, t.files) <==> FileRestored(m, gap, ids))
  {
    var s := Run(m, gap);
    forall f | f in ids ensures LiveFile(s, f) <==> RestoredForGood(m, gap, FileRow(f)) {
      assert f in m.files.Keys;
      LiveAfterIff(m, gap, FileRow(f));
      assert Live(s, FileRow(f)) == LiveFile(s, f);
    }
    if f :| LiveFile(s, f) && f !in RemoveFiles(s, ids).files {
      assert RestoredForGood(m, gap, FileRow(f));
    }
    if f :| f in ids && RestoredForGood(m, gap, FileRow(f)) {
      assert LiveFile(s, f) && f !in RemoveFiles(s, ids).files;
    }
  }

  /** The same for folder rows: a live folder, one of them or one below them, goes if and only if one of
      them was restored in the gap and not trashed again. */
  lemma FoldersPurgedLater(m: State, gap: seq<Op>, ids: set<int>)
    requires Inv(m) && forall d | d in ids :: d in m.folders && m.folders[d].deleted.Some?
    ensures var s := Run(m, gap); var t := DropFolders(s, ids);
            && (forall d | d in s.folders :: d !in t.folders <==> d in CascadeOf(s, ids))
            && (LiveFolderGoes(s, t.folders) <==>
                FolderRestored(m, gap, ids))
  {
    var s := Run(m, gap);
    RunKeepsInv(m, gap);
    LiveFolderGoesIff(s, ids);
    forall d | d in ids ensures LiveFolder(s, d) <==> RestoredForGood(m, gap, FolderRow(d)) {
      assert d in m.folders.Keys;
      LiveAfterIff(m, gap, FolderRow(d));
      assert Live(s, FolderRow(d)) == LiveFolder(s, d);
    }
    if d :| d in ids && LiveFolder(s, d) {
      assert RestoredForGood(m, gap, FolderRow(d));
    }
    if d :| d in ids && RestoredForGood(m, gap, FolderRow(d)) {
      assert LiveFolder(s, d);
    }
  }

  /** Emptying the trash lists the caller's trashed files, purges trees and deletes objects, and then purges
      the files by the ids listed. `gap` is everything in between, its own other calls included. */
  lemma EmptyTrashFilesExact(before: seq<Op>, user: int, gap: seq<Op>)
    ensures var m := Run(EMPTY, before); var ids := TrashedFilesOf(m, user);
            var s := Run(m, gap); var t := RemoveFiles(s, ids);
            && t.folders == s.folders && t.sessions == s.sessions && t.files == s.files - ids
            && (LiveFileGoes(s, t.files) <==> FileRestored(m, gap, ids))
  {
    ReachableStatesAreSound(before);
    var m := Run(EMPTY, before);
    FilesPurgedLater(m, gap, TrashedFilesOf(m, user));
  }

  /** It purges the tree of each folder listed at the start without looking again whether that is trash. */
  lemma EmptyTrashTreeExact(before: seq<Op>, user: int, d: int, gap: seq<Op>)
    requires d in TrashedFoldersOf(Run(EMPTY, before), user)
    ensures var m := Run(EMPTY, before); var s := Run(m, gap); var t := PurgeTree(s, d);
            && t.folders == s.folders - Subtree(s, d)
            && (LiveFolderGoes(s, t.folders) <==> RestoredForGood(m, gap, FolderRow(d)))
  {
    ReachableStatesAreSound(before);
    var m := Run(EMPTY, before);
    FoldersPurgedLater(m, gap, {d});
    TreeOfOne(Run(m, gap), d);
    OneRestored(m, gap, d);
  }

  lemma OneRestored(m: State, gap: seq<Op>, d: int)
    ensures FolderRestored(m, gap, {d}) <==> RestoredForGood(m, gap, FolderRow(d))
  {
    if RestoredForGood(m, gap, FolderRow(d)) { assert d in {d}; }
  }

  lemma TreeOfOne(s: State, d: int)
    ensures PurgeTree(s, d).folders == DropFolders(s, {d}).folders == s.folders - Subtree(s, d)
  {
    SubtreeIsCascade(s, d);
    assert CascadeOf(RemoveFilesIn(s, Subtree(s, d)), Subtree(s, d)) == CascadeOf(s, Subtree(s, d));
    forall x ensures x in CascadeOf(s, {d}) <==> x in Subtree(s, d) {
      if x in Subtree(s, d) { assert d in {d}; }
    }
  }

  /** Purging a trashed folder lists its subtree, deletes the objects, then the file rows, and then the
      folder rows by the ids listed, with `gap` in between. */
  lemma PurgeTreeFoldersExact(before: seq<Op>, id: int, gap: seq<Op>)
    requires var m := Run(EMPTY, before); id in m.folders && m.folders[id].deleted.Some?
    ensures var m := Run(EMPTY, before); var ids := Subtree(m, id);
            var s := Run(m, gap); var t := DropFolders(s, ids);
            && t.folders == s.folders - CascadeOf(s, ids)
            && (LiveFolderGoes(s, t.folders) <==> FolderRestored(m, gap, ids))
  {
    ReachableStatesAreSound(before);
    var m := Run(EMPTY, before);
    forall d | d in Subtree(m, id) ensures m.folders[d].deleted.Some? { SubtreeOfTrash(m, id, d); }
    FoldersPurgedLater(m, gap, Subtree(m, id));
  }

  // ---------- the sweep ----------

  /** After the listing, and after `gap`. */
  ghost function ListedThen(before: seq<Op>, gap: seq<Op>): State {
    Run(JanitorList(Run(EMPTY, before)), gap)
  }

  ghost function Cutoff(before: seq<Op>): int {
    Run(EMPTY, before).now - TRASH_RETENTION
  }

  lemma ListedThenSound(before: seq<Op>, gap: seq<Op>)
    requires Undriven(gap)
    ensures var s := ListedThen(before, gap);
            Inv(s) && s.sweep == FilesListed(Cutoff(before), ExpiredFiles(Run(EMPTY, before), Cutoff(before)))
  {
    ReachableStatesAreSound(before);
    var m := Run(EMPTY, before);
    JanitorKeepsInv(m);
    RunKeepsInv(JanitorList(m), gap);
    SweepSurvives(JanitorList(m), gap);
  }

  /** Whatever runs between the listing and the purge, the purge removes exactly the files listed and
      leaves none older than the cutoff. It removes a live file if and only if some file listed was
      restored in the gap and not trashed again. */
  lemma FilePurgeExact(before: seq<Op>, gap: seq<Op>)
    requires Undriven(gap)
    ensures var m := Run(EMPTY, before); var ids := ExpiredFiles(m, Cutoff(before));
            var s := ListedThen(before, gap); var t := JanitorFiles(s);
            && t.folders == s.folders && t.sessions == s.sessions && t.files == s.files - ids
            && (forall f | f in t.files :: !Expired(t.files[f].deleted, Cutoff(before)))
            && (LiveFileGoes(s, t.files) <==>
                FileRestored(JanitorList(m), gap, ids))
  {
    ListedThenSound(before, gap);
    ReachableStatesAreSound(before);
    var m := Run(EMPTY, before);
    JanitorKeepsInv(m);
    FilesPurgedLater(JanitorList(m), gap, ExpiredFiles(m, Cutoff(before)));
  }

  /** After the file purge, and after the second gap. */
  ghost function PurgedThen(before: seq<Op>, gap: seq<Op>, gap2: seq<Op>): State {
    Run(JanitorFiles(ListedThen(before, gap)), gap2)
  }

  lemma GapAfterPurge(p: State, gap: seq<Op>)
    requires Inv(p) && p.sweep.FilesListed? && Undriven(gap)
    ensures var s := Run(JanitorFiles(p), gap); Inv(s) && s.sweep == FilesPurged(p.sweep.cutoff)
  {
    JanitorKeepsInv(p);
    RunKeepsInv(JanitorFiles(p), gap);
    SweepSurvives(JanitorFiles(p), gap);
  }

  lemma PurgedThenSound(before: seq<Op>, gap: seq<Op>, gap2: seq<Op>)
    requires Undriven(gap) && Undriven(gap2)
    ensures var s := PurgedThen(before, gap, gap2); Inv(s) && s.sweep == FilesPurged(Cutoff(before))
  {
    ListedThenSound(before, gap);
    GapAfterPurge(ListedThen(before, gap), gap2);
  }

  /** After the folders have been listed in state `p`, and after the third gap. */
  ghost function MarkedThen(p: State, gap: seq<Op>): State {
    Run(JanitorListFolders(p), gap)
  }

  lemma MarkedThenSound(p: State, gap: seq<Op>)
    requires Inv(p) && p.sweep.FilesPurged? && Undriven(gap)
    ensures var s := MarkedThen(p, gap);
            Inv(s) && s.sweep == FoldersListed(p.sweep.cutoff, ExpiredFolders(p, p.sweep.cutoff))
  {
    JanitorKeepsInv(p);
    RunKeepsInv(JanitorListFolders(p), gap);
    SweepSurvives(JanitorListFolders(p), gap);
  }

  /** Whatever runs in the three gaps, the last statement removes exactly the listed folders still there,
      with everything below them, and leaves nothing older than the cutoff taken at the start. That is
      exactly the expired folders, with no file touched, if and only if every listed folder still there is
      still expired; and a live folder goes if and only if a listed one was restored in the third gap and
      not trashed again. */
  lemma FolderPurgeExact(before: seq<Op>, gap: seq<Op>, gap2: seq<Op>, gap3: seq<Op>)
    requires Undriven(gap) && Undriven(gap2) && Undriven(gap3)
    ensures var cutoff := Cutoff(before); var p := PurgedThen(before, gap, gap2);
            var ids := ExpiredFolders(p, cutoff);
            var s := MarkedThen(p, gap3); var t := JanitorFolders(s);
            && t.folders == s.folders - CascadeOf(s, ids)
            && ExpiredFolders(t, cutoff) == {} && ExpiredFiles(t, cutoff) == {}
            && (t.folders == s.folders - ExpiredFolders(s, cutoff) && t.files == s.files <==> StillExpired(s, ids, cutoff))
            && (LiveFolderGoes(s, t.folders) <==>
                FolderRestored(JanitorListFolders(p), gap3, ids))
  {
    PurgedThenSound(before, gap, gap2);
    LastStatement(PurgedThen(before, gap, gap2), gap3);
    LastStatementTakesLiveIff(PurgedThen(before, gap, gap2), gap3);
  }

  lemma LastStatement(p: State, gap: seq<Op>)
    requires Inv(p) && p.sweep.FilesPurged? && Undriven(gap)
    ensures var cutoff := p.sweep.cutoff; var ids := ExpiredFolders(p, cutoff);
            var s := MarkedThen(p, gap); var t := JanitorFolders(s);
            && t.folders == s.folders - CascadeOf(s, ids)
            && ExpiredFolders(t, cutoff) == {} && ExpiredFiles(t, cutoff) == {}
            && (t.folders == s.folders - ExpiredFolders(s, cutoff) && t.files == s.files <==> StillExpired(s, ids, cutoff))
  {
    MarkedThenSound(p, gap);
    JanitorFoldersExactIff(MarkedThen(p, gap));
  }

  lemma LastStatementTakesLiveIff(p: State, gap: seq<Op>)
    requires Inv(p) && p.sweep.FilesPurged? && Undriven(gap)
    ensures var s := MarkedThen(p, gap); var t := JanitorFolders(s);
            LiveFolderGoes(s, t.folders) <==>
            FolderRestored(JanitorListFolders(p), gap, ExpiredFolders(p, p.sweep.cutoff))
  {
    MarkedThenSound(p, gap);
    JanitorKeepsInv(p);
    FoldersPurgedLater(JanitorListFolders(p), gap, ExpiredFolders(p, p.sweep.cutoff));
  }

  /** The janitor's four statements, nothing in between. */
  ghost function Sweep(s: State): State {
    JanitorFolders(JanitorListFolders(JanitorFiles(JanitorList(s))))
  }

  lemma SweepIsRun(s: State)
    ensures Run(s, [OpJanitorList, OpJanitorFiles, OpJanitorListFolders, OpJanitorFolders]) == Sweep(s)
  {
    FourSteps(s, OpJanitorList, OpJanitorFiles, OpJanitorListFolders, OpJanitorFolders);
  }

  /** Undisturbed, the sweep removes exactly the files and folders older than the cutoff, all trash. */
  lemma UndisturbedSweepExact(before: seq<Op>)
    ensures var s := Run(EMPTY, before); var t := Sweep(s);
            && t.files == s.files - ExpiredFiles(s, Cutoff(before))
            && t.folders == s.folders - ExpiredFolders(s, Cutoff(before)) && t.sweep == Idle
  {
    ReachableStatesAreSound(before);
    UndisturbedFromAnyState(Run(EMPTY, before));
  }

  lemma UndisturbedFromAnyState(s: State)
    requires Inv(s)
    ensures var cutoff := s.now - TRASH_RETENTION; var t := Sweep(s);
            && t.files == s.files - ExpiredFiles(s, cutoff) && t.folders == s.folders - ExpiredFolders(s, cutoff)
            && t.sweep == Idle
  {
    var p := JanitorFiles(JanitorList(s));
    JanitorKeepsInv(s);
    JanitorKeepsInv(JanitorList(s));
    SecondHalfExact(p);
    assert ExpiredFolders(p, p.sweep.cutoff) == ExpiredFolders(s, p.sweep.cutoff);
  }

  lemma SecondHalfExact(p: State)
    requires Inv(p) && p.sweep.FilesPurged?
    ensures var t := JanitorFolders(JanitorListFolders(p));
            t.files == p.files && t.folders == p.folders - ExpiredFolders(p, p.sweep.cutoff) && t.sweep == Idle
  {
    var q := JanitorListFolders(p);
    JanitorKeepsInv(p);
    StillExpiredIsExact(q);
    assert ExpiredFolders(q, q.sweep.cutoff) == ExpiredFolders(p, p.sweep.cutoff);
  }

  lemma FourSteps(s: State, a: Op, b: Op, c: Op, d: Op)
    ensures Run(s, [a, b, c, d]) == Apply(Apply(Apply(Apply(s, a), b), c), d)
  {
    RunSplit(s, [a, b], [c, d]);
    assert [a, b] + [c, d] == [a, b, c, d];
    TwoSteps(s, a, b);
    TwoSteps(Apply(Apply(s, a), b), c, d);
  }

  lemma TwoSteps(s: State, a: Op, b: Op)
    ensures Run(s, [a, b]) == Apply(Apply(s, a), b)
  {
    assert [a, b][1..] == [b];
    RunOne(Apply(s, a), b);
  }

  // ---------- runs that lose something ----------

  function Setup(): seq<Op> {
    [OpAddUser(1), OpCreateFile(5, 1, None, "personal", None, true), OpDeleteFile(5, true), OpTick(TRASH_RETENTION + 1)]
  }

  lemma SetupListsTheFile()
    ensures var s := Run(EMPTY, Setup());
            5 in ExpiredFiles(s, Cutoff(Setup())) && s.files[5] == File(None, 1, None, "personal", Some(0))
  {
    var ops := Setup();
    var s1 := EMPTY.(users := {} + {1});
    var s2 := CreateFile(s1, 5, 1, None, "personal", None, true);
    var s3 := DeleteFile(s2, 5, true);
    var s := s3.(now := TRASH_RETENTION + 1);
    assert ops[1..][1..][1..][1..] == [];
    assert Run(EMPTY, ops) == Run(s1, ops[1..]) == Run(s2, ops[1..][1..]) == Run(s3, ops[1..][1..][1..]) == s;
  }

  /** A run in which a file is restored while its object is still being deleted: live before the purge,
      gone after it. */
  lemma RestoreDuringSweepIsLost()
    ensures var s := ListedThen(Setup(), [OpRestoreFile(5, true)]);
            LiveFile(s, 5) && 5 !in JanitorFiles(s).files
  {
    SetupListsTheFile();
    LostInTheGap(Run(EMPTY, Setup()), 5);
  }

  /** So it goes from any state in which the sweep lists a file. */
  lemma LostInTheGap(m: State, f: int)
    requires f in ExpiredFiles(m, m.now - TRASH_RETENTION)
    ensures var s := Run(JanitorList(m), [OpRestoreFile(f, true)]);
            LiveFile(s, f) && f !in JanitorFiles(s).files
  {
    RunOne(JanitorList(m), OpRestoreFile(f, true));
  }

  /** The same with a folder, and so from any state between the files and the folders. */
  lemma FolderLostInTheGap(p: State, d: int)
    requires p.sweep.FilesPurged? && d in ExpiredFolders(p, p.sweep.cutoff)
    ensures var s := MarkedThen(p, [OpRestoreFolder(d, true)]);
            LiveFolder(s, d) && d !in JanitorFolders(s).folders
  {
    RunOne(JanitorListFolders(p), OpRestoreFolder(d, true));
    ListedGoes(RestoreFolder(JanitorListFolders(p), d, true), ExpiredFolders(p, p.sweep.cutoff), d);
  }

  function FolderSetup(): seq<Op> {
    [OpAddUser(1), OpCreateFolder(3, 1, None, "personal", None, true), OpDeleteFolder(3, true), OpTick(TRASH_RETENTION + 1)]
  }

  lemma FolderSetupExpires()
    ensures var s := Run(EMPTY, FolderSetup());
            3 in ExpiredFolders(s, Cutoff(FolderSetup())) && s.folders[3] == Folder(None, 1, None, "personal", Some(0))
  {
    var ops := FolderSetup();
    var s1 := EMPTY.(users := {} + {1});
    var s2 := CreateFolder(s1, 3, 1, None, "personal", None, true);
    UnderSelf(Links(s2.folders), 3);
    assert 3 in Subtree(s2, 3);
    var s3 := DeleteFolder(s2, 3, true);
    var s := s3.(now := TRASH_RETENTION + 1);
    assert ops[1..][1..][1..][1..] == [];
    assert Run(EMPTY, ops) == Run(s1, ops[1..]) == Run(s2, ops[1..][1..]) == Run(s3, ops[1..][1..][1..]) == s;
  }

  /** A run in which a folder is restored between the listing of the folder ids and the purge by them. */
  lemma FolderRestoreDuringSweepIsLost()
    ensures var p := PurgedThen(FolderSetup(), [], []);
            var s := MarkedThen(p, [OpRestoreFolder(3, true)]);
            LiveFolder(s, 3) && 3 !in JanitorFolders(s).folders
  {
    FolderSetupExpires();
    PurgedThenSound(FolderSetup(), [], []);
    FolderLostInTheGap(PurgedThen(FolderSetup(), [], []), 3);
  }

  /** A listed folder below a live one that is deleted in the gap is stamped anew, and goes before its time. */
  lemma RestampedInTheGap(p: State, a: int, d: int)
    requires Inv(p) && p.sweep.FilesPurged? && d in ExpiredFolders(p, p.sweep.cutoff)
    requires LiveFolder(p, a) && Under(Links(p.folders), a, d)
    ensures var s := MarkedThen(p, [OpDeleteFolder(a, true)]);
            d in s.folders && !Expired(s.folders[d].deleted, p.sweep.cutoff) && d !in JanitorFolders(s).folders
  {
    var m := JanitorListFolders(p);
    RunOne(m, OpDeleteFolder(a, true));
    Restamped(m, a, d);
    ListedGoes(DeleteFolder(m, a, true), m.sweep.ids, d);
  }

  lemma Restamped(m: State, a: int, d: int)
    requires LiveFolder(m, a) && Under(Links(m.folders), a, d) && d in m.folders
    ensures var s := DeleteFolder(m, a, true); d in s.folders && s.folders[d].deleted == Some(m.now) && s.sweep == m.sweep
  {
    assert d in Subtree(m, a);
  }
}
