# Paylash: a verified model

Paylash is a file server with a chat, image markup and attendance. This project models the parts whose
correctness no single handler checks, and proves what they keep over whole runs.

- **The file tree** (`Forest`, `TreeSpec`, `TreeEffects`, `TreeInvariants`, `TreeDeletion`, `TreeJanitor`,
  `TreeUpload`, `TreeStore`). The `folders`, `files` and `upload_sessions` tables are maps from ids to rows, with the
  foreign-key actions applied.
  `TreeSpec` gives every handler as a step on a state; `TreeStore.Store` has the handlers as methods over
  mutable tables, each proved to be its step; `TreeInvariants` proves one invariant of all runs (parent
  links form a forest, nothing live lies in the trash, a subtree carries one stamp and stays in one space);
  `TreeEffects` proves when each handler is accepted and what becomes of which row; `TreeDeletion` what
  purges, account deletion and project deletion remove, exactly; `TreeJanitor` what the sweep, and any purge
  by ids read earlier, removes with anything else running in between; and `TreeUpload` where an upload lands
  when its destination is trashed, restored or purged meanwhile.
- **Folder downloads** (`ZipTree`). The in-place, multi-pass path resolution finds exactly the subtree and
  gives every folder its own path.
- **Chat attachments** (`Attachments`, `AttachmentStore`). Shared objects under interleaved forwards, deletions
  and the janitor, and the handlers as runs of that machine. **Groups** (`GroupChat`): who owns a group, and
  how large it gets.
- **Image markup** (`MarkupGeometry`, `MarkupHistory`, `MarkupEditor`, `MarkupEffects`, `Autosave`,
  `AutosaveLayer`). Drag and resize, undo and redo over mutable shapes, the save queue.
- **The markup validator** (`AnnotationLimits`) and **the thumbnail sampler** (`Thumbnail`, `ThumbnailColors`).
- **In-memory structures** (`RateLimit`, `ChatHub`, `PushBatcher`).
- **Attendance** (`Attendance`, `AttendanceLog`): verdicts, the two roll-ups, and what a schedule change
  leaves alone.

A step over rows is a function or relation on values; the code that performs it is a method of a class with
the same fields, whose postcondition says that the new state is that step. Permission checks, quotas and the
answers of the object store are truth values handed in.

## Where the code does not do what its comments say or suggest

- `internal/api/admin.go:452-460` says shared work survives its owner. It does, unless an administrator
  deletes their own account while owning shared rows (two or more administrators exist): ownership is then
  reassigned to the same account and cascades away, with other people's rows below.
  `TreeDeletion.DeleteUserKeepsSharedIff` gives the exact condition, `SelfDeletionTakesOthersFolders` a run.
- `internal/api/uploads.go:222-228` expects a purged destination folder to stop an upload. While the folder
  is in the trash it does; once the row is gone, `folder_id` has become NULL and the file appears at the
  root. `TreeUpload.UploadLandsWhere` says which of the three happens, after any run since the upload began;
  `TreeUpload.UploadOutlivesItsFolder` is a run.
- `internal/janitor/janitor.go:189-217` lists the expired files, deletes their objects one by one, and purges the
  rows by the ids listed; then it does the same with the folders. A file or folder restored meanwhile is purged
  while live, and a folder re-stamped meanwhile before its time. `TreeJanitor.FilePurgeExact` and
  `TreeJanitor.FolderPurgeExact` say exactly when, whatever else runs in between;
  `TreeJanitor.RestoreDuringSweepIsLost`, `TreeJanitor.FolderRestoreDuringSweepIsLost` and
  `TreeJanitor.RestampedInTheGap` are the cases. Emptying the trash (`internal/api/trash.go:187-217`) has the
  same gap (`TreeJanitor.EmptyTrashFilesExact`).
- `internal/janitor/janitor.go:76-80` relies on a claimed row never being a candidate. The rows are listed once
  and not looked at again, so one that is claimed before its turn is swept all the same. A sent attachment whose
  message nobody deletes is lost if and only if it was listed when it was claimed and its turn came
  (`Attachments.SentAttachmentLostIff`; `Attachments.SentAttachmentIsLost` is a run). One that is forwarded as
  well takes the object of the copy with it: a forward of what it has just read is safe if and only if it copies
  no listed row (`Attachments.ForwardKeepsInvIff`, `Attachments.CopyDanglesIff`;
  `Attachments.ForwardOfListedDangles` is a run).
- `internal/db/chat.go:963-969` leaves a shared object to the reference count. A forward reads its attachments
  before it inserts the copies; when the count has reached zero in between, the copies have no object. Inserting
  is safe if and only if a further row may still be put on every key (`Attachments.InsertKeepsInvIff`;
  `Attachments.ForwardDuringDeletionDangles` is a run).
- `internal/api/chatws.go:68-71,95-96` reports presence on the transition. An evicted connection that
  unregisters after all others have left reports the same user offline a second time
  (`ChatHub.OfflineReportIsAChangeIff`, `ChatHub.OfflineIsReportedTwice`).
- `internal/api/chat.go:23-27` caps groups at 200; creation does not count the creator. Every group of every
  run stays within 200 if and only if creator and participants together do (`GroupChat.GroupKeepsLimitIff`);
  a creator with 200 others makes a group of 201 (`GroupChat.GroupOfTooMany`).
- `web/js/annotate.js:686-691` says Escape discards what was typed. On a label opened again it deletes the label
  (`MarkupEditor.Editor.EditText`).
- `web/js/annotate.js:1097-1113` saves one image's layer at a time; returning to an image before its save is
  answered shows the older layer as clean (`Autosave.MountAgreesIff`, `Autosave.QuickReturnDisagrees`).
- `internal/models/models.go:613-618` says worked minutes are zero precisely when there is no check-out; a
  closed record of a day outside the working week has zero too (`Attendance.WorkedIsZeroIff`).
- `internal/db/attendance.go:444-449` says the work date and the date lateness is judged against never
  disagree; a correction that moves the check-in to another day makes them
  (`AttendanceLog.StepKeepsDatesIff`).

## Model

| member | source | states |
|---|---|---|
| Forest.ReparentKeepsForestIff | internal/api/files.go:1126-1137 | hanging a folder under another keeps the parent links a forest if and only if the new parent is outside the folder's own subtree: the handler's refusal is exactly what is needed |
| Forest.InsertKeepsForest | internal/api/files.go:999-1040 | a new folder under an existing one, or at the root, keeps the forest and leaves no dangling link |
| Forest.RemovalKeepsForest | internal/db/trash.go:167-173 | deleting any rows keeps the forest |
| Forest.CycleNeverEnds | internal/db/files.go:393-416 | on a cycle the unguarded upward walk never ends |
| Forest.GuardIsFirstVisit | internal/db/files.go:462-490 | the path guard of the recursive query refuses a child exactly when it is the start itself, and otherwise extends the path correctly |
| Forest.NextLevel | internal/db/files.go:462-490 | one join of the working table with the folders table yields exactly the next level of the subtree, each folder once |
| Forest.ListFolderAndDescendantIDs | internal/db/files.go:462-490 | the descendant query ends on any data, cyclic included, and returns each id at or below the start exactly once |
| Forest.GetFolderAncestors | internal/db/files.go:393-416 | when the walk ends, the query returns every proper ancestor once, root first |
| Forest.RepeatNeverEnds | internal/db/files.go:393-416 | a walk that meets one folder twice never ends |
| Forest.Cascade | internal/db/db.go:62-70 | the cascade over parent_id ends and removes exactly what lies at or below a deleted row |
| Forest.ClosedSetIsItsCascade | internal/db/db.go:62-70 | a set of rows closed under children is its own cascade |
| TreeInvariants.SubtreeOfTrash | internal/api/files.go:1150-1185 | everything below a trashed folder, at any depth, is trashed with that folder's stamp |
| TreeInvariants.SubtreeOneSpace | internal/api/files.go:96-111 | a whole subtree has one scope, one project and, when personal, one owner |
| TreeInvariants.ShrinkKeepsInv | internal/db/db.go:62-85 | removing rows under the foreign-key actions keeps the whole invariant |
| TreeInvariants.CreateFolderKeepsInv | internal/api/files.go:999-1040 | creating a folder keeps the invariant |
| TreeInvariants.CreateFileKeepsInv | internal/api/files.go:274-400 | an upload or a blank document keeps the invariant |
| TreeInvariants.CompleteUploadKeepsInv | internal/api/uploads.go:201-313 | completing or aborting a resumable upload keeps the invariant |
| TreeInvariants.MoveFolderKeepsInv | internal/api/files.go:1075-1147 | moving a folder keeps the invariant, the forest included |
| TreeInvariants.FileStepsKeepInv | internal/api/files.go:642-736 | moving, deleting, restoring and purging a file keep the invariant |
| TreeInvariants.DeleteFolderKeepsInv | internal/api/files.go:1150-1193 | soft-deleting a subtree, already trashed descendants re-stamped, keeps the invariant |
| TreeInvariants.RestoreFolderKeepsInv | internal/api/trash.go:88-122 | restoring one folder, its contents left behind in the trash, keeps the invariant |
| TreeInvariants.EmptyTrashKeepsInv | internal/api/trash.go:184-224 | emptying the trash keeps the invariant and only removes rows or clears places |
| TreeInvariants.PurgeCallsKeepInv | internal/db/trash.go:156-173 | the calls that remove rows keep the invariant whatever ids they are given, and so whatever has happened since the ids were read |
| TreeInvariants.JanitorKeepsInv | internal/janitor/janitor.go:185-222 | the four statements of the sweep (list the expired files, purge them by id, list the expired folders, purge those by id) each keep the invariant |
| TreeInvariants.DropUserKeepsInv | internal/db/users.go:156-172 | deleting a user row with its cascades keeps the invariant |
| TreeInvariants.DeleteProjectKeepsInv | internal/api/admin.go:169-179 | deleting a project with its cascades keeps the invariant |
| TreeInvariants.StepKeepsInv | internal/api/files.go:999-1193 | every step of every kind keeps the invariant |
| TreeInvariants.ReachableStatesAreSound | internal/api/trash.go:48-122 | the invariant holds after every run from an empty database |
| TreeEffects.MoveFolderExact | internal/api/files.go:1075-1147 | a folder move is accepted if and only if the folder is live, both permissions are there, and the destination is the root or a live folder of the same space outside the folder's own subtree; then the folder hangs under the destination, the rest of its row and every other row stay; refused, nothing changes |
| TreeEffects.MovedFolderIsUnder | internal/api/files.go:1075-1147 | after an accepted move the ancestors are the destination and then the destination's, none for the root, and the subtree is the same as before |
| TreeEffects.MoveBackRestores | internal/api/files.go:1075-1147 | in a sound state, moving a folder back to its old place gives back exactly the state before |
| TreeEffects.MoveFileExact | internal/api/files.go:642-706 | a file move is accepted if and only if the file is live, both permissions are there, and the destination is the root or a live folder of the same space; then the file lies in the destination and nothing else changes |
| TreeEffects.MoveFileBackRestores | internal/api/files.go:642-706 | in a sound state, moving a file back gives back exactly the state before |
| TreeEffects.CreateFolderExact | internal/api/files.go:999-1040 | a new folder is live, its creator's and where it was asked for, in the project only under the project scope; refused exactly without permission, project, rows referred to, or a live destination of that space |
| TreeEffects.CreateFileExact | internal/api/files.go:274-400 | a new file likewise, an unknown scope meaning the uploader's own space and the common scope the common one |
| TreeEffects.InitUploadExact | internal/api/uploads.go:42-139 | an opened session holds the uploader, place and space a file would have |
| TreeEffects.CompleteUploadExact | internal/api/uploads.go:201-293 | completing ends the session and adds one file of the session's owner, place and space, or ends it without a file when the destination is in the trash or the quota is exceeded, or changes nothing when the object store refuses |
| TreeEffects.AbortUploadExact | internal/api/uploads.go:296-312 | aborting ends the session and does nothing else |
| TreeEffects.DeleteFileExact | internal/api/files.go:708-741 | trashing a live file stamps it with the present time and changes nothing else |
| TreeEffects.RestoreFileExact | internal/api/trash.go:48-86 | a trashed file comes back live, in its old place if and only if that is the root or a live folder, else at the root |
| TreeEffects.PurgeFileExact | internal/api/trash.go:124-154 | a trashed file goes, a live one does not, and nothing else changes |
| TreeEffects.DeleteFolderExact | internal/api/files.go:1150-1193 | exactly the folders at or below and the files in them get the present time as stamp, already trashed ones included; places, owners and all other rows stay |
| TreeEffects.RestoreFolderExact | internal/api/trash.go:88-122 | a trashed folder alone comes back live, in its old place if and only if that is the root or a live folder |
| TreeEffects.ListsAreOlderThanThirtyDays | internal/janitor/janitor.go:185-214 | the sweep lists exactly the rows trashed more than 30 days ago, to the second |
| TreeEffects.DropFoldersExact | internal/db/trash.go:167-173 | folder rows go with exactly what lies below them; a file or session that was in one stays, at the root |
| TreeEffects.DeleteUserRest | internal/db/users.go:156-172 | with an account go its upload sessions and nobody else's, and no other account |
| TreeEffects.DeleteProjectRest | internal/api/admin.go:169-179 | deleting a project removes no other project and no account |
| TreeDeletion.NothingLiveInTheTrash | internal/api/trash.go:48-122 | in every reachable state a live row sits at a root or under a live folder, and everything below a trashed folder carries exactly its stamp |
| TreeDeletion.SubtreesStayInOneSpace | internal/api/files.go:1101-1121 | in every reachable state a subtree stays in one scope and project, and with one owner when personal |
| TreeDeletion.PurgeFolderExact | internal/api/trash.go:229-248 | purging a trashed folder removes exactly its subtree and the files in it, all of them trash |
| TreeDeletion.EmptyTrashExact | internal/api/trash.go:181-224 | a folder goes if and only if it lies in the subtree of a trashed folder of the caller's, a file if and only if it lies in such a subtree or is the caller's own trashed file; everything that goes is trash, and every other row stays as it is |
| TreeDeletion.EmptyTrashLeavesNone | internal/api/trash.go:181-224 | afterwards the caller owns no trashed row |
| TreeDeletion.ExpiredFoldersAlone | internal/janitor/janitor.go:211-217 | with no expired file left, the expired folders are closed under descendants: the cascade removes nothing else, and no file loses its place |
| TreeDeletion.JanitorFoldersExactIff | internal/janitor/janitor.go:211-217 | the purge of folders by id takes the listed rows still there with everything below them and leaves nothing expired; it takes exactly the expired folders and touches no file if and only if every listed row still there is still expired |
| TreeDeletion.LiveFolderGoesIff | internal/db/trash.go:166-173 | a purge of folder rows by id takes a live folder if and only if one of those named is live |
| TreeDeletion.JanitorFilesExactIff | internal/janitor/janitor.go:189-206 | the purge by ids removes trash only if and only if no file listed is live again |
| TreeDeletion.PurgesRemoveOnlyTrashIff | internal/api/trash.go:124-248 | no purge, emptying or sweep step removes a live row, moves one or clears one's place, except the janitor's two purges by id, which do if and only if their list is stale: a listed file or folder is live again, or a listed folder holds files again |
| TreeDeletion.OnlyHardDeletesRemoveRows | internal/db/trash.go:14-58 | every other step keeps every row |
| TreeJanitor.OnlyRestoreRevives | internal/db/trash.go:44-58 | only restoring a file or folder makes it live again; ids are not reused |
| TreeJanitor.LiveAfterIff | internal/db/trash.go:44-58 | after any run a trashed or missing file or folder is live if and only if a step restored it and it has stayed live since |
| TreeJanitor.FilesPurgedLater | internal/db/trash.go:156-164 | files purged by ids read earlier, with any steps in between: exactly those go, and a live one does if and only if one was restored in between and not trashed again |
| TreeJanitor.FoldersPurgedLater | internal/db/trash.go:166-173 | folders purged by ids read earlier, with any steps in between: exactly those still there and everything below them go, and a live one does if and only if one was restored in between and not trashed again |
| TreeJanitor.EmptyTrashFilesExact | internal/api/trash.go:187-217 | the last call of emptying the trash removes exactly the files listed at its start, a live one if and only if one was restored meanwhile and not trashed again |
| TreeJanitor.EmptyTrashTreeExact | internal/api/trash.go:192-206 | a tree purged because its folder was listed at the start is the subtree by now, and takes a live folder if and only if the one listed was restored meanwhile and not trashed again |
| TreeJanitor.PurgeTreeFoldersExact | internal/api/trash.go:229-248 | the last call of purging a folder tree removes exactly the folders listed at its start and what lies below them by now, a live one if and only if one was restored meanwhile and not trashed again |
| TreeJanitor.FilePurgeExact | internal/janitor/janitor.go:189-206 | with any other steps between the listing and the purge, the purge removes exactly the files listed, leaves none older than the cutoff, and removes a live file if and only if one of them was restored in the gap and not trashed again |
| TreeJanitor.FolderPurgeExact | internal/janitor/janitor.go:211-217 | with any other steps in all three gaps, the last statement removes exactly the listed folders still there with everything below them, and leaves nothing older than the cutoff taken at the start; that is exactly the expired folders, no file touched, if and only if every listed one still there is still expired; and a live folder goes if and only if a listed one was restored in the last gap and not trashed again |
| TreeJanitor.UndisturbedSweepExact | internal/janitor/janitor.go:185-222 | undisturbed, the sweep removes exactly the files and folders older than the cutoff |
| TreeJanitor.SweepIsRun | internal/janitor/janitor.go:185-222 | the four statements one after the other are that sweep |
| TreeJanitor.LostInTheGap | internal/janitor/janitor.go:189-206 | a listed file restored in the gap is removed while live, from any state |
| TreeJanitor.RestoreDuringSweepIsLost | internal/janitor/janitor.go:189-206 | a run in which a file restored between the listing and the purge is removed while live |
| TreeJanitor.FolderLostInTheGap | internal/janitor/janitor.go:211-217 | a listed folder restored in the gap is removed while live, from any state |
| TreeJanitor.FolderRestoreDuringSweepIsLost | internal/janitor/janitor.go:211-217 | a run in which a folder restored between the listing and the purge is removed while live |
| TreeJanitor.RestampedInTheGap | internal/janitor/janitor.go:211-217 | a listed folder stamped anew in the gap, because a live folder above it was deleted, is removed before its time |
| TreeDeletion.DeleteOtherUserExact | internal/db/users.go:156-172 | deleting an account through another administrator removes exactly its personal rows; every other row stays in place, its ownership passed on |
| TreeDeletion.DeleteUserKeepsSharedIff | internal/api/admin.go:442-476 | shared rows survive the deletion if and only if the account is another's or owns nothing shared |
| TreeDeletion.SelfDeletionTakesOthersFolders | internal/api/admin.go:442-476 | a run in which a self-deletion removes another user's folder |
| TreeDeletion.DeleteProjectExact | internal/api/admin.go:169-179 | a folder, file or upload session goes if and only if it belongs to the project, cascades included; every other row stays as it is |
| TreeUpload.UploadLandsWhere | internal/api/uploads.go:222-241 | after any run since an upload into a folder began, its completion puts the file there if and only if the folder is live, is abandoned if and only if the folder is in the trash, and puts the file at the root if and only if the row is gone, however it went |
| TreeUpload.UploadOutlivesItsFolder | internal/api/uploads.go:222-241 | a run in which the destination is trashed and purged while the session is open, and the file lands at the root |
| TreeDeletion.RestoreUndoesDelete | internal/api/trash.go:48-122 | after deleting an all-live subtree, restoring its folders parents first and then its files gives back exactly the state before |
| TreeStore.UnderAfterRemoval | internal/db/db.go:62-70 | once a closed set of rows is gone, subtrees are what they were without it |
| TreeStore.PurgeNextTree | internal/api/trash.go:198-206 | purging listed trees one after the other, nested ones skipped, purges the union of their subtrees |
| TreeStore.Store.ListSubtree | internal/db/files.go:462-490 | the ids listed over the live table are exactly the subtree, each once |
| TreeStore.Store.Breadcrumbs | internal/db/files.go:393-416 | in a sound state the breadcrumb walk ends and yields the ancestors, root first |
| TreeStore.Store.DestFolderValid | internal/api/files.go:96-111 | accepts exactly the root and live folders of the same space |
| TreeStore.Store.UploadDestination | internal/api/files.go:274-330 | the shared upload checks accept exactly the permitted destinations and settle scope and project |
| TreeStore.Store.CreateFolder | internal/api/files.go:999-1040 | leaves the tables in the state of the creation step |
| TreeStore.Store.CreateFile | internal/api/files.go:274-400 | leaves the tables in the state of the file-creation step |
| TreeStore.Store.InitUpload | internal/api/uploads.go:42-139 | opens a session exactly when the destination is accepted |
| TreeStore.Store.CompleteUpload | internal/api/uploads.go:201-293 | re-checks the destination and leaves the state of the completion step for each answer of storage and quota |
| TreeStore.Store.MoveFile | internal/api/files.go:642-706 | leaves the state of the file-move step, refusals included |
| TreeStore.Store.MoveFolder | internal/api/files.go:1075-1147 | refuses the folder itself and every descendant found by the walk, and leaves the state of the folder-move step |
| TreeStore.Store.SoftDeleteFolderTree | internal/db/trash.go:25-42 | stamps exactly the folders named and the files in them |
| TreeStore.Store.PurgeFiles | internal/db/trash.go:156-164 | removes exactly the rows named |
| TreeStore.Store.DeleteFilesInFolders | internal/db/files.go:542-550 | removes exactly the files lying directly in the folders named |
| TreeStore.Store.DeleteFolder | internal/api/files.go:1150-1193 | stamps exactly the live folder's subtree and the files in it |
| TreeStore.Store.RestoreFile | internal/api/trash.go:48-86 | clears the stamp and falls back to the root when the old place is trashed or gone |
| TreeStore.Store.RestoreFolder | internal/api/trash.go:88-122 | the same for a folder, its contents untouched |
| TreeStore.Store.PurgeFolders | internal/db/trash.go:167-173 | removes the rows named with their cascade and clears the places that pointed there |
| TreeStore.Store.PurgeFolderTree | internal/api/trash.go:229-248 | removes exactly the subtree and the files in it |
| TreeStore.Store.EmptyTrash | internal/api/trash.go:184-224 | the loop over trashed folders and the final purge add up to the emptying step |
| TreeStore.Store.JanitorList | internal/janitor/janitor.go:185-193 | lists exactly the files trashed before the cutoff and keeps that cutoff for the rest of the sweep |
| TreeStore.Store.JanitorFiles | internal/janitor/janitor.go:193-206 | purges the files listed earlier, by id, in whatever state they are by now |
| TreeStore.Store.JanitorListFolders | internal/janitor/janitor.go:211-214 | lists exactly the folders trashed before the same cutoff |
| TreeStore.Store.JanitorFolders | internal/janitor/janitor.go:215-217 | purges the folders listed earlier, by id, in whatever state they are by now, with their cascade |
| TreeStore.Store.PurgeExpiredTrash | internal/janitor/janitor.go:185-222 | undisturbed, the four calls leave the tables in the state of the sweep |
| TreeStore.Store.ReassignAndDeleteUser | internal/db/users.go:156-172 | hands over shared rows, then removes the user with the cascades |
| TreeStore.Store.DeleteProject | internal/api/admin.go:169-179 | leaves the state of the project-deletion step |
| ZipTree.PathIsUnique | internal/api/files.go:1331-1376 | a folder has at most one path |
| ZipTree.Pass | internal/api/files.go:1350-1376 | one pass compacts the buffer in place, resolves only right paths, and loses no unresolved row |
| ZipTree.ResolvePaths | internal/api/files.go:1350-1376 | for rows in any order, dangling or cyclic parents included, the passes end with a path for exactly the folders that reach the root, and each path is that folder's own; nothing is left over on a forest |
| ZipTree.SubtreePathsAreTablePaths | internal/api/files.go:1331-1376 | paths found among the fetched rows are the paths in the whole table |
| ZipTree.WriteFolderTree | internal/api/files.go:1331-1376 | walk, fetch and resolution together map exactly the subtree's ids, each to the names from the root down |
| Attachments.UploadKeepsInv | internal/api/chat.go:1198-1256 | an upload keeps the attachment invariant |
| Attachments.SendKeepsInv | internal/db/chat.go:611-653 | claiming attachments with a message keeps the invariant |
| Attachments.InsertKeepsInvIff | internal/db/chat.go:1001-1027 | copying attachments read at any earlier time keeps the invariant if and only if each key still has its object, is not listed by the janitor, is held by no unclaimed row and has not been counted down to zero by a deletion |
| Attachments.CopyableIff | internal/db/chat.go:969-986 | for a claimed row only the janitor's list can be in the way |
| Attachments.ForwardKeepsInvIff | internal/db/chat.go:969-1033 | a forward that copies what it has just read keeps the invariant if and only if no row it copies is listed by the janitor |
| Attachments.BeginKeepsInv | internal/api/chat.go:955-968 | marking a message deleted and listing its attachments keeps the invariant |
| Attachments.StepKeepsInv | internal/api/chat.go:969-991 | each single call of a deletion (row, count, object) keeps the invariant |
| Attachments.ListKeepsInv | internal/janitor/janitor.go:85-88 | listing the unclaimed rows, once per sweep, keeps the invariant: each has its key to itself |
| Attachments.SweepObjectKeepsInv | internal/janitor/janitor.go:81-105 | the janitor's object-first order keeps the invariant although the listed row may have been claimed since, because no other row has its key |
| Attachments.SweepRowKeepsInv | internal/janitor/janitor.go:81-105 | removing the swept row keeps the invariant, also when the row was claimed in between |
| Attachments.ApplyKeepsInvIff | internal/db/chat.go:969-1033 | every step of every kind keeps the invariant, except a careless forward, which always breaks it |
| Attachments.AttachmentsNeverDangle | internal/db/chat.go:1110-1125 | in every run, forwards, deletions and sweeps interleaved call by call, in which every forward is careful, a row's object exists unless the janitor is in the middle of that row, and an unclaimed row's key is its own |
| Attachments.QuietStateExact | internal/api/chat.go:967-991 | after such a run, when no deletion is running and no row is being swept, an object is stored if and only if a row refers to it, and no row of a deleted message is left |
| Attachments.SendExact | internal/db/chat.go:611-653 | a send is refused as a whole, or claims exactly the attachments named, no key changing |
| Attachments.ForwardExact | internal/db/chat.go:969-1033 | a forward is refused exactly when the message is missing or deleted; else the new message gets one row per attachment, in their order and on their objects, and nothing else changes |
| Attachments.BeginExact | internal/api/chat.go:955-999 | a deletion marks the message and takes its attachments one by one in the order listed, row first |
| Attachments.SentAttachmentLostIff | internal/janitor/janitor.go:81-105 | in every careful run in which nobody deletes its message, a sent attachment stays with the message, object in place, unless it was on the janitor's list when it was claimed and its turn came, and then it is lost |
| Attachments.SentAttachmentIsLost | internal/janitor/janitor.go:81-105 | a run without any forward that ends with a sent message whose attachment is gone |
| Attachments.CopyDanglesIff | internal/janitor/janitor.go:81-105 | from any sound state, after a forward and the janitor's two calls for a row it copied, the copy has lost its object if and only if the row was listed |
| Attachments.ForwardOfListedDangles | internal/janitor/janitor.go:81-105 | a run in which an attachment is listed, then sent, then forwarded and only then swept: nothing is running any more and the copy has no object |
| Attachments.ForwardDuringDeletionDangles | internal/db/chat.go:986-1023 | a run in which a copy is made between the count and the object of a deletion: nothing is running any more and the copy has no object |
| AttachmentStore.AllHitIff | internal/db/chat.go:629-643 | the count of rows claimed equals the number of ids given if and only if every one is the sender's, free and named once |
| AttachmentStore.RemovalIsARun | internal/api/chat.go:969-991 | an undisturbed removal is a run of the interleaved machine |
| AttachmentStore.Store.CreateChatAttachment | internal/api/chat.go:1240-1255 | stores a fresh object and an unclaimed row for it |
| AttachmentStore.Store.CreateMessage | internal/db/chat.go:611-653 | claims all attachments named or, when one is taken, someone else's or named twice, changes nothing |
| AttachmentStore.Store.ForwardMessageInto | internal/db/chat.go:1001-1023 | makes one row per attachment read before, on the same key, whatever has become of the row read |
| AttachmentStore.Store.ForwardMessage | internal/db/chat.go:969-999 | refuses a missing or deleted message, otherwise reads its attachments once and copies them into each target conversation, every copy a step of the machine; with one target it is the forward step |
| AttachmentStore.Store.DeleteRowCall | internal/api/chat.go:976-979 | is the row step of a deletion, in whatever state the others have left |
| AttachmentStore.Store.CountCall | internal/api/chat.go:980-984 | is the count step: the object is next if and only if no row has the key |
| AttachmentStore.Store.DeleteObjectCall | internal/api/chat.go:985-988 | is the object step |
| AttachmentStore.Store.DeleteMessage | internal/api/chat.go:955-991 | removes the message's rows; an object goes if and only if every row referring to it was among them; the handler is a run of the machine |
| AttachmentStore.Store.SweepObjectCall | internal/janitor/janitor.go:91-94 | is the janitor's object step, in whatever state the others have left |
| AttachmentStore.Store.SweepRowCall | internal/janitor/janitor.go:95-98 | is the janitor's row step |
| AttachmentStore.Store.PurgeOrphaned | internal/janitor/janitor.go:81-105 | undisturbed, exactly the rows listed go and exactly their objects, as a run of the machine |
| GroupChat.OwnerIsAlwaysAMember | internal/db/chat.go:323-363 | in every run from creation, a non-empty group is owned by one of its participants |
| GroupChat.CreatedExact | internal/api/chat.go:166-180 | a new group is its creator's, who is in it with exactly the others named, all plain members |
| GroupChat.StrangersAreRefused | internal/api/chat.go:310-447 | a request by somebody not in the group changes nothing |
| GroupChat.PlainMembersOnlyLeave | internal/api/chat.go:256-447 | a step by a plain member who is not the owner leaves the group as it is or removes exactly that member |
| GroupChat.WhoeverGoes | internal/api/chat.go:359-406 | whoever goes was taken out by himself or herself, by the owner, or, plain and not the owner, by an admin; and goes alone |
| GroupChat.RemoveExact | internal/api/chat.go:359-406 | in the other direction, an owner's removal of anyone, an admin's of a plain non-owner and anyone's own leaving take effect; every other removal changes nothing |
| GroupChat.AddExact | internal/api/chat.go:310-352 | exactly when the owner or an admin asks, everybody is known and 200 are not exceeded, those named and not yet in join as plain members; nobody else's row changes |
| GroupChat.SetRoleExact | internal/api/chat.go:408-447 | exactly the owner's request about another member gives that member the role; nothing else changes |
| GroupChat.NonOwnersAreHarmless | internal/api/chat.go:359-447 | a step by anyone but the owner changes no role and no ownership, removes neither the owner nor another admin, and adds plain members only |
| GroupChat.OwnershipPassesOn | internal/db/chat.go:340-357 | ownership moves only when the owner leaves, to an admin if one remains, and to the earliest joiner among equals |
| GroupChat.EmptyGroupStaysEmpty | internal/api/chat.go:310-447 | nobody can act in an emptied group |
| GroupChat.GroupKeepsLimitIff | internal/api/chat.go:166-180 | every group of every run stays within the limit if and only if the creator and the participants named at creation, each counted once, do |
| GroupChat.GroupOfTooMany | internal/api/chat.go:166-180 | a creator with 200 others makes a group of 201 |
| GroupChat.Conversation.RequireManager | internal/api/chat.go:256-275 | admits exactly the owner and the admins |
| GroupChat.Conversation.AddParticipants | internal/api/chat.go:310-352 | is an add step: refused, or every newcomer joined as a plain member and nobody else touched |
| GroupChat.Conversation.RemoveParticipant | internal/api/chat.go:359-406 | is a remove step, ownership transfer included |
| GroupChat.Conversation.FirstInOrder | internal/db/chat.go:343-351 | picks a first row of the ordering, whatever order the rows are read in |
| GroupChat.Conversation.SetParticipantRole | internal/api/chat.go:408-447 | is a role step: only the owner, never on themselves |
| MarkupGeometry.ResizeFixesOppositeEdge | web/js/annotate.js:503-537 | for every handle, with or without Shift, the opposite edge stays, and an undragged axis is untouched |
| MarkupGeometry.DraggedEdgeFollowsPointer | web/js/annotate.js:503-537 | without the Shift constraint the dragged edge lands on the pointer |
| MarkupGeometry.ShiftKeepsProportion | web/js/annotate.js:514-524 | under Shift on a corner both axes scale by the larger magnitude, each keeping its sign |
| MarkupGeometry.CollapsedAxisIsCarried | web/js/annotate.js:506-513 | a collapsed axis is carried unscaled |
| MarkupGeometry.ShiftNeverShortensALine | web/js/annotate.js:506-524 | under Shift a horizontal or vertical line never scales below its length, because the collapsed axis counts as 1 |
| MarkupGeometry.FontFollowsWidth | web/js/annotate.js:528-535 | a label's font keeps its proportion to the box's width, unless the width collapses or the font would fall below the minimum |
| MarkupGeometry.DragBackRestores | web/js/annotate.js:503-537 | dragging a handle back to where it started restores every point and the font |
| MarkupGeometry.GrabbedPointFollows | web/js/annotate.js:489-500 | the grabbed point lands on the pointer |
| MarkupGeometry.MoveIsRigid | web/js/annotate.js:489-500 | a move keeps the difference of any two points |
| MarkupGeometry.MovesCompose | web/js/annotate.js:489-500 | moves in a row are one move, and moving back restores |
| MarkupEffects.MovedShapeIsRigid | web/js/annotate.js:489-500 | a moved shape keeps the differences of all its points and everything but its points, and a point under the pointer stays under it |
| MarkupEffects.DragFollowsPointer | web/js/annotate.js:489-500 | a drag that moves shifts exactly the selected shapes, by just as much as the pointer; the others stay |
| MarkupEffects.NudgeShifts | web/js/annotate.js:585-596 | an arrow key shifts exactly the selected shapes, by the key's offset |
| MarkupEffects.DragsCompose | web/js/annotate.js:489-500 | two drags in a row are one, and dragging back to where it began restores the scene |
| MarkupEffects.CopiesAreShifted | web/js/annotate.js:568-584 | each copy is its original 0.02 to the right and 0.02 down, under its own new id |
| MarkupEffects.ResizeTouches | web/js/annotate.js:503-537 | a resize touches the points of the selected shapes and the size of their text, nothing else |
| MarkupEffects.ResizedSceneIsAnchored | web/js/annotate.js:503-537 | shape by shape, the side opposite the handle stays and an axis not dragged is left alone |
| MarkupEffects.ResizeBackRestores | web/js/annotate.js:503-537 | letting a handle go where it was taken restores the scene, as far as no text is below the smallest size |
| MarkupEffects.TextGrowsAcross | web/js/annotate.js:528-535 | a label's font changes in the proportion in which any two points of the selection come to lie apart, mirrored or not, never below 0.004, and stays when the width collapses |
| MarkupEffects.KeepPicks | web/js/annotate.js:604-614 | erasing takes exactly the shapes named; the others stay, each once and in their order |
| MarkupEffects.SelectedPicks | web/js/annotate.js:568-584 | what is copied is exactly the selection, in its order |
| MarkupEffects.RetextChanges | web/js/annotate.js:700-708 | a new text changes that label's text and nothing else |
| MarkupEffects.DegenerateIff | web/js/annotate.js:356-375 | a finished stroke leaves nothing if and only if it is a click or shorter than 0.004, with a tool other than the pen and the highlighter |
| MarkupHistory.UndoTakesBackAnEdit | web/js/annotate.js:1048-1084 | after a gesture, undo shows exactly the scene before it |
| MarkupHistory.UndoRedoInverse | web/js/annotate.js:1048-1066 | undo and redo are inverse on the scene and both stacks |
| MarkupHistory.StacksStayBounded | web/js/annotate.js:1048-1084 | over any commands both stacks together never exceed the depth of 60 |
| MarkupHistory.HistoryAfterEdits | web/js/annotate.js:1080-1084 | after any gestures the history is the newest scenes that fit |
| MarkupHistory.UndoMany | web/js/annotate.js:1048-1066 | undoing several times walks back through the history, and redoing as often returns |
| MarkupHistory.UndoWalksBackThroughEdits | web/js/annotate.js:1048-1084 | after any gestures, j undos show the scene of j gestures ago and j redos bring all back |
| MarkupEditor.PushSeparate | web/js/annotate.js:1080-1084 | pushing a deep copy, oldest entry dropped at the cap, keeps live and stored shapes disjoint |
| MarkupEditor.SwapSeparate | web/js/annotate.js:1048-1066 | popping one stack and pushing a copy on the other keeps them disjoint |
| MarkupEditor.Editor.Clone | web/js/annotate.js:1080-1081 | the copy has the same values in new objects |
| MarkupEditor.Editor.PushHistory | web/js/annotate.js:1080-1084 | is the history step on values, with no shape shared |
| MarkupEditor.Editor.Undo | web/js/annotate.js:1048-1056 | is the undo step on values, with no shape shared |
| MarkupEditor.Editor.Redo | web/js/annotate.js:1058-1066 | is the redo step on values, with no shape shared |
| MarkupEditor.Editor.Draw | web/js/annotate.js:356-375 | a finished stroke or shape is one gesture; an empty one leaves scene and history alone |
| MarkupEditor.Editor.AddLabel | web/js/annotate.js:693-713 | a new label is one gesture; Escape and an empty text leave scene and history alone |
| MarkupEditor.Editor.DeleteSelected | web/js/annotate.js:558-567 | is one gesture that keeps exactly the unselected shapes, in order |
| MarkupEditor.Editor.DuplicateSelected | web/js/annotate.js:568-584 | is one gesture that adds copies with new ids |
| MarkupEditor.Editor.NudgeSelected | web/js/annotate.js:585-603 | is one gesture that moves exactly the selected shapes in place, snapshots untouched |
| MarkupEditor.Editor.EraseStroke | web/js/annotate.js:604-614 | a stroke over any shapes is one gesture that keeps exactly the others |
| MarkupEditor.Editor.EditText | web/js/annotate.js:666-727 | is one gesture: changes the text in place, deletes the label when emptied, nothing when unchanged; Escape deletes the label |
| MarkupEditor.Editor.ClearMine | web/js/annotate.js:1068-1078 | is one gesture that empties the scene |
| MarkupEditor.Editor.BeginDrag | web/js/annotate.js:445-488 | pushes history and remembers exactly the selected shapes' geometry |
| MarkupEditor.Editor.DragTo | web/js/annotate.js:489-537 | sets every selected shape from its original geometry, in place, stored snapshots untouched |
| MarkupEditor.Editor.Drag | web/js/annotate.js:481-537 | a whole drag depends only on the original shapes, the last pointer position and Shift |
| Autosave.StepKeepsAgreement | web/js/annotate.js:1090-1140 | while one image stays mounted, every edit, flush, success and failure keeps a clean layer equal to what is saved or on its way |
| Autosave.EditExact | web/js/annotate.js:1090-1095 | an edit shows the new scene as unsaved and sends nothing |
| Autosave.FlushExact | web/js/annotate.js:1115-1124 | a flush queues what is unsaved, once, behind the others; a second one does nothing |
| Autosave.AnswerExact | web/js/annotate.js:1126-1139 | the oldest save is answered, and only that one; a success is what the server holds for its file, a failure leaves the server alone and re-arms only the image on screen |
| Autosave.MountLosesNothing | web/js/annotate.js:116-186 | leaving an image sends what was unsaved of it: what agreed with the server or the queue before still does |
| Autosave.MountAgreesIff | web/js/annotate.js:116-186 | a fresh mount agrees if and only if the newest save still queued for the image holds just what was loaded or, with none queued, the load brought what there was |
| Autosave.AgreementSinceMount | web/js/annotate.js:116-186 | from any mount that agrees the agreement holds through any further steps on that image |
| Autosave.QuickReturnDisagrees | web/js/annotate.js:116-186 | a run in which returning before the save is answered shows a clean but outdated layer |
| Autosave.FlushedMeansSaved | web/js/annotate.js:1115-1140 | once flushed and answered without failure the server holds the canvas |
| Autosave.ServerHoldsLastSuccessfulSave | web/js/annotate.js:1115-1140 | in every run, across failures and image switches, the server holds for each file its last successful save in issue order |
| AutosaveLayer.Layer.Reshape | web/js/annotate.js:489-537 | an in-place edit marks the layer dirty and reaches no queued payload |
| AutosaveLayer.Layer.Replace | web/js/annotate.js:1048-1078 | undo, redo and clearing put another list in the scene's place, mark the layer dirty and reach no queued payload |
| AutosaveLayer.Layer.Flush | web/js/annotate.js:1115-1140 | captures file and a deep copy of the shapes and clears the flag before the request runs |
| AutosaveLayer.Layer.Answer | web/js/annotate.js:1126-1139 | requests finish in order, each on its own file; a failure re-arms only the image on screen |
| AutosaveLayer.Layer.Mount | web/js/annotate.js:116-186 | flushes the old image and shows the loaded layer in shapes of its own |
| AnnotationLimits.WalkAnnotation | internal/api/annotations.go:259-302 | succeeds if and only if all bounds hold below the value and the counter stays in its budget; then the counter has grown by the exact node count |
| AnnotationLimits.HasTag | internal/api/annotations.go:240-247 | finds the tag exactly when the shape has one |
| AnnotationLimits.ValidateAnnotationShapes | internal/api/annotations.go:212-255 | accepts a layer if and only if the order-free predicate holds |
| AnnotationLimits.FitsIffAllSmall | internal/api/annotations.go:259-302 | a value fits if and only if every value met on the way down is within its own bound: depth 6, 24 keys of 32 bytes, 2000 bytes of text, numbers up to 10000 |
| AnnotationLimits.LayerFitsIff | internal/api/annotations.go:212-255 | a layer is acceptable if and only if it has at most 1500 shapes, each tagged with 1 to 16 bytes and within the bounds, and at most 60000 values in all |
| AnnotationLimits.SumRearranged | internal/api/annotations.go:259-302 | node counts add up the same in any order |
| AnnotationLimits.OrderDoesNotMatter | internal/api/annotations.go:259-302 | bounds and node count are the same for every visiting order of object members, at any depth |
| AnnotationLimits.AcceptanceIsOrderFree | internal/api/annotations.go:212-255 | acceptance does not depend on map iteration order |
| Thumbnail.WindowsNeedNoClamp | internal/thumbnail/thumbnail.go:83-100 | windows are non-empty, consecutive and end at the border: no clamp ever fires |
| Thumbnail.EveryPixelInOneCell | internal/thumbnail/thumbnail.go:83-100 | every source pixel lies in exactly one destination cell |
| Thumbnail.CellSumsAddUp | internal/thumbnail/thumbnail.go:102-112 | the cell sums add up to the sums of the whole image, per channel and in pixels |
| Thumbnail.FlattenNeverOverflows | internal/thumbnail/thumbnail.go:113-125 | average plus white stays within 16 bits, the result within 8, the running sums within 64 |
| Thumbnail.UniformWindows | internal/thumbnail/thumbnail.go:113-125 | a uniform opaque window keeps its colour and a transparent one becomes white |
| ThumbnailColors.WindowIsSummed | internal/thumbnail/thumbnail.go:102-112 | each sum of a window is that channel of the window's pixels, each once |
| ThumbnailColors.ChannelShown | internal/thumbnail/thumbnail.go:102-125 | from source pixels to cell: each channel depends on that channel and alpha only, and 256 times it is within 255 below the channel's average plus the white that alpha leaves |
| ThumbnailColors.OpaqueColorStays | internal/thumbnail/thumbnail.go:102-125 | a window of one opaque colour shows that colour, channel by channel: red stays red |
| ThumbnailColors.TransparentIsWhite | internal/thumbnail/thumbnail.go:113-125 | a transparent window shows white |
| Thumbnail.SumWindow | internal/thumbnail/thumbnail.go:102-112 | the inner loops sum exactly the window |
| Thumbnail.Sample | internal/thumbnail/thumbnail.go:82-128 | every cell is the flattened average of its own window |
| Thumbnail.TargetFits | internal/thumbnail/thumbnail.go:57-80 | for quotients and products rounded as doubles are, the result fits the limit and the source, an image within the limit keeps its size, and the longer side of a larger one comes out at 480 or 479 |
| ThumbnailColors.SideIsItsShare | internal/thumbnail/thumbnail.go:57-80 | the result keeps the proportions: either side is its share of the limit, up to the pixel dropped and the rounding, unless that is less than a pixel |
| Thumbnail.WidthThatFallsShort | internal/thumbnail/thumbnail.go:64-80 | a width of 537 comes out at 479: both roundings spelled out |
| Thumbnail.BoundaryIsExact | internal/thumbnail/thumbnail.go:83-100 | window boundaries computed in floating point are the exact ones |
| Thumbnail.Downscale | internal/thumbnail/thumbnail.go:56-128 | the thumbnail has the size computed with rounding and samples every cell; an empty image is handed back |
| RateLimit.Compact | internal/api/ratelimit.go:65-71 | compaction in place equals filtering |
| RateLimit.AfterPicks | internal/api/ratelimit.go:63-77 | what a pruning keeps is exactly the events strictly inside the window, as often and in the order recorded |
| RateLimit.PruningRepresents | internal/api/ratelimit.go:63-77 | a pruned list answers every later question as the full history does |
| RateLimit.KeyedLimiter.Prune | internal/api/ratelimit.go:63-77 | leaves exactly the history inside the window, the other keys' lists untouched |
| RateLimit.KeyedLimiter.Blocked | internal/api/ratelimit.go:49-53 | answers as if it counted every event ever recorded within the window |
| RateLimit.KeyedLimiter.Record | internal/api/ratelimit.go:55-59 | adds one event to the key's history, reusing or growing the backing array |
| RateLimit.KeyedLimiter.Attempt | internal/api/chat.go:532-537 | check and record together keep every event behind an unblocked check of its own |
| RateLimit.NoWindowOverflows | internal/api/ratelimit.go:49-77 | no interval of one window, wherever it starts, holds more than the limit, or the limit plus the requests that slip between a check and its record |
| RateLimit.OverlapReachesTheBound | internal/api/chat.go:532-537 | that bound is reached by requests checked together |
| ChatHub.RegisterKeepsSound | internal/api/chatws.go:72-93 | registering, eviction included, keeps the registry sound |
| ChatHub.UnregisterKeepsSound | internal/api/chatws.go:97-113 | unregistering, late or not, keeps the registry sound |
| ChatHub.RunKeepsSound | internal/api/chatws.go:72-132 | over any run: lists of 1 to 20 distinct connections, every connection still to unregister is listed or had its socket closed, and a user is listed if and only if last reported online |
| ChatHub.RegisterExact | internal/api/chatws.go:72-93 | the newcomer comes last in the user's list; with 20 already in it the oldest gives way and has its socket closed; nobody else's list changes |
| ChatHub.OldestFirst | internal/api/chatws.go:72-113 | over any run a user's list stands in the order of registration, so the one that gives way is the oldest |
| ChatHub.OnlineReportIsAChange | internal/api/chatws.go:68-78 | online is reported exactly when the user was last reported offline |
| ChatHub.OfflineReportIsAChangeIff | internal/api/chatws.go:95-113 | an offline report is a change if and only if the connection had not been evicted |
| ChatHub.OfflineIsReportedTwice | internal/api/chatws.go:72-113 | a run in which one user is reported offline twice in a row |
| ChatHub.ChatHub.Register | internal/api/chatws.go:72-93 | is the register step; closes the evicted socket and no channel |
| ChatHub.ChatHub.Unregister | internal/api/chatws.go:97-113 | is the unregister step; the send channel is closed exactly once |
| ChatHub.ChatHub.IsOnline | internal/api/chatws.go:116-120 | true exactly for users last reported online |
| ChatHub.ChatHub.Count | internal/api/chatws.go:124-132 | the sum over users is the number of distinct live connections |
| PushBatcher.RunKeepsTimersExact | internal/api/push.go:237-261 | over any run a recipient has an open batch if and only if exactly one timer is outstanding for them, due a window after the batch's first message |
| PushBatcher.RunConserves | internal/api/push.go:237-261 | batches sent and the open one, put together, are exactly the messages enqueued, in order |
| PushBatcher.RunSendsNoEmptyBatch | internal/api/push.go:252-261 | no batch sent is empty |
| PushBatcher.FireFindsItsBatch | internal/api/push.go:252-261 | a timer that fires always finds its batch: the nil guard never takes effect |
| PushBatcher.Batcher.Add | internal/api/push.go:237-250 | is the enqueue step; count, conversations and last message match what was enqueued |
| PushBatcher.Batcher.Flush | internal/api/push.go:252-261 | is the fire step; the batch handed on matches its messages and no later call can reach it |
| Attendance.LateByMoreThanTheGrace | internal/db/attendance.go:88-93 | lateness is counted from the start of work, so a late record is late by at least the grace |
| Attendance.LateIff | internal/db/attendance.go:88-93 | a record is late if and only if the check-in is past the start of work and the grace, and the minutes, rest dropped, count from the start |
| Attendance.EarlyIff | internal/db/attendance.go:101-106 | a record is early if and only if the check-out is before the end of work, and the minutes count up to the end |
| Attendance.WorkedIs | internal/db/attendance.go:95-100 | the time worked runs from check-in to check-out in whole minutes, and is nothing when reversed |
| Attendance.ArrivingLaterIsLater | internal/db/attendance.go:88-93 | arriving later the same day never makes a late record punctual nor takes a minute off |
| Attendance.LeavingLaterIsNoEarlier | internal/db/attendance.go:101-106 | leaving later never makes a record early nor adds an early minute |
| Attendance.WorkedAndEarlyMakeTheDay | internal/db/attendance.go:95-106 | for a check-in no later than the end and a check-out between the two, early holds exactly short of the end, and worked and early minutes together differ from those between check-in and end by at most one |
| Attendance.WorkedIsZeroIff | internal/db/attendance.go:75-108 | exactly when no time worked is shown |
| Attendance.AttendanceRow.ComputeStatus | internal/db/attendance.go:75-108 | fills in exactly the verdict of the record's own snapshot |
| Attendance.GroupsAddUp | internal/db/attendance.go:237-291 | grouping by day or by employee loses nothing and counts nothing twice |
| Attendance.DayIsTallied | internal/db/attendance.go:237-291 | a day's point counts exactly that day's records, late ones, early ones and ones under review |
| Attendance.EmployeeIsTallied | internal/db/attendance.go:323-438 | an employee's row counts and adds up exactly that employee's records |
| Attendance.EmployeeAverages | internal/db/attendance.go:425-438 | the averages are over the days with any time worked, over the days present, and the share of punctual days |
| Attendance.OverallIsTallied | internal/db/attendance.go:237-291 | the overall numbers count all records |
| Attendance.RecordsOfTheRows | internal/db/attendance.go:323-438 | the employees' rows are made of exactly the records the join brought, each once |
| Attendance.FirstSeenInOrder | internal/db/attendance.go:237-291 | days and employees are listed in the order first met |
| Attendance.SumsIgnoreOrder | internal/db/attendance.go:323-438 | sums do not depend on the order a query returns |
| Attendance.RollUpsAgree | internal/db/attendance.go:237-438 | for the same records, per-day totals, overall totals and per-employee totals of presence, lateness, early leaving and review agree |
| Attendance.PunctualityInRange | internal/db/attendance.go:433-436 | punctuality is -1 exactly for the never present, else 0 to 100, and 100 exactly without a late day |
| Attendance.GetAnalytics | internal/db/attendance.go:237-291 | one pass yields the overall counts and one point per day, days in order of first appearance |
| Attendance.GetEmployeeSummaries | internal/db/attendance.go:323-438 | yields one finished row per employee of the join, those without a record included |
| AttendanceLog.CheckInExact | internal/db/attendance.go:115-131 | a check-in is recorded if and only if the employee is tracked and the day has no record; the record is made out for that day under the schedule in force, and nothing else changes |
| AttendanceLog.CheckOutExact | internal/db/attendance.go:135-149 | a check-out closes today's open record, if there is one, and changes nothing else about it |
| AttendanceLog.CreateExact | internal/api/attendance.go:274-323 | an administrator's record is made out like a check-in, and refused exactly when future, reversed, for someone not tracked, or on a day that has one |
| AttendanceLog.UpdateExact | internal/api/attendance.go:237-267 | a correction replaces both times and clears the review; the rest of the record, its schedule included, and every other record stay |
| AttendanceLog.DeleteExact | internal/api/attendance.go:325-350 | exactly the record named goes |
| AttendanceLog.FlagExact | internal/db/attendance.go:505-523 | the nightly run puts exactly the open records of past days under review |
| AttendanceLog.SettingsExact | internal/api/attendance.go:368-399 | a schedule is stored if and only if it is within the bounds; neither it nor switching an employee touches a record |
| AttendanceLog.LatenessSurvives | internal/models/models.go:580-585 | over any run without a correction of the record, its lateness never changes: no new schedule and no check-out touches it |
| AttendanceLog.VerdictSurvives | internal/models/models.go:580-585 | with no check-out on it either, the whole verdict stays |
| AttendanceLog.RecordsCarryTheirSchedule | internal/models/models.go:580-585 | in every reachable log each record carries the schedule in force when it was written, whatever has happened since |
| AttendanceLog.ReviewIff | internal/db/attendance.go:499-523 | in every reachable log a record is under review if and only if the nightly run found it open after its day and no correction came after |
| AttendanceLog.StepKeepsDatesIff | internal/db/attendance.go:444-476 | work date and judged date agree after a step unless it is a correction that moves the check-in to another day |
| AttendanceLog.AttendanceTable.AdminSetSchedule | internal/api/attendance.go:368-399 | stores exactly the schedules within the bounds |
| AttendanceLog.AttendanceTable.SetAttendanceTracked | internal/db/attendance.go:565-577 | switches one employee in or out and touches no record |
| AttendanceLog.AttendanceTable.ClockIn | internal/db/attendance.go:115-131 | records the first check-in of the day of a tracked employee and refuses any other |
| AttendanceLog.AttendanceTable.ClockOut | internal/db/attendance.go:135-149 | closes today's open record and refuses otherwise |
| AttendanceLog.AttendanceTable.AdminCreate | internal/api/attendance.go:274-323 | inserts under the present schedule, refusing future, reversed, untracked and duplicate records |
| AttendanceLog.AttendanceTable.AdminUpdate | internal/api/attendance.go:237-267 | changes the times, keeps the snapshot and clears the review flag |
| AttendanceLog.AttendanceTable.AdminDelete | internal/api/attendance.go:325-350 | removes exactly the record named |
| AttendanceLog.AttendanceTable.FlagMissingCheckouts | internal/db/attendance.go:505-523 | one scan, after which a record is under review if and only if it was before, or is open and of a past day; nothing else about any record changes |

## Left out

- WebDAV writes, which move folders without the descendant check, and WOPI saves: the tree machine is about the HTTP handlers and the janitor.
- File and folder names, name collisions and renames; a name collision is neither a failure nor a change here.
- Stored objects and thumbnails of files: keys are reused after a rename or a move, so the trash properties are about rows.
- Who may do what: the permission tables enter as truth values. HTTP status codes and messages.
- Interleavings between the check and the write of a handler that creates, moves, trashes or restores: each is one step. The calls that remove rows, and the janitor's, are steps of their own.
- TreeStore.Store.DeleteProject: aborting the project's upload sessions and deleting its rows are one step; a session opened between the two calls of the handler would be left with no project.
- Deleting all users at once, and the last-administrator check.
- Failing store calls during attachment deletion, and attachments of deleted accounts.
- Attachments.BeginKeepsInv: marking the message and listing its attachments are one step of the machine, two calls in the handler.
- Group accounts being deleted, group names and direct conversations.
- Folder downloads: joining a segment to a path is taken as appending it, so segments that path cleaning would fold are not captured; reading and compressing the files, and the clash of names inside an archive.
- MarkupEditor.Editor.Draw: new shapes are given ids not yet in the scene, where the source draws them at random; the same holds for copies.
- MarkupEditor.Editor.EditText: the text typed is taken as trimmed already; the same holds for new labels.
- Markup: the selection box of text (its width is measured by the browser) is handed to a drag; snapping while drawing, the laser, the marquee, hit testing, painting, tool changes in the middle of a stroke.
- Autosave.StepKeepsAgreement: mounting includes its load; edits made before a load settles and loads overtaken by a second mount are not captured.
- Floating-point rounding of the markup geometry, which uses exact reals; durations are whole nanoseconds. A thumbnail's floating-point answers are handed in and assumed rounded within half a unit in the last place. The offset of an image's bounds from zero is taken as zero.
- JSON decoding: a layer is given as decoded values with distinct keys per object, and a payload as its length and whether it decodes.
- A limiter call is one step and reads the clock once for pruning and once for the event; clocks never run backwards.
- Broadcasting to connections, which sends outside the lock; push wording, mention pushes and subscriptions; a timer that fires late.
- Attendance: time zone changes within a day, the number of expected workdays (handed in), the joins that hide untracked employees, the spreadsheet.
