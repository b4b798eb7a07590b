# Remotish: a verified model of the working tree, publication, storage and bridge

Remotish edits a remote repository without cloning it. A workspace pins an immutable base revision and
keeps local edits in an overlay; a publication sends the overlay's changes to the remote as one commit;
a journal and a generation store make both survive crashes; a bridge carries requests between browser
tabs. This project models those parts in Dafny, in the form the program has (objects changed in place,
loops, methods that fail), and proves the properties its design rests on.
`dafny verify dfyconfig.toml` checks all of it.

## What is proved

**Working tree** (`paths` to `edit-runs`, `edit-conditions`, `directories`, `working-tree`, `traversal`). A state
is a base file map and an overlay of files, directory markers, tombstones and rename records. The invariant `WellFormed` says that
the kinds of base and overlay agree, that nothing in the overlay lies under a tombstone, and that every
hidden base file has its own tombstone; `ParentsPresent` says that every overlay entry has its parent
directories. Every edit is proved to act on the flat map of visible files as one expects, and to keep the
invariant exactly under conditions a caller can check (`EditRuns.Safe`). When each edit succeeds
(`EditConditions`) and what it does to the visible directories (`Directories`) is stated exactly. `EditRuns`
lifts this to runs. The weaker `Sound`, that the base is a tree and no overlay file lies under a tombstone, survives every edit, so
that what rests on it holds of every run: publications are invisible, edits touch nothing outside their
paths, and deletions stay. The class `WorkingTree` performs the edits in place and is proved to reach the
specified overlays.

**Publication** (`change-sets`, `commit-changes`, `fixture-files`, `rebases`, `commit-engine`,
`commit-service`). In every `Sound` state the changes of any chosen part fit the base; the remote refuses
them exactly when a file would become the parent of another. When the stored revision is a tree, which has
its exact condition too, the rebase is invisible, leaves exactly the rest to publish, and is idempotent; when
it fails is stated exactly.

**Journal** (`journal`, `workspace`). A state machine of edits, refreshes, saves that fail or stop between
the two pointers, ambiguous publications, answers that are lost, requests that land late, other clients, a
lost pointer, crashes between any two steps, reopening and manual resolution, from a storage that holds
nothing. Its run theorems cover crash safety, write-ahead, single publication, and when recovery settles a
publication. The class `RemotishWorkspace` has the program's methods, each proved to be a path of that machine.

**Branches** (`branch-workspaces`). Working trees as separate objects over the storage of `storage`, with
snapshot and restore, the local mutations that roll all of them back, and every method that saves.

**Storage** (`storage`). Content-addressed blobs, manifests and two pointer files. Every disk that a save
or its garbage collection leaves between two file operations is recorded and proved to load the old or
the new snapshot.

**Timeline, cache, bridge** (`timeline`, `revision-cache`, `rpc-endpoint`, `rpc-host`, `mailbox`). Paging
that equals one scan; a least-recently-used cache; request handling at most once under loss, repetition
and reordering; chunked delivery over a storage that other tabs change at every wait.

## Where the code and its promises part

- Creating a directory over a deleted base file makes the file readable again and drops its deletion
  (`Limits.DeletionForgotten`; `Edits.CreateDirectoryKeeps` has the exact condition).
- Writing a file where the base had a directory leaves its subdirectories to be found below the file, unless
  each has a tombstone of its own (`Edits.FileAboveDirectoryIff`, `Limits.DirectoryBelowFile`).
- Renaming a directory onto the path of a deleted base file, or one below it onto such a path, makes the
  deleted file readable again (`Limits.RenameRevivesDeletedFile`; exactly when:
  `Renames.RenameDirectoryRefines`).
- Whatever clears the tombstone of a deleted base directory brings its subdirectories back, empty, unless they
  have tombstones of their own: creating the directory anew, or moving something onto its path
  (`Limits.EmptyDirectoryReturns`; exactly which: `Directories`).
- Reverting a file that was renamed twice leaves it nowhere: the second rename forgets where it came from
  (`Limits.RenamedTwiceIsLost`; when a revert undoes a rename: `Reverts.RenameRoundTripIff`).
- A partial publication can leave an overlay file without a parent directory; renaming a directory above
  it then loses the file (`Limits.PublishingOrphans`, `Limits.RenameLosesOrphan`; the exact conditions
  are `Rebases.RebaseKeepsParentsIff` and `Renames.RenameDirectoryRefines`).
- A leftover rename record, or the tombstone of a file whose deleted directory a new file has replaced, can
  make the rebase after a publication fail every time it is tried (`Limits.RebaseIsStuck`, reached in
  `Limits.StuckIsReached`; `Limits.ReplacementIsStuck`, reached in `Limits.ReplacedIsReached`; exactly when:
  `Rebases.RebaseSucceedsIff`). The publication then stays pending for good, for reopening and naming the
  revision by hand rebase in the same way, and it cannot be declared unpublished.
- A file that replaces a deleted base directory cannot be published without the deletions when a deleted file
  lay directly in the directory. When it lay further down, the fixture's remote accepts the file and stores a
  revision with a file above a file (`Limits.ReplacementAloneIsRefused`, `Limits.ReplacementStoresNoTree`;
  exactly when: `FixtureFiles.PublicationIsAccepted`, `ChangeSets.PublishedIsTreeIff`).
- A base file whose deletion was undone under such a file is hidden again, with no tombstone of its own, when
  a directory above both is deleted, and comes back when that directory is created anew
  (`Limits.DeletionComesUndone`; only so: `EditRuns.LooseComesFrom`).
- Renaming onto an ancestor with overwrite deletes the source first; the files come back only because the
  workspace rolls the failed edit back (`RenamePaths.RenameOntoAncestorFails`, `Limits.AncestorRenameDeletes`).
- While the primary pointer does not hold, as before the first completed save, a save that fails after
  replacing the backup is what loads next: an edit that was rolled back is there again after a restart
  (`Journal.RolledBackEditReturns`; exactly when: `Storage.BackupAloneLoadsIff`, `Journal.HalfSaveLoadsIff`).
- Recovery takes the expected head as proof that nothing was published. A request that lands after that is
  forgotten (`Journal.LateLandingIsKnownIff`).
- Opening saves nothing, so until the first save a restart follows the remote head
  (`Journal.UnsavedCheckoutMoves`).
- Creating a branch replaces a local workspace of the same name, with its edits
  (`Branches.LocalWorkspace.CreateBranch`).
- A timeline page with a limit below one ends the timeline without a cursor (`Timeline.Load`).
- A mailbox whose clean-up is slow can forget a delivered id before its manifest is gone. The packet is
  not delivered again because a chunk of it is gone by then, which protects every packet but an empty one
  (`Mailboxes.GmMailbox.DeleteIfOld`, `Mailboxes.BrokenPassesIffEmpty`). An empty packet carries no frame.

## Assumptions

Revisions are immutable and trees (that the fixture's remote can store another is said above), and a
directory of a revision exists exactly when a file lies below it. Hashes are injective; whole-file writes and renames are atomic. Random ids do
not repeat. Branch heads do not return to an old revision. Frames are authenticated. The tabs share one
clock, which never goes back.

## Model

| member | source | states |
|---|---|---|
| `PathText.NormalizeIsIdempotent` | packages/adapter-sdk/src/path.ts:5-12 | whatever normalization accepts comes out canonical and free of backslashes, so normalizing again changes nothing |
| `PathText.SegmentsOfCanonical` | packages/adapter-sdk/src/path.ts:5-12 | a canonical string is the join of its segments, none of them empty, `.`, `..` or containing a slash |
| `PathText.CanonicalOfSegments` | packages/adapter-sdk/src/path.ts:5-12 | the converse: every list of good segments joins to a canonical string that splits back into that list |
| `PathText.IsSameOrChildIsWithin` | packages/core/src/util/path.ts:23-27 | the string test is the segment-prefix test, both ways; only the root is within the root |
| `PathText.ParentPathIsParent` | packages/core/src/util/path.ts:6-20 | cutting at the last slash gives the parent segments, again canonical, and the last segment as base name |
| `PathText.IsDirectChildIsParent` | packages/core/src/util/path.ts:30-32 | direct childhood of strings is `Parent` of the segments, both ways |
| `PathText.SuffixIsMoved` | packages/core/src/working-tree/mutation-service.ts:122-146 | `to + path.slice(from.length)` is canonical and is the segment move, for every path at or below `from` |
| `Paths.MovedBack` | packages/core/src/working-tree/mutation-service.ts:122-146 | moving there and back is the identity, so two subtrees correspond one to one |
| `Paths.AncestorsAreChain` | packages/core/src/util/path.ts:23-27 | two ancestors of one path are comparable |
| `Repository.StatOfTree` | packages/core/src/repository/repository-reader.ts:95-122 | what `stat` answers on a tree of files: file, directory, missing, or invalid below a file, each exactly when |
| `Overlays.Overlay.Restore` | packages/core/src/overlay/overlay.ts:53-67 | `restore` makes `snapshot` return exactly what was restored, whatever the overlay held before |
| `Overlays.Overlay.RemoveOverlayPath` | packages/core/src/overlay/overlay.ts:106-127 | the loops remove every file, marker and record at or below the path, and keep all others in order |
| `Overlays.Overlay.RemoveRenamesTouching` | packages/core/src/overlay/overlay.ts:116-127 | removing by position from the back leaves exactly the records that do not touch the path, in order |
| `Overlays.RecordsKept` | packages/core/src/overlay/overlay.ts:116-127 | removing a path forgets exactly the records that begin or end at or below it |
| `Overlays.RecordsStayInOrder` | packages/core/src/overlay/overlay.ts:116-127 | the records that are kept stay in their order |
| `Overlays.Overlay.SetFile` | packages/core/src/overlay/overlay.ts:92-97 | the new file replaces a marker and clears every tombstone above it |
| `Overlays.Overlay.SetDirectory` | packages/core/src/overlay/overlay.ts:99-104 | the new marker replaces a file and clears the tombstone of its own path only |
| `Overlays.Overlay.MarkDeleted` | packages/core/src/overlay/overlay.ts:129-136 | the subtree leaves the overlay and the path gets its tombstone |
| `Overlays.Overlay.UnmarkDeleted` | packages/core/src/overlay/overlay.ts:138-145 | the tombstone of the path goes, and on request those above it; no other |
| `Overlays.Overlay.RemoveRenameTo` | packages/core/src/overlay/overlay.ts:158-166 | the first record with that target is removed and returned |
| `TreeView.ViewsAgree` | packages/core/src/working-tree/working-tree.ts:51-79 | while no path is a file on one side and a directory on the other, `stat`, `readFile` and the directory entries agree at every path |
| `TreeView.StatOfView` | packages/core/src/working-tree/working-tree.ts:51-79 | each answer of `stat` on the merged view in terms of base files, overlay entries and tombstones, its errors included |
| `TreeView.VisibleIsTree` | packages/core/src/working-tree/working-tree.ts:51-79 | the visible files of a well-formed state form a tree |
| `TreeView.ReachedFilesAreVisible` | packages/core/src/working-tree/traversal.ts:12-37 | a directory walk reaches exactly the visible files below it except the orphans |
| `TreeView.NoOrphans` | packages/core/src/working-tree/traversal.ts:12-37 | only an overlay file whose parent directory is gone can be an orphan |
| `Traversal.ReadRevisionDirectory` | packages/adapter-fixture/src/repository-view.ts:20-52 | one entry for each first segment below the directory, with the kind the files imply |
| `Traversal.DirectChildren` | packages/core/src/overlay/overlay.ts:198-212 | the overlay's children of a directory, a marker winning over a file |
| `Traversal.ReadDirectory` | packages/core/src/working-tree/working-tree.ts:97-124 | the merged listing has exactly the names the view has, with their kinds |
| `Traversal.ListVisibleFiles` | packages/core/src/working-tree/traversal.ts:12-37 | the recursive listing has every reached file exactly once, and fails exactly when a budget is exceeded |
| `Traversal.ListVisibleDirectories` | packages/core/src/working-tree/traversal.ts:39-57 | the same for the directories below the start |
| `Traversal.ListingIsComplete` | packages/core/src/working-tree/traversal.ts:12-37 | while every parent is present the listing is exactly the visible files below the directory |
| `Edits.WriteFileRefines` | packages/core/src/working-tree/mutation-service.ts:24-51 | a successful write updates one path of the flat file map |
| `Edits.WriteFileKeeps` | packages/core/src/working-tree/mutation-service.ts:24-51 | it keeps the invariant if and only if the base has no directory at that path |
| `Edits.WriteBackIsClean` | packages/core/src/working-tree/mutation-service.ts:42-48 | writing the base bytes back takes the path out of the overlay, and with no other edit the tree is clean again |
| `EditConditions.WriteSucceedsIff` | packages/core/src/working-tree/mutation-service.ts:24-50 | a write succeeds if and only if its parent is a visible directory, no directory is at the path, and `create` or `overwrite` allows it, as a file is visible there or not |
| `EditConditions.WriteRefusal` | packages/core/src/working-tree/mutation-service.ts:32-41 | a refused write answers that something is missing exactly when nothing is in the way of the path and creation is not allowed or the parent is not there |
| `EditConditions.MakeDirectorySucceedsIff` | packages/core/src/working-tree/mutation-service.ts:53-62 | a directory is created if and only if nothing is visible at the path and its parent is a visible directory |
| `EditConditions.RemoveSucceedsIff` | packages/core/src/working-tree/mutation-service.ts:64-66 | whatever is visible, except the root, has a state that deleting it leads to, and nothing else has |
| `EditConditions.DeleteAllowedIff` | packages/core/src/working-tree/mutation-service.ts:148-158 | without `recursive` a directory is deleted only when nothing is visible below it; the traversal budget is the only other limit |
| `EditConditions.MoveSucceedsIff` | packages/core/src/working-tree/mutation-service.ts:68-95 | a move succeeds if and only if the source is visible, the target's parent is a visible directory, neither end is within the other, and a visible target may be overwritten |
| `EditConditions.OverwriteIsAsked` | packages/core/src/working-tree/mutation-service.ts:35-41 | no successful edit without `overwrite` puts anything where something is visible, and none without `create` where nothing is |
| `EditConditions.BudgetMeaning` | packages/core/src/working-tree/traversal.ts:12-37 | the budget is 256 levels of visible directories and 100000 visible paths below the directory |
| `Directories.WriteDirectories` | packages/core/src/working-tree/mutation-service.ts:24-50 | a write takes no visible directory away, and brings back exactly those base directories below the path that its tombstone alone was hiding |
| `Directories.CreateDirectoryDirectories` | packages/core/src/overlay/overlay.ts:99-104 | after creating a directory it is there, with exactly those old subdirectories that its tombstone alone was hiding |
| `Directories.DeleteDirectories` | packages/core/src/working-tree/mutation-service.ts:148-168 | a deletion takes exactly the visible directories of its subtree |
| `Directories.RenameFileDirectories` | packages/core/src/working-tree/mutation-service.ts:115-120 | moving a file changes no visible directory outside the target, and leaves below the target exactly the base directories that its tombstone alone was hiding |
| `Directories.RenameDirectories` | packages/core/src/working-tree/mutation-service.ts:122-146 | a moved directory takes its subdirectories along, empty ones too; what else is visible below the target is exactly the base directories that only cleared tombstones were hiding |
| `Directories.RevertDirectories` | packages/core/src/working-tree/mutation-service.ts:97-109 | which directories are visible after a revert: markers of the reverted subtree go, and what only cleared tombstones were hiding comes back |
| `Directories.RebaseDirectories` | packages/core/src/working-tree/published-revision.ts:24-35 | a publication keeps exactly the visible directories that have a marker or that it does not empty, and shows no new one |
| `Limits.EmptyDirectoryReturns` | packages/core/src/overlay/overlay.ts:99-104 | a concrete directory that is created anew after its deletion and has its old subdirectory in it, empty |
| `Edits.FileAboveDirectoryIff` | packages/core/src/working-tree/mutation-service.ts:24-51 | writing a file over a deleted base directory leaves directories to be found below the file exactly when a directory below it has no tombstone of its own |
| `Limits.DirectoryBelowFile` | packages/core/src/working-tree/mutation-service.ts:160-167 | a concrete deleted directory whose subdirectory is found below the file that takes its name |
| `Edits.CreateDirectoryRefines` | packages/core/src/working-tree/mutation-service.ts:53-62 | creating a directory changes no visible file, except that a deleted base file of that name comes back |
| `Edits.CreateDirectoryKeeps` | packages/core/src/working-tree/mutation-service.ts:53-62 | it keeps the invariant if and only if the base has no file at that path |
| `Limits.DeletionForgotten` | packages/core/src/overlay/overlay.ts:230-236 | a concrete state where creating a directory over a deleted base file shows its bytes again and drops the deletion from the changes |
| `Deletes.DeleteRefines` | packages/core/src/working-tree/mutation-service.ts:148-179 | deletion removes exactly one subtree from the flat map and keeps the invariant |
| `Deletes.DeletedBaseFile` | packages/core/src/working-tree/mutation-service.ts:160-167 | after deleting a directory every hidden base file has a tombstone of its own |
| `Renames.RenameFileRefines` | packages/core/src/working-tree/mutation-service.ts:115-120 | renaming a file moves its bytes and changes no other path |
| `Renames.PlantedIsNotDeleted` | packages/core/src/working-tree/mutation-service.ts:122-146 | nothing planted stays under a tombstone, although the root is cleared after its children |
| `Renames.PlantShows` | packages/core/src/working-tree/mutation-service.ts:122-146 | what the half-done state between planting and deleting shows at every path |
| `Renames.RenameDirectoryRefines` | packages/core/src/working-tree/mutation-service.ts:122-146 | the result is the move of the whole visible subtree if and only if no orphan lies below the source and no directory of the move lands on a deleted base file, whatever else the base has at the target |
| `Renames.RenameDirectoryKeeps` | packages/core/src/working-tree/mutation-service.ts:122-146 | the invariant survives if and only if no planted path has another kind in the base |
| `Renames.MisfitStays` | packages/core/src/working-tree/mutation-service.ts:122-146 | a planted entry of the wrong kind is still there after the source is deleted |
| `Renames.RecordsAreInvisible` | packages/core/src/working-tree/mutation-service.ts:122-146 | rename records never change what is visible |
| `RenamePaths.RenameRefines` | packages/core/src/working-tree/mutation-service.ts:68-95 | with overwrite included, a rename is the move on the flat map exactly when no directory lands on a base file; it keeps the invariant exactly when no base path gets another kind, and parents always |
| `RenamePaths.RenameElsewhere` | packages/core/src/working-tree/mutation-service.ts:68-95 | outside the target a rename does what the move does, whatever the kinds |
| `RenamePaths.RenameOntoAncestorFails` | packages/core/src/working-tree/mutation-service.ts:75-93 | renaming onto an ancestor with overwrite deletes the ancestor and then finds no source; the files are gone |
| `Limits.AncestorRenameDeletes` | packages/core/src/working-tree/mutation-service.ts:75-93 | a concrete rename onto an ancestor after which no file is left |
| `Limits.RenameRevivesDeletedFile` | packages/core/src/working-tree/mutation-service.ts:131-135 | a concrete rename that makes a deleted base file readable again |
| `Reverts.RevertRefines` | packages/core/src/working-tree/mutation-service.ts:97-109 | a revert restores one path, or both ends of one rename, and nothing else |
| `Reverts.RevertRestores` | packages/core/src/working-tree/mutation-service.ts:97-109 | a deleted base file comes back exactly when it is at or above the path whose tombstones are cleared |
| `Reverts.RevertedPathShowsBase` | packages/core/src/working-tree/mutation-service.ts:97-109 | a reverted base file shows its base bytes, and paths outside it are untouched |
| `Reverts.RevertUndoesRename` | packages/core/src/working-tree/mutation-service.ts:97-109 | with a rename record to the path: no overlay file is left at or below it, the base files at or above the record's source are readable again, and no other path changes |
| `Reverts.RevertUndoesEdit` | packages/core/src/working-tree/mutation-service.ts:97-109 | without a record the same of the path itself |
| `Reverts.RenameRoundTripIff` | packages/core/src/working-tree/mutation-service.ts:97-120 | renaming an unedited base file to a free path and reverting it is a round trip if and only if the base has no deleted file there and the first record with that target comes from the file or from below it |
| `Reverts.RenameIsUndone` | packages/core/src/working-tree/mutation-service.ts:97-120 | with no older record to the target that is exactly when the base has no file there |
| `Reverts.MovedFileComesBack` | packages/core/src/working-tree/mutation-service.ts:122-146 | each unedited base file of a renamed directory comes back when its new path is reverted, if no older record has that target |
| `Limits.RenamedTwiceIsLost` | packages/core/src/working-tree/mutation-service.ts:97-120 | a concrete run in which a file renamed twice is nowhere after its revert |
| `EditRuns.StepRefinesIff` | packages/core/src/working-tree/mutation-service.ts:24-113 | from every valid state every successful edit or publication, safe or not, does to the flat map what it means, exactly unless it revives a deleted base file under a new directory |
| `EditRuns.StepKeepsIff` | packages/core/src/working-tree/mutation-service.ts:24-113 | every edit and publication keeps the invariant if and only if it meets a condition on the state before it |
| `EditRuns.RunRefines` | packages/core/src/working-tree/mutation-service.ts:24-113 | in every run whose steps before the last are safe, the tree shows what the effects make of a flat file map, with the exact condition for the last step |
| `EditRuns.DeletionsStay` | packages/core/src/overlay/overlay.ts:129-145 | in every run, safe or not, a deleted base file becomes visible again only by an edit that names it or writes over it, unless a directory's tombstone alone was hiding it, which no safe edit leads to |
| `EditRuns.LooseComesFrom` | packages/core/src/working-tree/mutation-service.ts:148-168 | a base file is left hidden without a tombstone of its own only by deleting a directory whose walk passes the file by, because the overlay has a file above it or a marker in its place |
| `Limits.DeletionComesUndone` | packages/core/src/working-tree/mutation-service.ts:148-168 | a concrete run in which a deleted base file hidden that way comes back by an edit that does not name it |
| `EditRuns.StepIsSound` | packages/core/src/working-tree/mutation-service.ts:24-113 | every successful edit and publication, whatever it does to the kinds, leaves the base a tree and no overlay file under a tombstone, as long as the new base is a tree |
| `EditRuns.RunIsSound` | packages/core/src/working-tree/mutation-service.ts:24-113 | the same of every state of every run |
| `EditRuns.PublicationsAreInvisible` | packages/core/src/working-tree/published-revision.ts:10-47 | in every run, safe or not, no publication changes a visible byte, and each leaves exactly the unchosen changes |
| `EditRuns.EditsStayLocal` | packages/core/src/working-tree/mutation-service.ts:24-113 | in every run, safe or not, an edit changes visible files at and below the paths it names only, and a written file reads back |
| `WorkingTrees.WorkingTree.WriteFile` | packages/core/src/working-tree/mutation-service.ts:24-51 | the in-place edit ends in the specified overlay, or fails with the same error code and changes nothing |
| `WorkingTrees.WorkingTree.CreateDirectory` | packages/core/src/working-tree/mutation-service.ts:53-62 | the same for directories |
| `WorkingTrees.WorkingTree.DeleteListed` | packages/core/src/working-tree/mutation-service.ts:160-167 | the loop over the listing tombstones exactly the listed base files |
| `WorkingTrees.WorkingTree.Delete` | packages/core/src/working-tree/mutation-service.ts:148-179 | succeeds exactly when allowed; a refused deletion changes nothing |
| `WorkingTrees.WorkingTree.PlantTarget` | packages/core/src/working-tree/mutation-service.ts:128-140 | the two planting loops reach the closed form whatever the order of the listing |
| `WorkingTrees.WorkingTree.RenameDirectoryInternal` | packages/core/src/working-tree/mutation-service.ts:122-146 | reads, planting, deletion and records in order give the specified state |
| `WorkingTrees.WorkingTree.Rename` | packages/core/src/working-tree/mutation-service.ts:68-95 | succeeds exactly when its checks pass and the source survives the overwrite; refused checks change nothing |
| `WorkingTrees.WorkingTree.Revert` | packages/core/src/working-tree/mutation-service.ts:97-109 | the in-place revert is the specified one |
| `WorkingTrees.RebaseOverlayAfterPartialPublish` | packages/core/src/working-tree/published-revision.ts:10-47 | the four loops, changing the overlay they iterate, give the specified rebase or the first lookup error |
| `WorkingTrees.WorkingTree.AcceptPublishedRevision` | packages/core/src/working-tree/working-tree.ts:162-165 | the base moves and the overlay is empty |
| `WorkingTrees.WorkingTree.AcceptPartiallyPublishedRevision` | packages/core/src/working-tree/working-tree.ts:167-172 | base and overlay move together, or neither does |
| `WorkingTrees.WorkingTree.RebindCleanBase` | packages/core/src/working-tree/working-tree.ts:174-179 | only a clean tree moves to another base |
| `ChangeSets.ChangeMeaning` | packages/core/src/working-tree/change-set.ts:72-121 | in every state that edits reach, a path has an add, modify or delete exactly as its base bytes and its visible bytes differ |
| `ChangeSets.PublishAll` | packages/core/src/working-tree/change-set.ts:72-121 | in every state that edits reach, applying all changes to the base gives the visible map |
| `ChangeSets.PublishedIsTreeIff` | packages/core/src/working-tree/change-set.ts:72-121 | publishing a chosen part gives a tree if and only if no chosen overlay file stands above or below another file of the result |
| `CommitChanges.GetWorkingTreeChanges` | packages/core/src/working-tree/change-set.ts:8-40 | the loops list each change once: records, then files no record names, then deletions |
| `CommitChanges.WorkingChangeMeaning` | packages/core/src/working-tree/change-set.ts:8-40 | what is listed for a path, in terms of base bytes, visible bytes and the records: a deletion unless a record begins there, the last record that ends there, an addition or a modification without one |
| `CommitChanges.SelectionClosesOverRenames` | packages/core/src/working-tree/change-set.ts:50-66 | a selection carries the selected changes, the sources of the selected renames, and no more |
| `CommitChanges.BuildCommitChanges` | packages/core/src/working-tree/change-set.ts:42-70 | exactly the changes of the paths the selection closes over, each once |
| `CommitChanges.RenamesAreSelectedWhole` | packages/core/src/working-tree/change-set.ts:50-66 | a selected rename is published with both its ends |
| `CommitChanges.RenameSourceNeedsTarget` | packages/core/src/working-tree/change-set.ts:50-66 | the deletion a rename leaves behind is never published without the rename |
| `FixtureFiles.ApplyChanges` | packages/adapter-fixture/src/files.ts:5-41 | accepts exactly the lists without duplicates whose adds are absent and whose modifies and deletes are present, and applies them |
| `FixtureFiles.AcceptableIff` | packages/adapter-fixture/src/files.ts:5-34 | the changes that fit are exactly those with distinct paths, none the root, that add what the files before all of them lack and change or delete what they have |
| `FixtureFiles.StoredIff` | packages/adapter-fixture/src/files.ts:5-34 | each accepted change leaves its own bytes, or nothing, at its path |
| `FixtureFiles.PublicationIsAccepted` | packages/adapter-fixture/src/files.ts:5-41 | in every state that edits reach, the changes of any chosen part fit the base in any order and give the base with those changes; the remote's last check refuses them if and only if a file would become the parent directory of another |
| `FixtureFiles.TreesAreAccepted` | packages/adapter-fixture/src/files.ts:36-41 | a revision that would be a tree is never refused; while kinds are stable every publication gives a tree |
| `Limits.ReplacementAloneIsRefused` | packages/adapter-fixture/src/files.ts:36-41 | a concrete file written over a deleted base directory whose publication without the deletion is refused |
| `Limits.ReplacementStoresNoTree` | packages/adapter-fixture/src/files.ts:36-41 | with the deleted base file one level further down the same publication is accepted, and what is stored is no tree |
| `FixtureFiles.PublishEverything` | packages/core/src/working-tree/working-tree.ts:162-165 | publishing everything stores the visible map, and clearing the overlay shows the same files; it is accepted when they form a tree, as they do while kinds are stable |
| `Rebases.RebaseShowsTheSame` | packages/core/src/working-tree/published-revision.ts:10-47 | in every state that edits reach and for every chosen part whose publication is a tree, the rebased overlay shows the same bytes at every path |
| `Rebases.RebaseRestOfChanges` | packages/core/src/working-tree/published-revision.ts:10-47 | under the same conditions the remaining change set is exactly the unchosen changes |
| `Rebases.RebaseIsIdempotent` | packages/core/src/working-tree/published-revision.ts:10-47 | rebasing again onto the same revision changes nothing, for any overlay and revision |
| `Rebases.RebaseIsWellFormed` | packages/core/src/working-tree/published-revision.ts:10-47 | the invariant survives the rebase |
| `Rebases.RebaseIsSound` | packages/core/src/working-tree/published-revision.ts:10-47 | no overlay file lies under a tombstone after the rebase either, whatever the kinds |
| `Rebases.KeptFiles` | packages/core/src/working-tree/published-revision.ts:15-25 | the overlay files left are exactly the unchosen ones that differ from the base |
| `Rebases.KeptMarkers` | packages/core/src/working-tree/published-revision.ts:27-32 | the markers left are exactly those of directories the revision does not have |
| `Rebases.KeptRecords` | packages/core/src/working-tree/published-revision.ts:39-46 | a record is dropped exactly when the revision has nothing at its source and something at its target |
| `Rebases.PublishedRenameGoes` | packages/core/src/working-tree/published-revision.ts:39-46 | the record of a renamed base file goes with the publication of both its ends, and stays when neither is published |
| `Rebases.RebaseKeepsParentsIff` | packages/core/src/working-tree/published-revision.ts:10-47 | parents stay present if and only if no unchosen addition and no marker stands below a directory that the chosen deletions empty, a condition on base, overlay and selection alone |
| `Rebases.RebaseSucceedsIff` | packages/core/src/working-tree/published-revision.ts:10-47 | the rebase onto a published tree fails if and only if a tombstone, a marker, an overlay file or an end of a rename record lies directly below a file of it, a condition on base, overlay and selection |
| `Rebases.TryRebaseIff` | packages/core/src/working-tree/published-revision.ts:10-47 | the same for any overlay and any revision that is a tree |
| `Rebases.OnlyRecordsStopRebase` | packages/core/src/working-tree/published-revision.ts:39-46 | while kinds are stable only an end of a rename record can do that |
| `Rebases.PublishedKinds` | packages/core/src/working-tree/published-revision.ts:10-47 | the published revision is a tree whose kinds agree with the rebased overlay |
| `Rebases.RebaseAfterFullPublication` | packages/core/src/workspace/workspace.ts:566-571 | recovering a full publication leaves no overlay file or tombstone and shows the same files as the direct path |
| `Limits.PublishingOrphans` | packages/core/src/working-tree/published-revision.ts:10-47 | a concrete partial publication after which an overlay file has no parent directory |
| `Limits.RenameLosesOrphan` | packages/core/src/working-tree/mutation-service.ts:122-146 | renaming the directory above that file loses its bytes at both ends |
| `Limits.RebaseIsStuck` | packages/core/src/working-tree/published-revision.ts:39-46 | a concrete leftover rename record that makes the rebase after a publication fail |
| `Limits.StuckIsReached` | packages/core/src/working-tree/published-revision.ts:39-46 | that state is the end of a concrete run of safe edits and one partial publication |
| `Limits.ReplacementIsStuck` | packages/core/src/working-tree/published-revision.ts:31-38 | a file written over a deleted base directory, published with the deletion: the remote stores the file alone, and the tombstone below it makes every rebase fail, without any rename record |
| `Limits.ReplacedIsReached` | packages/core/src/working-tree/mutation-service.ts:24-65 | those states are the end of a run of two edits |
| `CommitEngine.TrimMeaning` | packages/core/src/commit/commit-service.ts:115-118 | trimming a message cuts off exactly the blanks at its ends |
| `CommitEngine.FixtureCommitEngine.Execute` | packages/adapter-fixture/src/commit-engine.ts:20-65 | a request succeeds if and only if its message is not blank, it has changes or amends, branch and base exist, the head is the one it is a lease on, an amend is a lease on the revision it replaces, and the changes apply; it then stores one new revision and moves that one head; otherwise nothing changes |
| `CommitService.Execute` | packages/core/src/commit/commit-service.ts:98-166 | from tree to remote, in every state that edits reach: the carried changes are refused for what they are only when a file would become the parent of another; a success moves the expected head to a new revision with the right parents that holds the base with exactly those changes published; no request is sent only for a blank message, for no changes, or beyond the traversal budget |
| `Journal.StepKeeps` | packages/core/src/workspace/workspace.ts:430-496 | every step of edits that may change kinds, refreshes, saves that fail or get half way, publications, requests that land late while their journal is still there, other clients, a lost pointer, crashes, reopening and resolution keeps the invariant |
| `Journal.RunKeeps` | packages/core/src/workspace/workspace.ts:67-90 | the invariant holds in every world reachable from a storage that holds nothing |
| `Journal.ReopenShowsLastAcknowledged` | packages/core/src/workspace/workspace.ts:538-577 | reopening shows the files of the last acknowledged operation or of the one a crash cut short; with nothing stored, which means nothing acknowledged, the current head; with no primary pointer, possibly the last half-way save; an unproven publication leaves the snapshot as it was |
| `Journal.HalfSaveLoadsIff` | packages/vscode/src/persistence/storage-uri-workspace-storage.ts:257-263 | a save that stopped between the two pointers is what loads next exactly when the primary did not hold |
| `Journal.RolledBackEditReturns` | packages/core/src/workspace/workspace.ts:507-522 | a concrete run in which an edit is rolled back in the session and there again after a restart |
| `Journal.UnsavedCheckoutMoves` | packages/core/src/workspace/workspace.ts:67-90 | a concrete run in which a restart before the first save follows the remote head |
| `Journal.UnprovenBlocks` | packages/core/src/workspace/workspace.ts:416-428 | while an outcome is unproven nothing but its resolution changes base, overlay or journal, no request is sent, and only the one already sent can land; saving again may replace the durable journal by the one in memory |
| `Journal.RequestsAreJournaled` | packages/core/src/workspace/workspace.ts:443-458 | whenever the remote lands or refuses a request, or its answer is lost, the prepared journal of that very request is durable, when it lands late too |
| `Journal.RequestsBuildOnTheLastLanding` | packages/core/src/workspace/workspace.ts:437-474 | every request is built on the last landing of this workspace or on a later head, when it is sent and when it lands |
| `Journal.SinceIsLandingAndLater` | packages/core/src/workspace/branch-service.ts:33-48 | the revisions so named are exactly the newest landing, or the first head, and the heads after it |
| `Journal.LandingsDiffer` | packages/adapter-fixture/src/commit-engine.ts:29-65 | two landed publications of one workspace never share an expected head |
| `Journal.LandedIsNeverForgotten` | packages/core/src/workspace/workspace.ts:538-577 | every tree that can be edited has the last landing, or a later head, as base, refreshes included |
| `Journal.RecoveredIsTruthful` | packages/core/src/workspace/workspace.ts:538-577 | recovery shows what the durable snapshot shows and clears the journal only on a proven outcome |
| `Journal.RecoveryClearsIff` | packages/core/src/workspace/workspace.ts:538-577 | recovery clears the journal if and only if the head is still the expected one, or the published revision can be read and nothing the rebase asks for lies directly below a file of it; a known publication is then the base, and otherwise the image is what was stored |
| `Journal.ReopenSettlesIff` | packages/core/src/workspace/workspace.ts:67-90 | in every run a workspace that comes back with a known publication can be edited again, with that revision as base, under exactly that condition |
| `Journal.ReconciliationClearsIff` | packages/core/src/workspace/workspace.ts:459-474 | after an answered publication the base moves if and only if it was whole or the revision can be read and rebased onto |
| `Journal.LateLandingIsKnownIff` | packages/core/src/workspace/workspace.ts:548-564 | a request that was on its way when the workspace was reopened, and lands after recovery, is known to it exactly when recovery could not read the head |
| `Workspaces.PathKeeps` | packages/core/src/workspace/workspace.ts:437-496 | the methods below, being paths of the machine, keep the machine's invariant |
| `Workspaces.RemotishWorkspace.Mutate` | packages/core/src/workspace/workspace.ts:430-435 | whatever the edit does to the kinds, a failed edit or save leaves memory alone, and what loads as well while the primary pointer holds; success is durable; refused while a publication is pending |
| `Workspaces.RemotishWorkspace.RefreshRemoteHead` | packages/core/src/workspace/workspace.ts:277-285 | only a clean tree moves to the head, durably, or stays where it was |
| `Workspaces.RemotishWorkspace.PersistNow` | packages/core/src/workspace/workspace.ts:331-333 | what is in memory is saved, journal and all, even while a publication is pending |
| `Workspaces.RemotishWorkspace.MutateCommit` | packages/core/src/workspace/workspace.ts:437-496 | journal, request, journal, reconciliation and save, at every outcome of each, are a path of the machine; after an answer the journal is cleared exactly when the publication was whole or can be rebased onto; without an answer or a rejection something has failed |
| `Workspaces.RemotishWorkspace.BeforePublish` | packages/core/src/workspace/workspace.ts:443-458 | the request goes out only once the prepared journal is saved; a failed save withdraws it |
| `Workspaces.RemotishWorkspace.RequestPublication` | packages/core/src/commit/commit-service.ts:161-166 | a throw keeps the journal, a rejection clears it, an answer names the landed revision |
| `Workspaces.RemotishWorkspace.AfterPublish` | packages/core/src/workspace/workspace.ts:459-474 | the landed revision is in the journal of this session even when the save fails |
| `Workspaces.RemotishWorkspace.Settle` | packages/core/src/commit/commit-service.ts:168-185 | the tree moves and the journal is cleared together, or the journal stays |
| `Workspaces.RemotishWorkspace.Open` | packages/core/src/workspace/workspace.ts:67-90 | the session shows what is stored, and the last acknowledged files while the primary pointer holds; with nothing stored it is a checkout of the head that is not saved; the journal is cleared exactly when its outcome is proven, and what recovery changes is saved unless the storage fails |
| `Workspaces.RemotishWorkspace.Resolve` | packages/core/src/workspace/workspace.ts:341-394 | whatever the caller says is taken over and saved, or nothing changes in memory; the state stays truthful when the caller is right |
| `Branches.BranchWorkspaces.Snapshot` | packages/core/src/workspace/branch-workspaces.ts:94-101 | every branch's base, files, markers, tombstones and records, by value |
| `Branches.BranchWorkspaces.Restore` | packages/core/src/workspace/branch-workspaces.ts:103-112 | restoring a snapshot gives it back whole, in new objects that no old reference reaches |
| `Branches.BranchWorkspaces.SwitchTo` | packages/core/src/workspace/branch-workspaces.ts:72-75 | a first visit opens the branch at the remote head; a failed one changes nothing; no other branch changes |
| `Branches.BranchWorkspaces.Refresh` | packages/core/src/workspace/branch-service.ts:33-48 | only a clean selected branch moves to the remote head |
| `Branches.BranchWorkspaces.Perform` | packages/core/src/workspace/workspace.ts:256-285 | each operation changes the selected branch as specified, or fails |
| `Branches.LocalWorkspace.Mutate` | packages/core/src/workspace/workspace.ts:507-522 | an operation that fails anywhere, in the edit or in the save, leaves every branch and the selection as they were, and what loads as well while the primary pointer holds; one that is allowed fails only when the save does |
| `Branches.LocalWorkspace.BeforePublish` | packages/core/src/workspace/workspace.ts:443-458 | the journal names the selected branch, in memory and as it loads |
| `Branches.LocalWorkspace.AfterPublish` | packages/core/src/workspace/workspace.ts:459-474 | the recorded revision is for the same branch |
| `Branches.LocalWorkspace.Settle` | packages/core/src/commit/commit-service.ts:168-185 | tree and journal move together exactly when the publication was whole or can be read and rebased onto, or stay; whatever it comes to is saved unless the storage fails |
| `Branches.LocalWorkspace.Reject` | packages/core/src/workspace/workspace.ts:490-493 | a rejected request clears the journal in memory whatever the save does |
| `Branches.LocalWorkspace.Recover` | packages/core/src/workspace/workspace.ts:538-577 | a stored publication is settled if and only if the head is still the expected one, or the revision can be read and rebased onto; it then settles the selected branch only and is saved unless the storage fails |
| `Branches.LocalWorkspace.Resolve` | packages/core/src/workspace/workspace.ts:341-394 | the resolution is taken over and loads, or every branch is as it was |
| `Branches.LocalWorkspace.Open` | packages/core/src/workspace/workspace.ts:67-90 | opening gives back exactly the stored snapshot, or a checkout of the default branch |
| `Branches.LocalWorkspace.SaveSnapshot` | packages/core/src/workspace/workspace.ts:583-591 | every snapshot any of these methods saves is accepted by the decoder and loads back whole |
| `Branches.LocalWorkspace.DeleteBranch` | packages/core/src/workspace/workspace.ts:298-329 | a refused deletion leaves memory alone, and the disk at worst without a clean, unselected branch; dirty branches are never removed |
| `Branches.LocalWorkspace.CreateBranch` | packages/core/src/workspace/workspace.ts:287-296 | the remote's new branch is kept whatever happens to the save, and replaces a local workspace of that name |
| `Branches.OtherBranchesStay` | packages/core/src/workspace/workspace.ts:430-435 | no local operation changes a branch that is not selected |
| `Branches.LoadedReaches` | packages/vscode/src/persistence/workspace-persistence-schema.ts:101-107 | whatever loads has its selected branch, and a pending publication names that branch |
| `Storage.LoadsExactly` | packages/vscode/src/persistence/storage-uri-workspace-codec.ts:37-82 | what loads under the name of a snapshot's generation is that snapshot, on any disk |
| `Storage.LoadsAsIff` | packages/vscode/src/persistence/storage-uri-workspace-storage.ts:51-81 | nothing loads exactly when neither pointer exists; a generation loads exactly when it is complete and the first pointer that holds names it, or names it as previous of one that is not |
| `Storage.LoadIsDetermined` | packages/vscode/src/persistence/storage-uri-workspace-storage.ts:175-207 | the name of a generation determines what it loads |
| `Storage.InterruptedSaveLoadsOldOrNew` | packages/vscode/src/persistence/storage-uri-workspace-storage.ts:81-111 | a disk left by a save that stopped anywhere loads exactly the old or exactly the new snapshot |
| `Storage.DamageFallsBack` | packages/vscode/src/persistence/storage-uri-workspace-storage.ts:49-79 | with the newest generation damaged in any way the previous one loads; the newest loads exactly when it is complete |
| `Storage.DamageBringsBack` | packages/vscode/src/persistence/storage-uri-workspace-storage.ts:57-71 | on every disk with the pointer of that save, if the files of the new generation are damaged and those of the previous one are not, what loaded before the save loads again |
| `Storage.ShrinkKeeps` | packages/vscode/src/persistence/storage-uri-workspace-storage.ts:285-336 | deleting only what no retained generation needs changes no load |
| `Storage.StorageUriWorkspaceStorage.Save` | packages/vscode/src/persistence/storage-uri-workspace-storage.ts:81-111 | every disk a crash can leave loads the old or the new snapshot; a completed save loads back exactly, keeps as previous generation the one last known to load, else the one that loaded before, if it is another, and has deleted everything else unless a file operation failed; a failed save means one did |
| `Storage.StorageUriWorkspaceStorage.WritePointer` | packages/vscode/src/persistence/storage-uri-workspace-storage.ts:257-283 | the backup is replaced before the primary pointer, each by one rename; what a failure between them leaves loading is exact |
| `Storage.BackupAloneLoadsIff` | packages/vscode/src/persistence/storage-uri-workspace-storage.ts:229-283 | with the backup alone replaced the new generation loads exactly when the primary pointer does not hold |
| `Storage.StorageUriWorkspaceStorage.GarbageCollect` | packages/vscode/src/persistence/storage-uri-workspace-storage.ts:285-336 | after every single deletion the same snapshot loads |
| `Storage.StorageUriWorkspaceStorage.Load` | packages/vscode/src/persistence/storage-uri-workspace-storage.ts:49-79 | returns the current generation, or the previous one when the current does not check out, and repairs the pointer without changing what loads |
| `Timeline.Load` | packages/vscode-history/src/timeline-query-service.ts:32-142 | each page is the next part of the scan from the cursor, if it belongs to this base revision, and else from the start, up to the limit or 250 scanned commits, with a cursor to the exact rest |
| `Timeline.NextCursorForPage` | packages/vscode-history/src/timeline-query-service.ts:145-163 | the cursor after a page leaves exactly the unread commits, and none is given when there are none |
| `Timeline.PagingIsTransparent` | packages/vscode-history/src/timeline-query-service.ts:32-163 | pages loaded one after the other, each with the cursor the one before returned, are together the scan from the first cursor, in order and once each, in bounded number |
| `Timeline.TimelineIsWholeScan` | packages/vscode-history/src/timeline-query-service.ts:32-163 | without a cursor, or with one of another base revision, they are the scan of the whole history |
| `Timeline.ScanFindsExactly` | packages/vscode-history/src/timeline-query-service.ts:88-112 | an entry is in the scan exactly when its commit changes the file under the name it had then, renames followed backwards to the adding commit, and is recent enough |
| `Timeline.ScanInOrder` | packages/vscode-history/src/timeline-query-service.ts:40-130 | the entries stand in the order of their commits, one for each such commit |
| `Timeline.HistoryIsAllPages` | packages/vscode-history/src/timeline-query-service.ts:40-130 | the history is the adapter's pages before the first empty one, joined |
| `RevisionCaches.RevisionCache.GetEntry` | packages/core/src/repository/revision-cache.ts:94-103 | a hit returns the last value set for the key and makes the entry the newest |
| `RevisionCaches.RevisionCache.SetEntry` | packages/core/src/repository/revision-cache.ts:105-119 | retained bytes equal the sum of weights within both budgets; exactly as many oldest entries go as have to; the new entry stays |
| `RevisionCaches.RevisionCache.EvictToBudget` | packages/core/src/repository/revision-cache.ts:121-133 | the loop ends with the smallest oldest prefix removed |
| `RevisionCaches.NewestIsKept` | packages/core/src/repository/revision-cache.ts:105-133 | an eviction never reaches the entry just inserted |
| `RevisionCaches.DroppedAreOldest` | packages/core/src/repository/revision-cache.ts:94-133 | everything evicted was used longer ago than everything kept |
| `RevisionCaches.KeyIsInjective` | packages/core/src/repository/revision-cache.ts:136-138 | two reads share a key only if they are the same read, for revisions without a NUL character |
| `RevisionCaches.WeightIsAdditive` | packages/core/src/repository/revision-cache.ts:144-150 | a cached listing is charged 64 bytes and 96 for each entry with two for each character of its name and path |
| `RpcEndpoints.OrderlyIffStepwise` | extensions/browser-rpc-provider/src/transport/userscript.ts:223-303 | at-most-once start, at-most-once answer and the effect of cancels hold of a log exactly when each action may follow the ones before it |
| `RpcEndpoints.BrowserRpcUserscriptEndpoint.Receive` | extensions/browser-rpc-provider/src/transport/userscript.ts:214-245 | any sequence of frames keeps those promises and the bounds; frames for others and from unknown hosts change nothing |
| `RpcEndpoints.BrowserRpcUserscriptEndpoint.HandleRequest` | extensions/browser-rpc-provider/src/transport/userscript.ts:247-270 | the handler starts exactly for an unseen, well-formed request with room for it; a repeated one is ignored |
| `RpcEndpoints.BrowserRpcUserscriptEndpoint.CancelRequest` | extensions/browser-rpc-provider/src/transport/userscript.ts:228-238 | after a processed cancel the handler never starts, even when the seen set is full, and never answers |
| `RpcEndpoints.BrowserRpcUserscriptEndpoint.Settle` | extensions/browser-rpc-provider/src/transport/userscript.ts:271-303 | an answer goes out exactly when the request still runs, was not aborted, and the endpoint is alive |
| `RpcEndpoints.BrowserRpcUserscriptEndpoint.Announce` | extensions/browser-rpc-provider/src/transport/userscript.ts:193-212 | a known host, or a new one when there is room after the stale ones are dropped, is answered with its next counter and kept; others are not |
| `RpcHosts.OrderlyIffStepwise` | extensions/browser-rpc-provider/src/transport/host.ts:124-305 | three promises about a whole log (an endpoint registers at most once and never after a disconnect that overtook it; a request is sent once, to a registered endpoint; it settles at most once, after it was sent, and with a response only of the endpoint it was sent to) are together exactly that each action may follow the ones before it |
| `RpcHosts.BrowserRpcHostTransport.Register` | extensions/browser-rpc-provider/src/transport/host.ts:158-204 | a registration is renewed, admitted, refused, or ends a session that changed its claim |
| `RpcHosts.BrowserRpcHostTransport.HearDisconnect` | extensions/browser-rpc-provider/src/transport/host.ts:124-136 | a newer disconnect ends a session; one without a session is remembered |
| `RpcHosts.BrowserRpcHostTransport.Heartbeat` | extensions/browser-rpc-provider/src/transport/host.ts:116-123 | only a newer heartbeat of a live session renews it |
| `RpcHosts.BrowserRpcHostTransport.HearResponse` | extensions/browser-rpc-provider/src/transport/host.ts:137-150 | settles exactly the pending request of that endpoint |
| `RpcHosts.BrowserRpcHostTransport.Request` | extensions/browser-rpc-provider/src/transport/host.ts:220-235 | accepted exactly when the endpoint is live and there is room |
| `RpcHosts.BrowserRpcHostTransport.Disconnect` | extensions/browser-rpc-provider/src/transport/host.ts:206-218 | fails exactly the requests that wait for the endpoint |
| `RpcHosts.BrowserRpcHostTransport.Sweep` | extensions/browser-rpc-provider/src/transport/host.ts:74-86 | ends exactly the sessions that are stale and that no request waits for |
| `RpcHosts.BrowserRpcHostTransport.Dispose` | extensions/browser-rpc-provider/src/transport/host.ts:88-100 | leaves nothing pending |
| `Mailboxes.ChunksRejoin` | extensions/browser-rpc-provider/src/transport/gm-mailbox.ts:81-87 | reassembly is the inverse of chunking at every length and chunk size, and no chunk is too long |
| `Mailboxes.SentManifestsAreAccepted` | extensions/browser-rpc-provider/src/transport/gm-mailbox.ts:191-210 | the manifest of a packet is accepted exactly when the packet is within the limit |
| `Mailboxes.BrokenPassesIffEmpty` | extensions/browser-rpc-provider/src/transport/gm-mailbox.ts:146-157 | a message with a chunk gone passes the length check exactly when its packet is empty |
| `Mailboxes.GmMailbox.Poll` | extensions/browser-rpc-provider/src/transport/gm-mailbox.ts:101-165 | with other tabs writing and deleting at every wait, and any storage access throwing, only whole packets are delivered, as they were sent, and no non-empty packet twice; a poll that completes has delivered every intact message it had not seen, up to 1024 of them |
| `Mailboxes.GmMailbox.DeliverOne` | extensions/browser-rpc-provider/src/transport/gm-mailbox.ts:137-161 | a message is delivered unless it was incomplete or damaged by the end of the reading |
| `Mailboxes.GmMailbox.ForgetOld` | extensions/browser-rpc-provider/src/transport/gm-mailbox.ts:108-112 | a seen id is forgotten only when it is so old that a poll, this one or a later one, deletes its manifest before it delivers anything |
| `Mailboxes.GmMailbox.DeleteIfOld` | extensions/browser-rpc-provider/src/transport/gm-mailbox.ts:113-126 | deleting old keys one by one never makes a delivered packet deliverable again |
| `Mailboxes.GmMailbox.ReadChunks` | extensions/browser-rpc-provider/src/transport/gm-mailbox.ts:146-155 | with a chunk missing nothing is assembled; otherwise the packet of the sender is |
| `Mailboxes.GmMailbox.Send` | extensions/browser-rpc-provider/src/transport/gm-mailbox.ts:55-98 | the manifest comes after all chunks, so a send that stops or throws early, or a poll in between, delivers nothing partial; a finished send leaves the whole message posted and its id among the seen ones |

## Left out

- EditRuns.RunRefines: the flat map is followed up to the first step that breaks the invariant; after it `EditRuns.EditsStayLocal`, `EditRuns.PublicationsAreInvisible` and `EditRuns.DeletionsStay` hold, but what an edit does inside its own subtree is not stated, a written file aside.
- WorkingTrees.WorkingTree.Rename: when the move gives a base path another kind, success is not characterised, because the listing of the source may then fail; what a success leaves visible is in `RenamePaths.RenameRefines`.
- Journal.LandingsDiffer: rests on heads that never return to an old revision, and on other clients publishing new revisions only.
- Journal.RecoveredIsTruthful: a request still on its way may land after a crash or a reopening only while its journal is on both pointers and, if the workspace is open, in memory; one that lands after recovery or the user has cleared the journal is `Journal.LateLandingIsKnownIff`. `Journal.RequestsBuildOnTheLastLanding` and `Journal.LandedIsNeverForgotten` depend on this too.
- Journal.StepKeeps: one branch; switching, creating and deleting branches are in `Branches`.
- Workspaces.RemotishWorkspace.Mutate: the outcome of the edit is an argument and the overlay a value; `Branches.LocalWorkspace.Mutate` runs the edits on the objects.
- Workspaces.RemotishWorkspace.MutateCommit: the request is an argument; `CommitService.Execute` builds it from the tree. Author and capability checks of a commit are not modelled.
- Workspaces.RemotishWorkspace.Resolve: nothing is claimed of later steps when the caller's word about the outcome is wrong.
- Storage.StorageUriWorkspaceStorage.Save: torn writes, and saving again over a corrupted blob whose name is trusted, are excluded. So is a disk whose newest generation is damaged and whose pointer could not be repaired: there a save may first complete the damaged generation, which then loads again.
- Branches.LocalWorkspace.Settle: that the revision is the one the remote stored is a matter of `Journal`.
- Timeline.Load: cancellation, which returns early without a cursor, is left out, as are commits the adapter fails to answer for. A cursor's text form is a value.
- RevisionCaches.RevisionCache.GetFile: the copies that keep callers from changing cached bytes are implicit in values; byte budgets are whole numbers.
- RpcEndpoints.BrowserRpcUserscriptEndpoint.NextCounter: that counters grow is stated for one stay of a host; after 30 seconds of silence its counter starts again.
- Mailboxes.GmMailbox.Poll: a send that starts while a poll waits is not modelled; polls while a send waits are. When the next poll comes is not modelled.
- PathText.IsSameOrChildIsWithin: the string functions are stated on canonical strings; the program's normalize their arguments first, which changes nothing by `PathText.NormalizeIsIdempotent`.
- Sorting by locale, tooltips and other presentation; lists are compared as sets or up to order.
- How rename records are presented after a rebase; they take part in selection and in `RebaseSucceedsIff` only.
- Empty base directories, which no revision of this model has.
- Read coalescing, deadlines and the serial executor; operations of one workspace are atomic or explicit steps.
- GitHub, Bitbucket, HTTP and Git adapters, JSON field checks, encryption and URL parsing: plumbing, each settled by one branch.
- Commands, views, the file system provider and the broker that matches endpoints to origins: registration and user interface.
