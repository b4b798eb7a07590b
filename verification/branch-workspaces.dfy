/**
 One pinned base and one overlay for every visited branch, and local mutations that put all of them
 back when the edit or the save fails.
 */
module Branches {
  import opened Wrappers
  import opened Paths
  import opened Repository
  import opened Overlays
  import opened TreeView
  import opened Edits
  import opened Deletes
  import opened Reverts
  import opened RenamePaths
  import opened Rebases
  import opened WorkingTrees
  import opened Storage

  /** Every revision of the run with its files, which never change. */
  type Revisions = map<RevisionId, Files>

  function FilesAt(revisions: Revisions, revision: RevisionId): Files {
    if revision in revisions then revisions[revision] else map[]
  }

  ghost predicate AllTrees(revisions: Revisions) {
    forall revision | revision in revisions :: TreeShaped(revisions[revision])
  }

  datatype LocalOperation =
    | Write(path: Path, content: Bytes, create: bool, overwrite: bool)
    | MakeDirectory(path: Path)
    | Remove(path: Path, recursive: bool)
    | Move(from: Path, to: Path, overwrite: bool)
    | Undo(path: Path)
    | UndoAll
    | SwitchBranch(branch: BranchName)
    | RefreshRemoteHead
  {
    predicate EditsTree() {
      !SwitchBranch? && !RefreshRemoteHead?
    }

    /** `revert` and `revertAll` are the edits a read-only repository allows. */
    predicate NeedsWritable() {
      Write? || MakeDirectory? || Remove? || Move?
    }
  }

  /** What a listing of the remote's branches answers. */
  type Heads = Result<map<BranchName, RevisionId>>

  datatype ExpectedState = ExpectedState(branch: BranchName, baseRevision: RevisionId)

  // ---------------------------------------------------------------- what a successful operation does

  /** One overlay edited on its base. */
  ghost predicate Edited(base: Files, was: OverlaySnapshot, operation: LocalOperation, now: OverlaySnapshot)
    requires operation.EditsTree()
  {
    match operation
    case Write(path, content, create, overwrite) =>
      Edits.WriteFile(base, was, path, content, create, overwrite) == Ok(now)
    case MakeDirectory(path) => Edits.CreateDirectory(base, was, path) == Ok(now)
    case Remove(path, _) => path != ROOT && now == Deletes.Delete(base, was, path)
    case Move(from, to, overwrite) =>
      RenameChecks(base, was, from, to, overwrite).Ok? && RenamedTo(base, was, now, from, to)
    case Undo(path) => now == Reverts.Revert(was, path)
    case UndoAll => now == EMPTY
  }

  /** A switch opens a workspace at the branch's head the first time; a refresh moves a clean base. */
  ghost predicate Performed(
    revisions: Revisions, heads: Heads, was: WorkspaceSnapshot, operation: LocalOperation, now: WorkspaceSnapshot)
    requires was.selectedBranch in was.branches
  {
    var current := was.branches[was.selectedBranch];
    match operation
    case SwitchBranch(branch) =>
      if branch in was.branches then now == was.(selectedBranch := branch)
      else
        && heads.Ok? && branch in heads.value
        && var checkout := BranchSnapshot(heads.value[branch], EMPTY);
          now == was.(selectedBranch := branch, branches := was.branches[branch := checkout])
    case RefreshRemoteHead =>
      && heads.Ok? && was.selectedBranch in heads.value
      && var head := heads.value[was.selectedBranch];
      if current.overlay.IsEmpty()
      then now == was.(branches := was.branches[was.selectedBranch := current.(baseRevision := head)])
      else now == was
    case _ =>
      exists overlay ::
        && Edited(FilesAt(revisions, current.baseRevision), current.overlay, operation, overlay)
        && now == was.(branches := was.branches[was.selectedBranch := current.(overlay := overlay)])
  }

  /** When an edit must succeed: exactly when allowed for the simple ones, on sound states for the others. */
  ghost predicate Allowed(base: Files, was: OverlaySnapshot, operation: LocalOperation)
    requires operation.EditsTree()
  {
    match operation
    case Write(path, content, create, overwrite) => Edits.WriteFile(base, was, path, content, create, overwrite).Ok?
    case MakeDirectory(path) => Edits.CreateDirectory(base, was, path).Ok?
    case Remove(path, recursive) => path != ROOT && KindStable(base, was) && DeleteAllowed(base, was, path, recursive)
    case Move(from, to, overwrite) =>
      && WellFormed(base, was) && ParentsPresent(base, was) && RenameFits(base, was, from, to)
      && RenameAllowed(base, was, from, to, overwrite)
    case _ => true
  }

  /** When an operation on the branches must succeed. */
  ghost predicate Performable(revisions: Revisions, heads: Heads, was: WorkspaceSnapshot, operation: LocalOperation)
    requires was.selectedBranch in was.branches
  {
    var current := was.branches[was.selectedBranch];
    match operation
    case SwitchBranch(branch) => branch in was.branches || (heads.Ok? && branch in heads.value)
    case RefreshRemoteHead => heads.Ok? && was.selectedBranch in heads.value
    case _ => Allowed(FilesAt(revisions, current.baseRevision), current.overlay, operation)
  }

  /** Nothing that the rebase onto the revision asks for lies directly below a file of it. */
  ghost predicate Rebasable(revisions: Revisions, revision: RevisionId, overlay: OverlaySnapshot) {
    forall p | Asked(overlay, p) :: Readable(FilesAt(revisions, revision), p)
  }

  predicate Reaches(snapshot: WorkspaceSnapshot) {
    Selects(snapshot.selectedBranch, snapshot.branches.Keys, snapshot.pending)
  }

  /** No branch but the one operated on changes, whatever the operation. */
  lemma OtherBranchesStay(
    revisions: Revisions, heads: Heads, was: WorkspaceSnapshot, operation: LocalOperation, now: WorkspaceSnapshot,
    branch: BranchName)
    requires was.selectedBranch in was.branches && Performed(revisions, heads, was, operation, now)
    requires branch in was.branches && branch != was.selectedBranch
    ensures branch in now.branches && now.branches[branch] == was.branches[branch]
    ensures now.pending == was.pending
  {
  }

  /** Whatever loads passes the decoder's checks: the selected branch is there, and a publication names it. */
  lemma LoadedReaches(d: Disk)
    ensures LoadSnapshot(d).Some? ==> Reaches(LoadSnapshot(d).value)
  {
  }

  /** Edits one tree in place. A failed edit may leave the overlay half changed. */
  method EditTree(tree: WorkingTree, operation: LocalOperation) returns (r: Result<()>)
    requires operation.EditsTree() && TreeShaped(tree.base)
    modifies tree.overlay
    ensures r.Ok? ==> Edited(tree.base, old(tree.overlay.Snapshot()), operation, tree.overlay.Snapshot())
    ensures Allowed(tree.base, old(tree.overlay.Snapshot()), operation) ==> r.Ok?
  {
    match operation
    case Write(path, content, create, overwrite) => r := tree.WriteFile(path, content, create, overwrite);
    case MakeDirectory(path) => r := tree.CreateDirectory(path);
    case Remove(path, recursive) => r := tree.Delete(path, recursive);
    case Move(from, to, overwrite) => r := tree.Rename(from, to, overwrite);
    case Undo(path) =>
      tree.Revert(path);
      r := Ok(());
    case UndoAll =>
      tree.RevertAll();
      r := Ok(());
  }

  lemma Updated(before: map<BranchName, BranchSnapshot>, branch: BranchName, value: BranchSnapshot,
      after: map<BranchName, BranchSnapshot>)
    requires after.Keys == before.Keys + {branch} && after[branch] == value
    requires forall b | b in before && b != branch :: after[b] == before[b]
    ensures after == before[branch := value]
  {
  }

  class BranchWorkspaces {
    /** What reading a revision answers; revisions are immutable. */
    const revisions: Revisions
    var workspaces: map<BranchName, WorkingTree>
    var selectedBranch: BranchName
    /** The trees and their overlays. */
    ghost var Repr: set<object>

    constructor (all: Revisions)
      requires AllTrees(all)
      ensures Separate()
      ensures revisions == all && workspaces == map[] && Repr == {}
    {
      revisions := all;
      workspaces := map[];
      selectedBranch := "";
      Repr := {};
    }

    /** The overlays, and so the trees, are separate objects, and each reads the files of its base revision. */
    ghost predicate Valid()
      reads this, Repr
    {
      && this !in Repr
      && selectedBranch in workspaces
      && Separate()
    }

    /** Nothing here reads which branch is selected. */
    ghost predicate Separate()
      reads this`workspaces, this`Repr, Repr
    {
      && this !in Repr
      && (forall b | b in workspaces :: workspaces[b] in Repr && workspaces[b].overlay in Repr)
      && (forall b | b in workspaces :: workspaces[b].base == FilesAt(revisions, workspaces[b].baseRevision))
      && (forall b, c | b in workspaces && c in workspaces && b != c ::
            workspaces[b].overlay != workspaces[c].overlay)
      && AllTrees(revisions)
    }

    function BranchValue(branch: BranchName): BranchSnapshot
      requires branch in workspaces
      reads this`workspaces, workspaces[branch], workspaces[branch].overlay
    {
      BranchSnapshot(workspaces[branch].baseRevision, workspaces[branch].overlay.Snapshot())
    }

    ghost function Branches(): map<BranchName, BranchSnapshot>
      requires Separate()
      reads this`workspaces, this`Repr, Repr
    {
      map b | b in workspaces :: BranchValue(b)
    }

    method Snapshot(pending: Option<PendingPublication>) returns (snapshot: WorkspaceSnapshot)
      requires Separate()
      ensures snapshot == WorkspaceSnapshot(selectedBranch, Branches(), pending)
    {
      var branches: map<BranchName, BranchSnapshot> := map[];
      var left := workspaces.Keys;
      while left != {}
        invariant left <= workspaces.Keys
        invariant branches.Keys == workspaces.Keys - left
        invariant forall b | b in branches :: branches[b] == BranchValue(b)
      {
        var branch :| branch in left;
        branches := branches[branch := BranchValue(branch)];
        left := left - {branch};
      }
      assert branches == Branches();
      snapshot := WorkspaceSnapshot(selectedBranch, branches, pending);
    }

    /** `restore` builds new trees, so no change of an old one survives. */
    method Restore(snapshot: WorkspaceSnapshot)
      requires snapshot.selectedBranch in snapshot.branches && Separate()
      modifies this
      ensures Valid() && fresh(Repr)
      ensures selectedBranch == snapshot.selectedBranch && Branches() == snapshot.branches
    {
      hide BranchValue, Branches, Separate, AllTrees;
      Clear();
      var left := snapshot.branches.Keys;
      ghost var done: map<BranchName, BranchSnapshot> := map[];
      while left != {}
        invariant left <= snapshot.branches.Keys
        invariant Separate() && fresh(Repr)
        invariant Branches() == done && workspaces.Keys == done.Keys == snapshot.branches.Keys - left
        invariant forall b | b in done :: done[b] == snapshot.branches[b]
      {
        var branch :| branch in left;
        var saved := snapshot.branches[branch];
        Add(branch, saved.baseRevision, saved.overlay);
        done := done[branch := saved];
        left := left - {branch};
      }
      selectedBranch := snapshot.selectedBranch;
    }

    method Clear()
      requires Separate()
      modifies `workspaces, `Repr
      ensures Separate() && Branches() == map[] && workspaces == map[] && Repr == {}
    {
      workspaces := map[];
      Repr := {};
    }

    method Add(branch: BranchName, revision: RevisionId, overlay: OverlaySnapshot)
      requires Separate()
      modifies `workspaces, `Repr
      ensures Separate() && fresh(Repr - old(Repr)) && old(Repr) <= Repr
      ensures workspaces.Keys == old(workspaces).Keys + {branch}
      ensures Branches() == old(Branches())[branch := BranchSnapshot(revision, overlay)]
    {
      hide BranchValue, Branches, Separate, FilesAt;
      var tree := new WorkingTree(revision, FilesAt(revisions, revision), overlay);
      Attach(branch, tree);
    }

    method Attach(branch: BranchName, tree: WorkingTree)
      requires Separate() && tree.base == FilesAt(revisions, tree.baseRevision)
      requires tree.overlay !in Repr && this !in {tree, tree.overlay}
      modifies `workspaces, `Repr
      ensures Separate() && Repr == old(Repr) + {tree, tree.overlay}
      ensures workspaces.Keys == old(workspaces).Keys + {branch}
      ensures Branches() == old(Branches())[branch := BranchSnapshot(tree.baseRevision, tree.overlay.Snapshot())]
    {
      hide AllTrees;
      ghost var before := Branches();
      workspaces := workspaces[branch := tree];
      Repr := Repr + {tree, tree.overlay};
      assert Branches() == before[branch := BranchValue(branch)] by {
        assert Separate();
        Updated(before, branch, BranchValue(branch), Branches());
      }
    }

    method Remove(branch: BranchName)
      requires Valid() && branch != selectedBranch
      modifies `workspaces
      ensures Valid() && workspaces == old(workspaces) - {branch} && Repr == old(Repr)
      ensures Branches() == old(Branches()) - {branch}
    {
      workspaces := workspaces - {branch};
    }

    method HasChanges(branch: BranchName) returns (changed: bool)
      requires Separate()
      ensures changed <==> branch in Branches() && !Branches()[branch].overlay.IsEmpty()
    {
      changed := branch in workspaces && !workspaces[branch].overlay.Snapshot().IsEmpty();
    }

    method SwitchTo(branch: BranchName, heads: Heads) returns (r: Result<()>)
      requires Valid()
      modifies this
      ensures Valid() && fresh(Repr - old(Repr))
      ensures r.Err? <==> branch !in old(workspaces) && (heads.Err? || branch !in heads.value)
      ensures r.Err? ==> selectedBranch == old(selectedBranch) && Branches() == old(Branches())
      ensures r.Ok? ==> selectedBranch == branch
      ensures r.Ok? && branch in old(workspaces) ==> Branches() == old(Branches())
      ensures r.Ok? && branch !in old(workspaces) ==>
        Branches() == old(Branches())[branch := BranchSnapshot(heads.value[branch], EMPTY)]
    {
      hide Separate, BranchValue;
      if branch !in workspaces {
        if heads.Err? {
          return Err(heads.code);
        }
        if branch !in heads.value {
          return Err(NotFound);
        }
        Add(branch, heads.value[branch], EMPTY);
      }
      selectedBranch := branch;
      return Ok(());
    }

    /** `refresh`: a dirty branch stays pinned to its base. */
    method Refresh(heads: Heads) returns (r: Result<bool>)
      requires Valid()
      modifies Repr
      ensures Valid()
      ensures r.Err? <==> heads.Err? || selectedBranch !in heads.value
      ensures r.Err? ==> Branches() == old(Branches())
      ensures r.Ok? ==>
        var was := old(Branches())[selectedBranch];
        var head := heads.value[selectedBranch];
        && (r.value <==> was.overlay.IsEmpty() && was.baseRevision != head)
        && Branches() == old(Branches())[selectedBranch := if r.value then was.(baseRevision := head) else was]
    {
      if heads.Err? {
        return Err(heads.code);
      }
      if selectedBranch !in heads.value {
        return Err(NotFound);
      }
      var tree, head := workspaces[selectedBranch], heads.value[selectedBranch];
      if head == tree.baseRevision || !tree.overlay.Snapshot().IsEmpty() {
        return Ok(false);
      }
      ghost var before := Branches();
      var rebound := tree.RebindCleanBase(head, FilesAt(revisions, head));
      Updated(before, selectedBranch, before[selectedBranch].(baseRevision := head), Branches());
      return Ok(true);
    }

    /** Reports whether there is anything to save. */
    method Perform(operation: LocalOperation, heads: Heads) returns (r: Result<bool>)
      requires Valid()
      modifies this, Repr
      ensures Valid() && fresh(Repr - old(Repr))
      ensures r.Ok? ==>
        Performed(revisions, heads, WorkspaceSnapshot(old(selectedBranch), old(Branches()), None), operation,
                  WorkspaceSnapshot(selectedBranch, Branches(), None))
      ensures r == Ok(false) ==> selectedBranch == old(selectedBranch) && Branches() == old(Branches())
      ensures
        var was := WorkspaceSnapshot(old(selectedBranch), old(Branches()), None);
        Performable(revisions, heads, was, operation) ==> r.Ok?
    {
      hide Separate, BranchValue, Edited, Allowed;
      if operation.SwitchBranch? {
        var switched := SwitchTo(operation.branch, heads);
        return if switched.Ok? then Ok(true) else Err(switched.code);
      }
      if operation.RefreshRemoteHead? {
        r := Refresh(heads);
        return;
      }
      var edited := EditCurrent(operation);
      return if edited.Ok? then Ok(true) else Err(edited.code);
    }

    /** A whole publication: the selected tree is the published revision. */
    method AcceptWhole(revision: RevisionId)
      requires Valid()
      modifies Repr
      ensures Valid() && Branches() == old(Branches())[selectedBranch := BranchSnapshot(revision, EMPTY)]
    {
      var tree := workspaces[selectedBranch];
      ghost var before := Branches();
      tree.AcceptPublishedRevision(revision, FilesAt(revisions, revision));
      Updated(before, selectedBranch, BranchSnapshot(revision, EMPTY), Branches());
    }

    /** A partial publication: the selected overlay is rebased onto the revision, or nothing changes. */
    method AcceptPart(revision: RevisionId) returns (accepted: bool)
      requires Valid()
      modifies Repr
      ensures Valid()
      ensures accepted <==> Rebasable(revisions, revision, old(Branches())[selectedBranch].overlay)
      ensures Branches() ==
        if accepted then
          old(Branches())[selectedBranch :=
            BranchSnapshot(revision, Rebase(FilesAt(revisions, revision), old(Branches())[selectedBranch].overlay))]
        else old(Branches())
    {
      hide TryRebase, Rebase, AllTrees, FilesAt;
      var tree := workspaces[selectedBranch];
      ghost var before := Branches();
      TreesOf(revision);
      TryRebaseIff(FilesAt(revisions, revision), tree.overlay.Snapshot());
      var r := tree.AcceptPartiallyPublishedRevision(revision, FilesAt(revisions, revision));
      accepted := r.Ok?;
      if accepted {
        Updated(before, selectedBranch, BranchValue(selectedBranch), Branches());
      }
    }

    lemma TreesOf(revision: RevisionId)
      requires AllTrees(revisions)
      ensures TreeShaped(FilesAt(revisions, revision))
    {
    }

    method EditCurrent(operation: LocalOperation) returns (r: Result<()>)
      requires Valid() && operation.EditsTree()
      modifies Repr
      ensures Valid()
      ensures r.Ok? ==>
        var was := old(Branches())[selectedBranch];
        var now := workspaces[selectedBranch].overlay.Snapshot();
        && Edited(FilesAt(revisions, was.baseRevision), was.overlay, operation, now)
        && Branches() == old(Branches())[selectedBranch := was.(overlay := now)]
      ensures
        var was := old(Branches())[selectedBranch];
        Allowed(FilesAt(revisions, was.baseRevision), was.overlay, operation) ==> r.Ok?
    {
      r := EditTree(workspaces[selectedBranch], operation);
    }
  }

  datatype Resolution = NotPublished | PublishedRevision(revision: RevisionId)

  /** A workspace over its branches and its storage. */
  class LocalWorkspace {
    const branches: BranchWorkspaces
    const storage: StorageUriWorkspaceStorage
    const writable: bool
    var pending: Option<PendingPublication>

    ghost function View(): WorkspaceSnapshot
      requires branches.Separate()
      reads this, branches, branches.Repr
    {
      WorkspaceSnapshot(branches.selectedBranch, branches.Branches(), pending)
    }

    /** What the storage would load. */
    ghost function Durable(): Option<WorkspaceSnapshot>
      reads storage
    {
      LoadSnapshot(storage.disk)
    }

    ghost predicate Stored()
      reads storage
    {
      Healthy(storage.disk, storage.lastValidGeneration)
    }

    /** The primary pointer holds, so that a failing save changes nothing that loads. */
    ghost predicate Anchored()
      reads storage
    {
      storage.disk.primary.Holds?
    }

    /** How a save ends: read back exactly, or without effect, or half way and loading all the same. */
    ghost predicate SavedAs(before: Option<WorkspaceSnapshot>, anchored: bool, saved: bool, snapshot: WorkspaceSnapshot)
      reads storage
    {
      && (if saved then Durable() == Some(snapshot)
          else Durable() == before || (!anchored && Durable() == Some(snapshot)))
      && (Anchored() <==> saved || anchored)
    }

    ghost predicate Apart()
      reads this, branches
    {
      this !in branches.Repr && storage !in branches.Repr
    }

    /** Everything in memory passes the decoder's checks, and the storage is sound. */
    ghost predicate Valid()
      reads this, branches, branches.Repr, storage
    {
      Apart() && branches.Valid() && Reaches(View()) && Stored()
    }

    constructor Loaded(snapshot: WorkspaceSnapshot, all: Revisions, editable: bool, store: StorageUriWorkspaceStorage)
      requires Reaches(snapshot) && AllTrees(all) && Healthy(store.disk, store.lastValidGeneration)
      ensures Valid() && View() == snapshot && storage == store && fresh(branches) && fresh(branches.Repr)
    {
      var workspaces := new BranchWorkspaces(all);
      branches := workspaces;
      storage := store;
      writable := editable;
      pending := snapshot.pending;
      new;
      branches.Restore(snapshot);
    }

    /** `open`: what is stored, or a clean checkout of the default branch when nothing is. */
    static method Open(
        store: StorageUriWorkspaceStorage, all: Revisions, editable: bool, branch: BranchName, heads: Heads)
      returns (r: Result<LocalWorkspace>)
      requires AllTrees(all) && Healthy(store.disk, store.lastValidGeneration)
      modifies store
      ensures r.Ok? ==> fresh(r.value) && r.value.Valid() && r.value.storage == store
      ensures LoadSnapshot(old(store.disk)).Some? ==>
        && r.Ok? && r.value.View() == LoadSnapshot(old(store.disk)).value
        && r.value.Durable() == LoadSnapshot(old(store.disk))
      ensures LoadSnapshot(old(store.disk)).None? && heads.Ok? && branch in heads.value ==>
        && r.Ok?
        && r.value.View() == WorkspaceSnapshot(branch, map[branch := BranchSnapshot(heads.value[branch], EMPTY)], None)
    {
      LoadedReaches(store.disk);
      hide Healthy, LoadGeneration, Reaches, BranchWorkspaces.Separate, BranchWorkspaces.Branches;
      var loaded := LoadStored(store);
      if loaded.Some? {
        var workspace := new LocalWorkspace.Loaded(loaded.value, all, editable, store);
        return Ok(workspace);
      }
      if heads.Err? || branch !in heads.value {
        return Err(NotFound);
      }
      var snapshot := WorkspaceSnapshot(branch, map[branch := BranchSnapshot(heads.value[branch], EMPTY)], None);
      CheckoutReaches(snapshot);
      var workspace := new LocalWorkspace.Loaded(snapshot, all, editable, store);
      return Ok(workspace);
    }

    static lemma CheckoutReaches(snapshot: WorkspaceSnapshot)
      requires snapshot.pending.None? && snapshot.selectedBranch in snapshot.branches
      ensures Reaches(snapshot)
    {
    }

    static method LoadStored(store: StorageUriWorkspaceStorage) returns (loaded: Option<WorkspaceSnapshot>)
      requires Healthy(store.disk, store.lastValidGeneration)
      modifies store
      ensures loaded == LoadSnapshot(old(store.disk)) && store.disk == old(store.disk)
      ensures Healthy(store.disk, store.lastValidGeneration)
    {
      var r := store.Load();
      return if r.Ok? then r.value else None;
    }

    /** Every snapshot saved here is accepted by the decoder and read back whole. */
    method SaveSnapshot() returns (saved: bool)
      requires Valid()
      modifies storage
      ensures Valid() && SavedAs(old(Durable()), old(Anchored()), saved, View())
      ensures storage.failures >= old(storage.failures) && (!saved ==> storage.failures > old(storage.failures))
    {
      hide Healthy, LoadSnapshot, Reaches, BranchWorkspaces.Separate;
      hide BranchWorkspaces.BranchValue, BranchWorkspaces.Branches;
      var snapshot := branches.Snapshot(pending);
      saved := SaveThrough(storage, snapshot);
    }

    static method SaveThrough(store: StorageUriWorkspaceStorage, snapshot: WorkspaceSnapshot) returns (saved: bool)
      requires Healthy(store.disk, store.lastValidGeneration) && Reaches(snapshot)
      modifies store
      ensures Healthy(store.disk, store.lastValidGeneration)
      ensures store.failures >= old(store.failures) && (!saved ==> store.failures > old(store.failures))
      ensures saved ==> LoadSnapshot(store.disk) == Some(snapshot) && store.disk.primary.Holds?
      ensures !saved ==> store.disk.primary == old(store.disk).primary
      ensures !saved ==> LoadSnapshot(store.disk) in {LoadSnapshot(old(store.disk)), Some(snapshot)}
      ensures !saved && old(store.disk).primary.Holds? ==> LoadSnapshot(store.disk) == LoadSnapshot(old(store.disk))
    {
      ghost var before := store.disk;
      HealthyForNext(before, store.lastValidGeneration);
      saved := store.Save(snapshot);
      HealthyForNext(store.disk, store.lastValidGeneration);
      InterruptedSaveLoadsOldOrNew(before, store.disk, snapshot);
      SameOutcomeLoadsSame(before, store.disk);
    }

    static lemma SameOutcomeLoadsSame(d: Disk, d': Disk)
      ensures LoadsAs(d) == LoadsAs(d') ==> LoadSnapshot(d) == LoadSnapshot(d')
    {
      if LoadsAs(d) == LoadsAs(d') && LoadsAs(d).Restores? {
        LoadIsDetermined(d, d', LoadsAs(d).generation);
      }
    }

    /** `requireExpectedState`. */
    predicate MeetsExpectation(expected: Option<ExpectedState>)
      requires branches.selectedBranch in branches.workspaces
      reads this, branches, branches.workspaces[branches.selectedBranch]
    {
      expected.Some? ==>
        && branches.selectedBranch == expected.value.branch
        && branches.workspaces[branches.selectedBranch].baseRevision == expected.value.baseRevision
    }

    lemma ExpectationMeaning(expected: ExpectedState)
      requires Valid()
      ensures MeetsExpectation(Some(expected)) <==>
        && View().selectedBranch == expected.branch
        && View().branches[View().selectedBranch].baseRevision == expected.baseRevision
    {
    }

    /** Every local edit, the switch and the refresh: nothing changes unless the edit and its save both succeed. */
    method Mutate(operation: LocalOperation, expected: Option<ExpectedState>, heads: Heads) returns (r: Result<bool>)
      requires Valid()
      modifies this, branches, branches.Repr, storage
      ensures Valid() && fresh(branches.Repr - old(branches.Repr))
      ensures r.Err? ==> View() == old(View())
      ensures r.Err? && old(Anchored()) ==> Durable() == old(Durable())
      ensures r.Err? ==>
        Durable() == old(Durable())
        || (Durable().Some? && Performed(branches.revisions, heads, old(View()), operation, Durable().value))
      ensures r.Ok? ==> old(pending).None? && Performed(branches.revisions, heads, old(View()), operation, View())
      ensures r == Ok(true) ==> Durable() == Some(View())
      ensures r == Ok(false) ==> View() == old(View()) && Durable() == old(Durable())
      ensures
        && old(pending).None? && (operation.NeedsWritable() ==> writable) && old(MeetsExpectation(expected))
        && Performable(branches.revisions, heads, old(View()), operation) ==>
          r.Ok? || (r == Err(Offline) && storage.failures > old(storage.failures))
      ensures r.Ok? ==> (operation.NeedsWritable() ==> writable)
      ensures r.Ok? && expected.Some? ==>
        && old(View()).selectedBranch == expected.value.branch
        && old(View()).branches[old(View()).selectedBranch].baseRevision == expected.value.baseRevision
    {
      hide Performed, Performable, Edited, Healthy;
      hide LoadSnapshot, BranchWorkspaces.Separate, BranchWorkspaces.BranchValue;
      if expected.Some? {
        ExpectationMeaning(expected.value);
      }
      hide MeetsExpectation, Reaches, Rebasable;
      if pending.Some? {
        return Err(InvalidRequest);
      }
      if (operation.NeedsWritable() && !writable) || !MeetsExpectation(expected) {
        var snapshot := branches.Snapshot(pending);
        branches.Restore(snapshot);
        return Err(InvalidRequest);
      }
      r := RunLocalMutation(operation, heads);
    }

    /** The edit and its save, or everything as it was. */
    method RunLocalMutation(operation: LocalOperation, heads: Heads) returns (r: Result<bool>)
      requires Valid() && pending.None?
      modifies this, branches, branches.Repr, storage
      ensures Valid() && fresh(branches.Repr - old(branches.Repr)) && pending.None?
      ensures r.Err? ==> View() == old(View())
      ensures r.Err? && old(Anchored()) ==> Durable() == old(Durable())
      ensures r.Err? ==>
        Durable() == old(Durable())
        || (Durable().Some? && Performed(branches.revisions, heads, old(View()), operation, Durable().value))
      ensures r.Ok? ==> Performed(branches.revisions, heads, old(View()), operation, View())
      ensures r == Ok(true) ==> Durable() == Some(View())
      ensures r == Ok(false) ==> View() == old(View()) && Durable() == old(Durable())
      ensures Performable(branches.revisions, heads, old(View()), operation) ==>
        r.Ok? || (r == Err(Offline) && storage.failures > old(storage.failures))
    {
      hide Performed, Performable, Edited, Healthy;
      hide LoadSnapshot, BranchWorkspaces.Separate, BranchWorkspaces.BranchValue;
      var snapshot := branches.Snapshot(pending);
      r := branches.Perform(operation, heads);
      if r.Err? {
        branches.Restore(snapshot);
        return;
      }
      if r.value {
        var saved := SaveSnapshot();
        if !saved {
          branches.Restore(snapshot);
          return Err(Offline);
        }
      }
    }

    // ---------------------------------------------------------------- publications

    /** The journal entry of a publication names the branch it is made from. */
    method BeforePublish(expected: RevisionId) returns (r: Result<()>)
      requires Valid()
      modifies `pending, storage
      ensures Valid()
      ensures r.Ok? ==> View() == old(View()).(pending := Some(PreparedFor(branches.selectedBranch, expected)))
      ensures r.Ok? ==> Durable() == Some(View()) && old(pending).None?
      ensures r.Err? ==> View() == old(View()) && (old(Anchored()) ==> Durable() == old(Durable()))
      ensures r.Err? ==> old(pending).Some? || storage.failures > old(storage.failures)
    {
      hide Healthy, LoadSnapshot, BranchWorkspaces.Separate, BranchWorkspaces.Branches;
      if pending.Some? {
        return Err(InvalidRequest);
      }
      pending := Some(PreparedFor(branches.selectedBranch, expected));
      var saved := SaveSnapshot();
      if !saved {
        pending := None;
        return Err(Offline);
      }
      return Ok(());
    }

    /** The exact revision is recorded for the same branch; failing to save it is ignored. */
    method AfterPublish(revision: RevisionId) returns (saved: bool)
      requires Valid() && pending.Some? && pending.value.PreparedFor?
      modifies `pending, storage
      ensures Valid()
      ensures View() ==
        old(View()).(pending := Some(PublishedOn(branches.selectedBranch, old(pending).value.expected, revision)))
      ensures SavedAs(old(Durable()), old(Anchored()), saved, View())
      ensures saved || storage.failures > old(storage.failures)
    {
      hide Healthy, LoadSnapshot, BranchWorkspaces.Separate, BranchWorkspaces.Branches;
      pending := Some(PublishedOn(pending.value.branch, pending.value.expected, revision));
      saved := SaveSnapshot();
    }

    /** A rejected request clears the journal, in memory whatever the save does. */
    method Reject() returns (saved: bool)
      requires Valid()
      modifies `pending, storage
      ensures Valid() && View() == old(View()).(pending := None)
      ensures SavedAs(old(Durable()), old(Anchored()), saved, View())
      ensures saved || storage.failures > old(storage.failures)
    {
      hide Healthy, LoadSnapshot, BranchWorkspaces.Separate, BranchWorkspaces.Branches;
      pending := None;
      saved := SaveSnapshot();
    }

    /** The selected branch after a publication, when the new revision can be taken over. */
    ghost function Settled(was: WorkspaceSnapshot, revision: RevisionId, whole: bool): WorkspaceSnapshot
      requires was.selectedBranch in was.branches
    {
      var overlay := was.branches[was.selectedBranch].overlay;
      was.(pending := None,
           branches := was.branches[was.selectedBranch :=
             BranchSnapshot(revision, if whole then EMPTY else Rebase(FilesAt(branches.revisions, revision), overlay))])
    }

    /** The tree moves to the revision and the journal is cleared, or neither. */
    method Accept(revision: RevisionId, whole: bool, readable: bool) returns (accepted: bool)
      requires Valid()
      modifies `pending, branches.Repr
      ensures Valid() && View() == if accepted then Settled(old(View()), revision, whole) else old(View())
      ensures accepted <==>
        || whole
        || (readable
            && Rebasable(branches.revisions, revision, old(View()).branches[old(View()).selectedBranch].overlay))
    {
      hide Healthy, BranchWorkspaces.Separate, BranchWorkspaces.Branches, Rebase, TryRebase;
      if whole {
        branches.AcceptWhole(revision);
        pending := None;
        return true;
      }
      if !readable {
        return false;
      }
      accepted := branches.AcceptPart(revision);
      if accepted {
        pending := None;
      }
    }

    /** Reconciliation after a publication: whatever it comes to is saved, and a failing save is ignored. */
    method Settle(revision: RevisionId, whole: bool, readable: bool) returns (settled: bool, saved: bool)
      requires Valid()
      modifies `pending, branches.Repr, storage
      ensures Valid() && View() == if settled then Settled(old(View()), revision, whole) else old(View())
      ensures settled <==>
        || whole
        || (readable
            && Rebasable(branches.revisions, revision, old(View()).branches[old(View()).selectedBranch].overlay))
      ensures SavedAs(old(Durable()), old(Anchored()), saved, View())
      ensures saved || storage.failures > old(storage.failures)
    {
      hide Healthy, LoadSnapshot, Rebase, BranchWorkspaces.Separate, BranchWorkspaces.Branches;
      settled := Accept(revision, whole, readable);
      saved := SaveSnapshot();
    }

    /** What recovery needs: the branch still at the expected head, or the published revision and a rebase onto it. */
    ghost predicate Provable(was: WorkspaceSnapshot, heads: Heads, readable: bool)
      requires was.selectedBranch in was.branches
    {
      match was.pending
      case None => false
      case Some(PreparedFor(branch, expected)) =>
        heads.Ok? && branch in heads.value && heads.value[branch] == expected
      case Some(PublishedOn(_, _, revision)) =>
        readable && Rebasable(branches.revisions, revision, was.branches[was.selectedBranch].overlay)
    }

    /** `recoverPendingCommitPublication`: a proven outcome settles the journal; the result is saved if it can be. */
    method Recover(heads: Heads, readable: bool) returns (resolved: bool)
      requires Valid()
      modifies `pending, branches.Repr, storage
      ensures Valid()
      ensures !resolved ==> View() == old(View()) && Durable() == old(Durable())
      ensures resolved ==> old(pending).Some? && pending.None?
      ensures resolved <==> Provable(old(View()), heads, readable)
      ensures resolved && old(pending).value.PreparedFor? ==> View() == old(View()).(pending := None)
      ensures resolved && old(pending).value.PublishedOn? ==>
        View() == Settled(old(View()), old(pending).value.revision, false)
      ensures resolved ==> Durable() == old(Durable()) || Durable() == Some(View())
      ensures resolved ==> Durable() == Some(View()) || storage.failures > old(storage.failures)
    {
      hide Healthy, LoadSnapshot, Rebase, BranchWorkspaces.Separate, BranchWorkspaces.Branches;
      if pending.None? {
        return false;
      }
      match pending.value
      case PreparedFor(branch, expected) =>
        if heads.Err? || branch !in heads.value || heads.value[branch] != expected {
          return false;
        }
        pending := None;
        var saved := SaveSnapshot();
        return true;
      case PublishedOn(branch, expected, revision) =>
        resolved := Accept(revision, false, readable);
        if resolved {
          var saved := SaveSnapshot();
        }
    }

    /** `resolvePendingCommitPublication`: taken over and saved, or everything as it was. */
    method Resolve(resolution: Resolution, readable: bool) returns (r: Result<()>)
      requires Valid()
      modifies this, branches, branches.Repr, storage
      ensures Valid() && fresh(branches.Repr - old(branches.Repr))
      ensures r.Err? ==> View() == old(View()) && (old(Anchored()) ==> Durable() == old(Durable()))
      ensures r.Ok? && old(pending).None? ==> View() == old(View()) && Durable() == old(Durable())
      ensures r.Ok? && old(pending).Some? ==> Durable() == Some(View())
      ensures r.Ok? && old(pending).Some? ==>
        View() == if resolution.NotPublished? then old(View()).(pending := None)
                  else Settled(old(View()), resolution.revision, false)
      ensures old(pending).Some? && old(pending).value.PublishedOn? ==>
        (resolution.NotPublished? || resolution.revision != old(pending).value.revision ==> r.Err?)
      ensures r.Err? ==>
        || storage.failures > old(storage.failures)
        || (old(pending).Some? && old(pending).value.PublishedOn?
            && (resolution.NotPublished? || resolution.revision != old(pending).value.revision))
        || (resolution.PublishedRevision?
            && !(readable && Rebasable(branches.revisions, resolution.revision,
                                       old(View()).branches[old(View()).selectedBranch].overlay)))
    {
      hide Healthy, LoadSnapshot, Rebase, BranchWorkspaces.Separate, BranchWorkspaces.Branches;
      if pending.None? {
        return Ok(());
      }
      if pending.value.PublishedOn? && (resolution.NotPublished? || resolution.revision != pending.value.revision) {
        return Err(InvalidRequest);
      }
      var before := pending;
      var snapshot := branches.Snapshot(pending);
      if resolution.NotPublished? {
        pending := None;
      } else {
        var accepted := Accept(resolution.revision, false, readable);
        if !accepted {
          return Err(Offline);
        }
      }
      var saved := SaveSnapshot();
      if !saved {
        branches.Restore(snapshot);
        pending := before;
        return Err(Offline);
      }
      return Ok(());
    }

    // ---------------------------------------------------------------- branches

    /**
     `deleteBranch`: the local removal is durable before the remote is asked. When the remote then
     refuses, the branch is back in memory, and at worst the durable snapshot lacks a clean branch.
     */
    method DeleteBranch(name: BranchName, supported: bool, deleted: bool) returns (r: Result<()>)
      requires Valid()
      modifies this, branches, branches.Repr, storage
      ensures Valid() && fresh(branches.Repr - old(branches.Repr))
      ensures r.Ok? ==> View() == old(View()).(branches := old(View().branches) - {name}) && Durable() == Some(View())
      ensures r.Ok? ==> deleted && name != old(branches.selectedBranch) && old(pending).None?
      ensures r.Err? ==> View() == old(View())
      ensures r.Err? ==>
        || Durable() == old(Durable()) || Durable() == Some(View())
        || (Durable() == Some(View().(branches := View().branches - {name})) && name != branches.selectedBranch)
      ensures name in old(View()).branches && !old(View()).branches[name].overlay.IsEmpty() ==>
        r.Err? && Durable() == old(Durable())
      ensures r.Err? ==>
        || storage.failures > old(storage.failures) || old(pending).Some? || !supported || !deleted
        || name == branches.selectedBranch
        || (name in old(View()).branches && !old(View()).branches[name].overlay.IsEmpty())
    {
      hide Healthy, LoadSnapshot, BranchWorkspaces.Separate, BranchWorkspaces.BranchValue, BranchWorkspaces.Branches;
      if pending.Some? || name == branches.selectedBranch || !supported {
        return Err(InvalidRequest);
      }
      var changed := branches.HasChanges(name);
      if changed {
        return Err(InvalidRequest);
      }
      var snapshot := branches.Snapshot(pending);
      var removed := RemoveDurably(name);
      if removed && deleted {
        return Ok(());
      }
      branches.Restore(snapshot);
      if removed {
        var saved := SaveSnapshot();
      }
      return Err(Offline);
    }

    method RemoveDurably(name: BranchName) returns (saved: bool)
      requires Valid() && name != branches.selectedBranch
      modifies storage, branches`workspaces
      ensures Valid() && branches.Repr == old(branches.Repr)
      ensures View() == old(View()).(branches := old(View()).branches - {name})
      ensures SavedAs(old(Durable()), old(Anchored()), saved, View())
      ensures saved || storage.failures > old(storage.failures)
    {
      hide Healthy, LoadSnapshot, BranchWorkspaces.Separate, BranchWorkspaces.BranchValue, BranchWorkspaces.Branches;
      branches.Remove(name);
      saved := SaveSnapshot();
    }

    /**
     `createBranch`: the remote's answer is kept even when the save fails. A workspace that already
     has the name is replaced, with the edits it held.
     */
    method CreateBranch(name: BranchName, switchTo: bool, expected: Option<ExpectedState>, answer: Result<RevisionId>)
      returns (r: Result<()>)
      requires Valid()
      modifies this, branches, storage
      ensures Valid() && fresh(branches.Repr - old(branches.Repr))
      ensures r.Err? ==> View() == old(View()) && Durable() == old(Durable())
      ensures r.Ok? ==> answer.Ok? && old(pending).None?
      ensures r.Ok? ==>
        View() == old(View()).(
          branches := old(View()).branches[name := BranchSnapshot(answer.value, EMPTY)],
          selectedBranch := if switchTo then name else old(branches.selectedBranch))
      ensures Durable() == Some(View()) || Durable() == old(Durable())
      ensures r.Ok? ==> Durable() == Some(View()) || storage.failures > old(storage.failures)
      ensures r.Ok? && expected.Some? ==>
        && old(View()).selectedBranch == expected.value.branch
        && old(View()).branches[old(View()).selectedBranch].baseRevision == expected.value.baseRevision
      ensures r.Err? ==> old(pending).Some? || !old(MeetsExpectation(expected)) || answer.Err?
    {
      hide Healthy, LoadSnapshot, BranchWorkspaces.Separate, BranchWorkspaces.BranchValue, BranchWorkspaces.Branches;
      if expected.Some? {
        ExpectationMeaning(expected.value);
      }
      hide MeetsExpectation, Reaches, Rebasable;
      if pending.Some? || !MeetsExpectation(expected) {
        return Err(InvalidRequest);
      }
      if answer.Err? {
        return Err(answer.code);
      }
      branches.Add(name, answer.value, EMPTY);
      if switchTo {
        var switched := branches.SwitchTo(name, Err(Offline));
      }
      var saved := SaveSnapshot();
      return Ok(());
    }
  }
}
