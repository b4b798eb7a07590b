/** Concrete states in which the working tree does not do what one would expect of it. */
module Limits {
  import opened Wrappers
  import opened Paths
  import opened Repository
  import opened Overlays
  import opened TreeView
  import opened Edits
  import opened Deletes
  import opened Renames
  import opened RenamePaths
  import opened Reverts
  import opened ChangeSets
  import opened Rebases
  import opened FixtureFiles
  import opened SoundEdits
  import opened EditRuns
  import opened Directories

  /** A directory created where a base file was deleted brings the file back and drops the deletion. */
  lemma DeletionForgotten(content: Bytes)
    ensures var base: Files := map[["a"] := content];
      var t := Tree(base, OverlaySnapshot(map[], {}, {["a"]}, []));
      var made := CreateDirectory(base, t.overlay, ["a"]);
      && t.Valid() && t.Files() == map[] && AllChanges(base, t.overlay).Keys == {["a"]}
      && made.Ok? && Visible(base, made.value) == base && AllChanges(base, made.value) == map[]
  {
    var base: Files := map[["a"] := content];
    var o := OverlaySnapshot(map[], {}, {["a"]}, []);
    var made := CreateDirectory(base, o, ["a"]);
    assert Within(["a"], ["a"]);
    assert o.IsDeleted(["a"]);
    assert WellFormed(base, o);
    ChangeMeaning(base, o, ["a"]);
    assert AllChanges(base, o).Keys == {["a"]};
    assert Parent(["a"]) == ROOT;
    assert made.Ok?;
    CreateDirectoryRefines(base, o, ["a"]);
    assert Visible(base, o) == map[];
    assert made.value.deleted == {};
    assert AllChanges(base, made.value) == map[];
  }

  const D: Path := ["d"]
  const DA: Path := ["d", "a"]
  const DE: Path := ["d", "e"]
  const DEX: Path := ["d", "e", "x"]
  const DEY: Path := ["d", "e", "y"]
  const Z: Path := ["z"]

  /** A file was added beside the only base file of a directory, and that base file was deleted. */
  function Before(content: Bytes): Tree {
    Tree(map[DA := content, DEX := content], OverlaySnapshot(map[DEY := content], {}, {DEX}, []))
  }

  /** The deletion alone has been published. */
  function After(content: Bytes): Tree {
    Tree(map[DA := content], OverlaySnapshot(map[DEY := content], {}, {}, []))
  }

  lemma BeforeIsValid(content: Bytes)
    ensures Before(content).Valid()
  {
    var t := Before(content);
    assert Within(DEX, DEX) && !Within(DEY, DEX) && !Within(DA, DEX);
    assert Under(DEX, D) && Under(DEX, DE) && Under(DEY, D) && Under(DEY, DE) && Under(DA, D);
    forall q | Under(DEY, q) && q != ROOT
      ensures q == D || q == DE
    {
    }
    assert DA[1] != DEX[1] && DEX[2] != DEY[2];
    forall f, e | f in {DA, DEX, DEY} && e in {DA, DEX, DEY}
      ensures !Under(e, f)
    {
    }
    assert forall p | IsEntryPath(t.base, t.overlay, p) :: p in {DA, DEX, DEY};
    assert WellFormed(t.base, t.overlay);
  }

  lemma OrphaningRebase(content: Bytes)
    ensures var t, t' := Before(content), After(content);
      Published(t.base, t.overlay, {DEX}) == t'.base && Rebase(t'.base, t.overlay) == t'.overlay
  {
    var t, t' := Before(content), After(content);
    assert Within(DEX, DEX) && !Within(DEY, DEX) && !Within(DA, DEX);
    assert Parent(DEX) == DE && Parent(DEY) == DE && Parent(DE) == D;
    assert Under(DA, D) && !Under(DA, DE);
    assert Stat(t'.base, DEX) == Err(NotFound) && Stat(t'.base, DEY) == Err(NotFound);
  }

  lemma PublishingOrphans(content: Bytes)
    ensures Step(Before(content), Publish({DEX}), After(content))
    ensures WellFormed(After(content).base, After(content).overlay)
    ensures DEY in After(content).Files() && Orphan(After(content).base, After(content).overlay, D, DEY)
  {
    var t, t' := Before(content), After(content);
    BeforeIsValid(content);
    OrphaningRebase(content);
    RebaseIsWellFormed(t.base, t.overlay, {DEX});
    OnlyRecordsStopRebase(t.base, t.overlay, {DEX});
    hide Rebase, Published, WellFormed;
    assert Under(DEY, DE) && Under(DE, D) && !Under(DA, DE);
  }

  /** Renaming the directory above an orphan loses its bytes: neither end shows them any more. */
  lemma RenameLosesOrphan(content: Bytes, order: seq<Path>)
    requires forall i | 0 <= i < |order| :: D <= order[i]
    ensures var t := After(content);
      && TargetReady(t.base, t.overlay, D, Z) && KindsFit(t.base, t.overlay, D, Z)
      && DEY in t.Files()
      && DEY !in Visible(t.base, RenameDirectory(t.base, t.overlay, D, Z, order))
      && Moved(DEY, D, Z) !in Visible(t.base, RenameDirectory(t.base, t.overlay, D, Z, order))
  {
    var t := After(content);
    var o' := RenameDirectory(t.base, t.overlay, D, Z, order);
    var q := Moved(DEY, D, Z);
    PublishingOrphans(content);
    RenameIsReady(content);
    assert Within(DEY, D) && Within(q, Z);
    MovedBack(DEY, D, Z);
    RenameDirectoryShows(t.base, t.overlay, D, Z, order, q);
    RenameDirectoryShows(t.base, t.overlay, D, Z, order, DEY);
    ReachedFilesAreVisible(t.base, t.overlay, D, DEY);
    VisibleShows(t.base, o', q);
    VisibleShows(t.base, o', DEY);
    assert !Within(DEY, Z);
    hide RenameDirectory, TargetReady, KindsFit, WellFormed, Shows, Visible, Moved;
  }

  lemma RenameIsReady(content: Bytes)
    ensures TargetReady(After(content).base, After(content).overlay, D, Z)
    ensures KindsFit(After(content).base, After(content).overlay, D, Z)
  {
    var t := After(content);
    PublishingOrphans(content);
    assert Under(DA, D) && Parent(D) == ROOT && Parent(Z) == ROOT;
    ViewsAgree(t.base, t.overlay, D);
    assert DA[0] != Z[0] && DEY[0] != Z[0];
    assert !Within(DA, Z) && !Within(DEY, Z);
    forall p | PlantedAs(t.base, t.overlay, D, Z, p, File) || PlantedAs(t.base, t.overlay, D, Z, p, Directory)
      ensures p !in t.base && !IsDirectory(t.base, p)
    {
      assert p[0] == "z" && DA[0] == "d";
    }
  }

  // ---------------------------------------------------------------- a rename that revives, a file above a directory

  const A: Path := ["a"]

  /** A base file was deleted, and a directory is renamed to its name. */
  function Vacated(content: Bytes): Tree {
    Tree(map[A := content, DA := content], OverlaySnapshot(map[], {}, {A}, []))
  }

  lemma VacatedIsValid(content: Bytes)
    ensures Vacated(content).Valid()
    ensures IsDirectory(Vacated(content).base, D) && Stat(Vacated(content).base, D) == Ok(Directory)
  {
    var t := Vacated(content);
    assert Under(DA, D) && Within(A, A) && A[0] != DA[0];
    assert forall f, e | f in {A, DA} && e in {A, DA} :: !Under(e, f);
    assert forall p | IsEntryPath(t.base, t.overlay, p) :: p in {A, DA};
    assert Parent(D) == ROOT;
  }

  /** The deleted file is readable again under the directory that took its name. */
  lemma RenameRevivesDeletedFile(content: Bytes, order: seq<Path>)
    requires forall i | 0 <= i < |order| :: D <= order[i]
    ensures var t := Vacated(content); var o' := RenamePaths.Rename(t.base, t.overlay, D, A, order);
      && t.Valid() && RenameChecks(t.base, t.overlay, D, A, false).Ok?
      && A !in Visible(t.base, t.overlay) && A !in MoveFiles(Visible(t.base, t.overlay), D, A)
      && Lookup(Visible(t.base, o'), A) == Some(content)
  {
    var t := Vacated(content);
    VacatedIsValid(content);
    assert Within(A, A) && t.overlay.IsDeleted(A) && Parent(A) == ROOT;
    assert !Within(A, D) && !Within(D, A) && !t.overlay.IsDeleted(D);
    DirectoryIsReady(t.base, t.overlay, D, A, false);
    assert AfterOverwrite(t.base, t.overlay, A) == t.overlay;
    RenameDirectoryShows(t.base, t.overlay, D, A, order, A);
    VisibleShows(t.base, RenameDirectory(t.base, t.overlay, D, A, order), A);
    VisibleShows(t.base, t.overlay, D);
    MoveLookup(Visible(t.base, t.overlay), D, A, A);
    BaseIsTree(t.base, t.overlay);
    StatOfTree(t.base, D);
  }

  /** A directory with a subdirectory was deleted. */
  function Hollow(content: Bytes): Tree {
    Tree(map[DEX := content], OverlaySnapshot(map[], {}, {D, DEX}, []))
  }

  lemma HollowIsValid(content: Bytes)
    ensures Hollow(content).Valid()
  {
    var t := Hollow(content);
    assert Under(DEX, D) && Under(DEX, DE) && Within(DEX, DEX);
    assert forall p | IsEntryPath(t.base, t.overlay, p) :: p == DEX;
  }

  /** A file takes the name of the directory, and the subdirectory is found below the file. */
  lemma DirectoryBelowFile(content: Bytes)
    ensures var t := Hollow(content); var written := WriteFile(t.base, t.overlay, D, content, true, false);
      && t.Valid() && written.Ok?
      && ViewStat(t.base, written.value, D) == Ok(File) && ViewStat(t.base, written.value, DE) == Ok(Directory)
  {
    var t := Hollow(content);
    HollowIsValid(content);
    assert Within(D, D) && t.overlay.IsDeleted(D) && Parent(D) == ROOT;
    assert Under(DEX, D) && Under(DEX, DE) && Under(DE, D);
    assert !Within(DE, DEX) && HiddenByPathAlone(t.base, t.overlay, D, DE);
    FileAboveDirectoryIff(t.base, t.overlay, D, content, true, false);
    BelowWrittenFile(t.base, t.overlay, D, content, true, false, DE);
    BaseIsTree(t.base, t.overlay);
    StatOfTree(t.base, DE);
  }

  /** The directory is created anew, and its old subdirectory is in it, empty. */
  lemma EmptyDirectoryReturns(content: Bytes)
    ensures var t := Hollow(content); var made := CreateDirectory(t.base, t.overlay, D);
      && t.Valid() && made.Ok? && !IsDir(t.base, t.overlay, DE) && IsDir(t.base, made.value, DE)
      && Visible(t.base, made.value) == map[]
  {
    var t := Hollow(content);
    HollowIsValid(content);
    assert Within(D, D) && Within(DE, D) && Within(DEX, DEX) && t.overlay.IsDeleted(D) && t.overlay.IsDeleted(DE);
    assert Parent(D) == ROOT && Under(DEX, DE) && Under(DE, D) && !Within(DE, DEX);
    CreateDirectoryDirectories(t.base, t.overlay, D, DE);
    CreateDirectoryRefines(t.base, t.overlay, D);
    assert D != DEX;
  }

  /** The ancestor is overwritten, the source with it, and the files are gone when the move fails. */
  lemma AncestorRenameDeletes(content: Bytes)
    ensures var base: Files := map[DEX := content];
      && RenameChecks(base, EMPTY, DE, D, true).Ok? && WellFormed(base, EMPTY) && ParentsPresent(base, EMPTY)
      && ViewStat(base, AfterOverwrite(base, EMPTY, D), DE).Err?
      && DEX in Visible(base, EMPTY) && Visible(base, AfterOverwrite(base, EMPTY, D)) == map[]
  {
    var base: Files := map[DEX := content];
    assert Under(DEX, D) && Under(DEX, DE) && Within(DE, D) && !Within(D, DE) && Within(DEX, D);
    RevertAllShowsBase(base);
    StatOfTree(base, D);
    StatOfTree(base, DE);
    assert Parent(D) == ROOT;
    RenameOntoAncestorFails(base, EMPTY, DE, D, true);
    assert Without(Visible(base, EMPTY), D) == map[];
  }

  // ---------------------------------------------------------------- a rebase that can never succeed

  const P: Path := ["p"]
  const PX: Path := ["p", "x"]
  const B: Path := ["b"]

  /** A file added under a directory was moved away, the directory disappeared, and its name became a file. */
  function Stuck(content: Bytes): Tree {
    Tree(map[], OverlaySnapshot(map[B := content, P := content], {}, {}, [Rename(PX, B)]))
  }

  /** Once the new file is published, the leftover rename record makes every rebase onto it fail. */
  lemma RebaseIsStuck(content: Bytes)
    ensures var t := Stuck(content);
      && t.Valid()
      && Published(t.base, t.overlay, {P}) == map[P := content]
      && TryRebase(Published(t.base, t.overlay, {P}), t.overlay).Err?
  {
    var t := Stuck(content);
    assert WellFormed(t.base, t.overlay);
    assert Published(t.base, t.overlay, {P}) == map[P := content];
    RebaseSucceedsIff(t.base, t.overlay, {P});
    assert t.overlay.renames[0] == Rename(PX, B);
    assert Parent(PX) == P;
  }

  const PY: Path := ["p", "y"]

  function StuckEdits(content: Bytes): seq<Edit> {
    [Write(PX, content, true, false), Move(PX, B, false, []), Remove(PY), Publish({PY}), Write(P, content, true, false)]
  }

  function StuckStates(content: Bytes): seq<Tree> {
    var base: Files := map[PY := content];
    [ Tree(base, EMPTY),
      Tree(base, OverlaySnapshot(map[PX := content], {}, {}, [])),
      Tree(base, OverlaySnapshot(map[B := content], {}, {}, [Rename(PX, B)])),
      Tree(base, OverlaySnapshot(map[B := content], {}, {PY}, [Rename(PX, B)])),
      Tree(map[], OverlaySnapshot(map[B := content], {}, {}, [Rename(PX, B)])),
      Stuck(content)]
  }

  lemma StuckWrites(content: Bytes)
    ensures var s := StuckStates(content); var e := StuckEdits(content);
      Step(s[0], e[0], s[1]) && Safe(s[0], e[0])
  {
    var base: Files := map[PY := content];
    assert Under(PY, P) && Parent(PX) == P && !Under(PY, PX) && PX[1] != PY[1];
    assert Parent(P) == ROOT && IsDirectory(base, P);
    assert ViewStat(base, EMPTY, PX) == Err(NotFound) && ViewStat(base, EMPTY, P) == Ok(Directory);
    assert EMPTY.SetFile(PX, content) == StuckStates(content)[1].overlay;
  }

  lemma StuckMoves(content: Bytes)
    ensures var s := StuckStates(content); var e := StuckEdits(content);
      Step(s[1], e[1], s[2]) && Safe(s[1], e[1])
  {
    var base: Files := map[PY := content];
    var o := StuckStates(content)[1].overlay;
    assert Under(PY, P) && Parent(PX) == P && PX[1] != PY[1] && Parent(B) == ROOT && B[0] != P[0];
    assert !Within(B, PX) && !Within(PX, B) && !IsDirectory(base, B) && Within(PX, PX);
    assert ViewStat(base, o, PX) == Ok(File) && Stat(base, PX) == Err(NotFound);
    var gone := DeleteFile(base, o, PX);
    assert gone == EMPTY;
    assert RenameFile(base, o, PX, B, content) == StuckStates(content)[2].overlay;
  }

  lemma StuckRemoves(content: Bytes)
    ensures var s := StuckStates(content); var e := StuckEdits(content);
      Step(s[2], e[2], s[3]) && Safe(s[2], e[2])
  {
    var base: Files := map[PY := content];
    var o := StuckStates(content)[2].overlay;
    assert Under(PY, P) && Parent(PY) == P && PX[1] != PY[1] && B[0] != P[0];
    assert !Within(B, PY) && !Within(PX, PY) && Within(PY, PY);
    assert Stat(base, PY) == Ok(File) && ViewStat(base, o, PY) == Ok(File);
    assert RenamesApartFrom(o.renames, PY) == o.renames by {
      assert o.renames[..0] == [];
    }
    assert Delete(base, o, PY) == StuckStates(content)[3].overlay;
  }

  lemma StuckRebases(content: Bytes)
    ensures var t := StuckStates(content)[3];
      && Published(t.base, t.overlay, {PY}) == map[]
      && Rebase(map[], t.overlay) == StuckStates(content)[4].overlay
  {
    var o := StuckStates(content)[3].overlay;
    assert Within(PY, PY) && o.IsDeleted(PY);
    assert forall p | p != ROOT :: Stat(map[], p) == Err(NotFound);
    assert UnpublishedRenames(map[], o.renames) == o.renames by {
      assert o.renames[..0] == [];
    }
  }

  lemma StuckPublishes(content: Bytes)
    ensures var s := StuckStates(content); var e := StuckEdits(content);
      Step(s[3], e[3], s[4]) && Safe(s[3], e[3])
  {
    StuckRebases(content);
    assert forall p | p != ROOT :: Stat(map[], p) == Err(NotFound);
    assert forall d | Under(B, d) :: d == ROOT;
    hide Rebase, Published;
  }

  lemma StuckOverwrites(content: Bytes)
    ensures var s := StuckStates(content); var e := StuckEdits(content);
      Step(s[4], e[4], s[5]) && Safe(s[4], e[4])
  {
    var o := StuckStates(content)[4].overlay;
    assert Parent(P) == ROOT && B[0] != P[0];
    assert ViewStat(map[], o, P) == Err(NotFound);
    assert o.SetFile(P, content) == Stuck(content).overlay;
  }

  /** The state that no rebase can leave is the end of a run of safe edits and one partial publication. */
  lemma StuckIsReached(content: Bytes)
    ensures var s, e := StuckStates(content), StuckEdits(content);
      Run(s, e) && s[5] == Stuck(content) && forall i | 0 <= i < 5 :: Safe(s[i], e[i])
  {
    StuckWrites(content);
    StuckMoves(content);
    StuckRemoves(content);
    StuckPublishes(content);
    StuckOverwrites(content);
    hide Step, Safe;
  }

  // ---------------------------------------------------------------- a file in the place of a deleted directory

  const DX: Path := ["d", "x"]

  /** The directory of the only base file is deleted, and a file takes its name. */
  function ReplacedStates(below: Path, content: Bytes): seq<Tree> {
    var base: Files := map[below := content];
    [ Tree(base, EMPTY),
      Tree(base, OverlaySnapshot(map[], {}, {D, below}, [])),
      Tree(base, OverlaySnapshot(map[D := content], {}, {below}, []))]
  }

  function ReplacedEdits(content: Bytes): seq<Edit> {
    [Remove(D), Write(D, content, true, false)]
  }

  lemma EntryAboveFile(file: Path, content: Bytes, q: Path)
    requires Under(file, q) && q != ROOT
    ensures var base: Files := map[file := content];
      Stat(base, q) == Ok(Directory) && Entry(base, EMPTY, q) == Some(Directory)
  {
    var base: Files := map[file := content];
    assert Under(file, Parent(q));
    assert IsDirectory(base, q) && IsDirectory(base, Parent(q));
    assert TreeShaped(base);
    StatOfTree(base, q);
    StatOfTree(base, Parent(q));
  }

  lemma OneFileIsReached(directory: Path, file: Path, content: Bytes)
    requires Under(file, directory)
    ensures var base: Files := map[file := content];
      ReachedFiles(base, EMPTY, directory) == {file} && Stat(base, file) == Ok(File)
  {
    var base: Files := map[file := content];
    forall q | Under(file, q) && Under(q, directory)
      ensures Entry(base, EMPTY, q) == Some(Directory)
    {
      EntryAboveFile(file, content, q);
    }
    assert TreeShaped(base) && Under(file, Parent(file));
    StatOfTree(base, file);
    StatOfTree(base, Parent(file));
    assert Reached(base, EMPTY, directory, file);
    assert forall p | p != ROOT && Entry(base, EMPTY, p) == Some(File) :: p == file;
  }

  lemma DirectoryIsRemoved(directory: Path, file: Path, content: Bytes)
    requires Under(file, directory) && directory != ROOT
    ensures var base: Files := map[file := content];
      Step(Tree(base, EMPTY), Remove(directory), Tree(base, OverlaySnapshot(map[], {}, {directory, file}, [])))
  {
    var base: Files := map[file := content];
    EntryAboveFile(file, content, directory);
    OneFileIsReached(directory, file, content);
    var reached := ReachedFiles(base, EMPTY, directory);
    hide ReachedFiles, Stat, Entry;
    assert (set f | f in reached && Stat(base, f) == Ok(File)) == {file};
    assert EMPTY.RemoveOverlayPath(directory) == EMPTY;
  }

  lemma FileReplacesDirectory(below: Path, content: Bytes)
    requires Under(below, D)
    ensures var s := ReplacedStates(below, content);
      Step(s[1], Write(D, content, true, false), s[2]) && Sound(s[2].base, s[2].overlay)
  {
    var base: Files := map[below := content];
    var o := ReplacedStates(below, content)[1].overlay;
    assert Within(D, D) && o.IsDeleted(D) && Parent(D) == ROOT && !Within(D, below);
    assert o.SetFile(D, content) == ReplacedStates(below, content)[2].overlay;
  }

  lemma ReplacedIsReached(below: Path, content: Bytes)
    requires Under(below, D)
    ensures Run(ReplacedStates(below, content), ReplacedEdits(content))
  {
    DirectoryIsRemoved(D, below, content);
    FileReplacesDirectory(below, content);
    hide Step;
  }

  lemma ReplacementStopsRebase(content: Bytes)
    ensures var t := ReplacedStates(DX, content)[2]; var revision: Files := map[D := content];
      && Published(t.base, t.overlay, {D, DX}) == revision && TreeShaped(revision)
      && t.overlay.renames == [] && TryRebase(revision, t.overlay).Err?
  {
    var t := ReplacedStates(DX, content)[2];
    var revision: Files := map[D := content];
    hide Rebase;
    assert Published(t.base, t.overlay, {D, DX}) == revision by {
      assert Within(DX, DX) && t.overlay.IsDeleted(DX) && !Within(D, DX);
    }
    assert Asked(t.overlay, DX) && Parent(DX) == D;
    TryRebaseIff(revision, t.overlay);
  }

  /**
   The remote accepts both changes together and stores the new file alone, and no rebase onto that revision
   ever succeeds: the tombstone of the deleted file lies directly below the new one.
   */
  lemma ReplacementIsStuck(content: Bytes, changes: seq<Change>)
    requires var t := ReplacedStates(DX, content)[2]; ListsChanges(t.base, t.overlay, {D, DX}, changes)
    ensures var t := ReplacedStates(DX, content)[2];
      && Acceptable(t.base, changes) && NoFileIsParent(Applied(t.base, changes))
      && Applied(t.base, changes) == map[D := content]
      && t.overlay.renames == [] && TryRebase(map[D := content], t.overlay).Err?
  {
    var t := ReplacedStates(DX, content)[2];
    hide Published, Acceptable, ListsChanges, StopsRebase, NoFileIsParent, Applied, TryRebase, FileBecomesParent;
    FileReplacesDirectory(DX, content);
    hide Sound, Step;
    ReplacementStopsRebase(content);
    PublicationIsAccepted(t.base, t.overlay, {D, DX}, changes);
    TreesAreAccepted(t.base, t.overlay, {D, DX});
  }

  /** The new file alone is refused: the base still has a file directly below it. */
  lemma ReplacementAloneIsRefused(content: Bytes, changes: seq<Change>)
    requires var t := ReplacedStates(DX, content)[2]; ListsChanges(t.base, t.overlay, {D}, changes)
    ensures var t := ReplacedStates(DX, content)[2];
      Acceptable(t.base, changes) && !NoFileIsParent(Applied(t.base, changes))
  {
    var t := ReplacedStates(DX, content)[2];
    FileReplacesDirectory(DX, content);
    PublicationIsAccepted(t.base, t.overlay, {D}, changes);
    assert !Within(D, DX) && Parent(DX) == D && D != DX;
    assert BecomesFile(t.base, t.overlay, {D}, D) && BecomesFile(t.base, t.overlay, {D}, DX);
  }

  /** With the base file one level further down the new file is accepted, and what is stored is no tree. */
  lemma ReplacementStoresNoTree(content: Bytes, changes: seq<Change>)
    requires var t := ReplacedStates(DEX, content)[2]; ListsChanges(t.base, t.overlay, {D}, changes)
    ensures var t := ReplacedStates(DEX, content)[2];
      && Acceptable(t.base, changes) && NoFileIsParent(Applied(t.base, changes))
      && !TreeShaped(Applied(t.base, changes))
  {
    var t := ReplacedStates(DEX, content)[2];
    FileReplacesDirectory(DEX, content);
    PublicationIsAccepted(t.base, t.overlay, {D}, changes);
    assert !Within(D, DEX) && Under(DEX, D) && Parent(DEX) == DE && Parent(D) == ROOT;
    assert forall p | BecomesFile(t.base, t.overlay, {D}, p) :: p in {D, DEX};
    assert BecomesFile(t.base, t.overlay, {D}, D) && BecomesFile(t.base, t.overlay, {D}, DEX);
    PublishedIsTreeIff(t.base, t.overlay, {D});
  }

  // ---------------------------------------------------------------- a deletion that comes undone

  const PD: Path := ["p", "d"]
  const PDX: Path := ["p", "d", "x"]

  function UndoneEdits(content: Bytes): seq<Edit> {
    [Remove(PD), Write(PD, content, true, false), Undo(PDX), Remove(P), MakeDirectory(P)]
  }

  function UndoneStates(content: Bytes): seq<Tree> {
    var base: Files := map[PDX := content];
    [ Tree(base, EMPTY),
      Tree(base, OverlaySnapshot(map[], {}, {PD, PDX}, [])),
      Tree(base, OverlaySnapshot(map[PD := content], {}, {PDX}, [])),
      Tree(base, OverlaySnapshot(map[PD := content], {}, {}, [])),
      Tree(base, OverlaySnapshot(map[], {}, {P}, [])),
      Tree(base, OverlaySnapshot(map[], {P}, {}, []))]
  }

  lemma UndoneWrites(content: Bytes)
    ensures var s := UndoneStates(content); var e := UndoneEdits(content);
      Step(s[1], e[1], s[2]) && Step(s[2], e[2], s[3])
  {
    var s := UndoneStates(content);
    assert Within(PD, PD) && !Within(PD, PDX) && Parent(PD) == P && Parent(P) == ROOT && Parent(PDX) == PD;
    assert Under(PDX, P) && !Within(P, PD) && !Within(P, PDX);
    assert ViewStat(s[1].base, s[1].overlay, P) == Ok(Directory);
    assert s[1].overlay.SetFile(PD, content) == s[2].overlay;
    assert Within(PDX, PDX) && Revert(s[2].overlay, PDX) == s[3].overlay;
  }

  /** The walk from above does not enter a file, so the deletion gives the base file below it no tombstone. */
  lemma WalkStopsAtFile(content: Bytes)
    ensures var t := UndoneStates(content)[3];
      && ViewStat(t.base, t.overlay, P) == Ok(Directory) && Stat(t.base, P) == Ok(Directory)
      && Stat(t.base, PD) == Ok(Directory) && ReachedFiles(t.base, t.overlay, P) <= {PD}
  {
    var t := UndoneStates(content)[3];
    assert Parent(PD) == P && Parent(P) == ROOT && Under(PDX, P) && Under(PDX, PD) && Under(PD, P);
    assert Entry(t.base, t.overlay, PD) == Some(File);
    assert !Reached(t.base, t.overlay, P, PDX);
    assert forall p | p != ROOT && Entry(t.base, t.overlay, p) == Some(File) :: p in {PD, PDX};
  }

  lemma UndoneRemoves(content: Bytes)
    ensures var s := UndoneStates(content); var e := UndoneEdits(content);
      Step(s[3], e[3], s[4]) && Step(s[4], e[4], s[5])
  {
    var s := UndoneStates(content);
    WalkStopsAtFile(content);
    var reached := ReachedFiles(s[3].base, s[3].overlay, P);
    hide ReachedFiles, Stat;
    assert (set f | f in reached && Stat(s[3].base, f) == Ok(File)) == {};
    assert Within(PD, P) && s[3].overlay.RemoveOverlayPath(P) == EMPTY;
    assert Delete(s[3].base, s[3].overlay, P) == s[4].overlay;
    assert Parent(P) == ROOT && Within(P, P) && s[4].overlay.SetDirectory(P) == s[5].overlay;
  }

  lemma FiveSteps(s: seq<Tree>, e: seq<Edit>, base: Files)
    requires |s| == 6 && |e| == 5 && s[0].overlay == EMPTY && TreeShaped(base)
    requires forall t | t in s :: t.base == base
    requires Step(s[0], e[0], s[1]) && Step(s[1], e[1], s[2]) && Step(s[2], e[2], s[3])
    requires Step(s[3], e[3], s[4]) && Step(s[4], e[4], s[5])
    ensures Run(s, e)
  {
    hide Step, TreeShaped;
  }

  lemma UndoneRuns(content: Bytes)
    ensures Run(UndoneStates(content), UndoneEdits(content))
  {
    hide Step, Run;
    DirectoryIsRemoved(PD, PDX, content);
    UndoneWrites(content);
    UndoneRemoves(content);
    FiveSteps(UndoneStates(content), UndoneEdits(content), map[PDX := content]);
  }

  /** A deleted base file is back although the last edit does not name it: its own tombstone was undone before. */
  lemma DeletionComesUndone(content: Bytes)
    ensures var s := UndoneStates(content); var e := UndoneEdits(content);
      && Run(s, e) && PDX in s[4].base && PDX !in s[4].Files() && PDX in s[5].Files()
      && !Names(s[4], e[4], PDX) && Loose(s[4].overlay, PDX)
  {
    UndoneRuns(content);
    hide Run;
    assert Within(PDX, P);
  }

  // ---------------------------------------------------------------- a rename that its revert does not undo

  const C: Path := ["c"]

  function TwiceEdits(): seq<Edit> {
    [Move(A, B, false, []), Move(B, C, false, []), Undo(C)]
  }

  function TwiceStates(content: Bytes): seq<Tree> {
    var base: Files := map[A := content];
    [ Tree(base, EMPTY),
      Tree(base, OverlaySnapshot(map[B := content], {}, {A}, [Rename(A, B)])),
      Tree(base, OverlaySnapshot(map[C := content], {}, {A}, [Rename(B, C)])),
      Tree(base, OverlaySnapshot(map[], {}, {A}, []))]
  }

  lemma RenamesOnce(content: Bytes)
    ensures var s := TwiceStates(content); Step(s[0], TwiceEdits()[0], s[1])
  {
    var base: Files := map[A := content];
    assert A[0] != B[0] && Parent(A) == ROOT && Parent(B) == ROOT && Within(A, A);
    assert Stat(base, A) == Ok(File) && Stat(base, B) == Err(NotFound) && !Within(B, A) && !Within(A, B);
    assert RenamesApartFrom([], A) == [];
    assert DeleteFile(base, EMPTY, A) == EMPTY.(deleted := {A});
    assert RenameFile(base, EMPTY, A, B, content) == TwiceStates(content)[1].overlay;
  }

  lemma RenamesAgain(content: Bytes)
    ensures var s := TwiceStates(content); Step(s[1], TwiceEdits()[1], s[2])
  {
    var base: Files := map[A := content];
    var o := TwiceStates(content)[1].overlay;
    assert A[0] != B[0] && B[0] != C[0] && A[0] != C[0];
    assert Parent(B) == ROOT && Parent(C) == ROOT && Within(B, B);
    assert !Within(B, A) && !Within(C, A) && !Within(C, B) && !Within(B, C);
    assert Stat(base, B) == Err(NotFound) && Stat(base, C) == Err(NotFound);
    assert RenamesApartFrom(o.renames, B) == [];
    assert DeleteFile(base, o, B) == OverlaySnapshot(map[], {}, {A}, []);
    assert RenameFile(base, o, B, C, content) == TwiceStates(content)[2].overlay;
  }

  lemma RevertsOnce(content: Bytes)
    ensures var s := TwiceStates(content); Step(s[2], TwiceEdits()[2], s[3])
  {
    var o := TwiceStates(content)[2].overlay;
    assert A[0] != B[0] && !Within(B, A) && Within(C, C);
    assert FirstRenameTo(o.renames, C) == Some(0);
    assert RemovedRename(o, C).1.renames == [];
    assert RenamesApartFrom([], C) == [];
    assert Revert(o, C) == TwiceStates(content)[3].overlay;
  }

  lemma ThreeSteps(s: seq<Tree>, e: seq<Edit>, base: Files)
    requires |s| == 4 && |e| == 3 && s[0].overlay == EMPTY && TreeShaped(base)
    requires forall t | t in s :: t.base == base
    requires Step(s[0], e[0], s[1]) && Step(s[1], e[1], s[2]) && Step(s[2], e[2], s[3])
    ensures Run(s, e)
  {
    hide Step, TreeShaped;
  }

  /** Reverting a file that was renamed twice leaves it nowhere: the first record went with the second move. */
  lemma RenamedTwiceIsLost(content: Bytes)
    ensures var s := TwiceStates(content);
      Run(s, TwiceEdits()) && s[0].Files() == map[A := content] && s[3].Files() == map[]
  {
    hide Step, Run;
    RenamesOnce(content);
    RenamesAgain(content);
    RevertsOnce(content);
    ThreeSteps(TwiceStates(content), TwiceEdits(), map[A := content]);
    RevertAllShowsBase(map[A := content]);
    assert Within(A, A);
  }
}
