/**
 What every edit does to the visible directories. The flat map of files says nothing of them, and here the
 program does more than asked: clearing one tombstone brings subdirectories back that it alone was hiding.
 */
module Directories {
  import opened Wrappers
  import opened Paths
  import opened Repository
  import opened Overlays
  import opened TreeView
  import opened Edits
  import opened Deletes
  import opened Renames
  import opened RenamePaths
  import opened Reverts
  import opened ChangeSets
  import opened Rebases
  import opened SoundEdits

  predicate IsDir(base: Files, o: OverlaySnapshot, p: Path) {
    ViewStat(base, o, p) == Ok(Directory)
  }

  /** A written file takes no directory away, and brings back those its own tombstone alone was hiding. */
  lemma WriteDirectories(
      base: Files, o: OverlaySnapshot, path: Path, content: Bytes, create: bool, overwrite: bool, p: Path)
    requires WellFormed(base, o) && ParentsPresent(base, o)
    requires WriteFile(base, o, path, content, create, overwrite).Ok?
    ensures IsDir(base, WriteFile(base, o, path, content, create, overwrite).value, p) <==>
      IsDir(base, o, p) || HiddenByPathAlone(base, o, path, p)
  {
    var o' := WriteFile(base, o, path, content, create, overwrite).value;
    WriteFileForm(base, o, path, content, create, overwrite);
    WrittenPathIsVacant(base, o, path, content, create, overwrite);
    StatOfView(base, o, p);
    BaseIsTree(base, o);
    StatOfTree(base, p);
    ClearedDirectory(base, o, o', path, p);
  }

  /** One tombstone is cleared and the markers stay. */
  lemma ClearedDirectory(base: Files, o: OverlaySnapshot, o': OverlaySnapshot, path: Path, p: Path)
    requires WellFormed(base, o) && path != ROOT
    requires o'.deleted == o.deleted - {path} && o'.directories == o.directories
    requires p != path ==> (p in o'.files <==> p in o.files)
    requires p == path ==> ViewStat(base, o', path) != Ok(Directory) && ViewStat(base, o, path) != Ok(Directory)
    requires IsDirectory(base, path) ==> path in o.deleted
    ensures IsDir(base, o', p) <==> IsDir(base, o, p) || HiddenByPathAlone(base, o, path, p)
  {
    StatOfView(base, o, p);
    BaseIsTree(base, o);
    StatOfTree(base, p);
  }

  /** The new directory is there, and so are the subdirectories that its own tombstone alone was hiding. */
  lemma CreateDirectoryDirectories(base: Files, o: OverlaySnapshot, path: Path, p: Path)
    requires WellFormed(base, o) && ParentsPresent(base, o) && CreateDirectory(base, o, path).Ok?
    ensures IsDir(base, CreateDirectory(base, o, path).value, p) <==>
      p == path || IsDir(base, o, p) || HiddenByPathAlone(base, o, path, p)
  {
    var o' := CreateDirectory(base, o, path).value;
    StatOfView(base, o, path);
    StatOfView(base, o, p);
    NothingDeletedAbove(base, o, path);
    BaseIsTree(base, o);
    StatOfTree(base, p);
  }

  /** A deletion takes the directories of its subtree and no other. */
  lemma DeleteDirectories(base: Files, o: OverlaySnapshot, path: Path, p: Path)
    requires WellFormed(base, o) && path != ROOT && ViewStat(base, o, path).Ok?
    ensures IsDir(base, Delete(base, o, path), p) <==> IsDir(base, o, p) && !Within(p, path)
  {
    DeleteRefines(base, o, path);
    StatOfView(base, o, p);
    StatOfView(base, Delete(base, o, path), p);
    StatOfView(base, o, path);
    if ViewStat(base, o, path) == Ok(File) {
      DeletedFileDirectories(base, o, path, p);
    } else {
      DeletedDirectoryDirectories(base, o, path, p);
    }
  }

  lemma DeletedFileDirectories(base: Files, o: OverlaySnapshot, path: Path, p: Path)
    requires WellFormed(base, o) && path in Visible(base, o)
    ensures ShowsDirectory(base, DeleteFile(base, o, path), p) <==> ShowsDirectory(base, o, p) && !Within(p, path)
  {
    DeleteFileForm(base, o, path);
    if Within(p, path) && ShowsDirectory(base, o, p) {
      FileIsNotAbove(base, o, path, p);
      assert false;
    }
  }

  lemma DeletedDirectoryDirectories(base: Files, o: OverlaySnapshot, path: Path, p: Path)
    requires WellFormed(base, o) && path != ROOT && ShowsDirectory(base, o, path)
    ensures ShowsDirectory(base, DeleteDirectory(base, o, path), p) <==> ShowsDirectory(base, o, p) && !Within(p, path)
  {
    if Within(p, path) {
      BaseIsTree(base, o);
      StatOfTree(base, path);
      assert IsDirectory(base, p) ==> IsDirectory(base, path);
    } else {
      TombstonesAddedWithin(base, o, path, p);
    }
  }

  /** Renaming a file onto a directory with overwrite leaves the base's subdirectories to be found below the file. */
  lemma RenameFileDirectories(
      base: Files, o: OverlaySnapshot, from: Path, to: Path, overwrite: bool, order: seq<Path>, p: Path)
    requires WellFormed(base, o) && ParentsPresent(base, o)
    requires RenameChecks(base, o, from, to, overwrite).Ok? && from != to && !Within(from, to)
    requires ViewStat(base, o, from) == Ok(File)
    requires forall i | 0 <= i < |order| :: from <= order[i]
    ensures IsDir(base, RenamePaths.Rename(base, o, from, to, order), p) <==>
      (IsDir(base, o, p) && !Within(p, to)) || HiddenByPathAlone(base, AfterOverwrite(base, o, to), to, p)
  {
    var ready := AfterOverwrite(base, o, to);
    AfterOverwriteIsReady(base, o, to);
    OverwriteKeepsStat(base, o, to, from);
    OverwriteKeepsStat(base, o, to, Parent(to));
    OverwrittenDirectories(base, o, to, p);
    OverwrittenDirectories(base, o, to, to);
    StatOfView(base, ready, from);
    hide AfterOverwrite, RenameFile, WellFormed, ParentsPresent, HiddenByPathAlone, Visible, ShowsDirectory;
    MovedFileDirectories(base, ready, from, to, Content(base, ready, from), p);
  }

  lemma OverwrittenDirectories(base: Files, o: OverlaySnapshot, to: Path, p: Path)
    requires WellFormed(base, o) && ParentsPresent(base, o) && to != ROOT
    ensures IsDir(base, AfterOverwrite(base, o, to), p) <==> IsDir(base, o, p) && !Within(p, to)
  {
    if ViewStat(base, o, to).Ok? {
      DeleteDirectories(base, o, to, p);
    } else if Within(p, to) && IsDir(base, o, p) {
      StatOfView(base, o, p);
      StatOfView(base, o, to);
      if p != to {
        AboveVisible(base, o, p, to);
      }
      assert false;
    }
  }

  lemma MovedFileDirectories(base: Files, o: OverlaySnapshot, from: Path, to: Path, content: Bytes, p: Path)
    requires WellFormed(base, o) && ParentsPresent(base, o) && from in Visible(base, o)
    requires to != ROOT && !Within(to, from) && !Within(from, to)
    requires ViewStat(base, o, Parent(to)) == Ok(Directory) && !IsDir(base, o, to)
    ensures IsDir(base, RenameFile(base, o, from, to, content), p) <==>
      IsDir(base, o, p) || HiddenByPathAlone(base, o, to, p)
  {
    var gone := DeleteFile(base, o, from);
    var planted := gone.SetFile(to, content);
    DeleteFileKeeps(base, o, from);
    DirectoriesWithoutFile(base, o, from, p);
    DirectoriesWithoutFile(base, o, from, to);
    HiddenWithoutFile(base, o, from, to, p);
    TargetTombstone(base, o, from, to);
    MarkerAtTarget(base, o, from, to);
    hide DeleteFile, WellFormed, ParentsPresent, HiddenByPathAlone, Visible, IsDirectory, Stat;
    ClearedDirectory(base, gone, planted, to, p);
    assert IsDir(base, RenameFile(base, o, from, to, content), p) <==> IsDir(base, planted, p) by {
      RecordsKeepDirectories(base, planted, [Rename(from, to)], p);
    }
  }

  lemma RecordsKeepDirectories(base: Files, o: OverlaySnapshot, more: seq<Rename>, p: Path)
    ensures IsDir(base, o.(renames := o.renames + more), p) <==> IsDir(base, o, p)
  {
    assert o.(renames := o.renames + more).IsDeleted(p) <==> o.IsDeleted(p);
  }

  lemma DirectoriesWithoutFile(base: Files, o: OverlaySnapshot, from: Path, p: Path)
    requires WellFormed(base, o) && from in Visible(base, o)
    ensures IsDir(base, DeleteFile(base, o, from), p) <==> IsDir(base, o, p)
  {
    DeleteFileKeeps(base, o, from);
    StatOfView(base, o, p);
    StatOfView(base, DeleteFile(base, o, from), p);
    DeletedFileDirectories(base, o, from, p);
    if Within(p, from) && ShowsDirectory(base, o, p) {
      FileIsNotAbove(base, o, from, p);
      assert false;
    }
  }

  lemma HiddenWithoutFile(base: Files, o: OverlaySnapshot, from: Path, to: Path, p: Path)
    requires WellFormed(base, o) && from in Visible(base, o)
    requires to != ROOT && !Within(to, from) && !Within(from, to)
    ensures HiddenByPathAlone(base, DeleteFile(base, o, from), to, p) <==> HiddenByPathAlone(base, o, to, p)
  {
    DeleteFileForm(base, o, from);
    NotInBoth(p, from, to);
  }

  lemma TargetTombstone(base: Files, o: OverlaySnapshot, from: Path, to: Path)
    requires WellFormed(base, o) && from in Visible(base, o)
    requires to != ROOT && !Within(to, from) && !Within(from, to)
    requires ViewStat(base, o, Parent(to)) == Ok(Directory) && !IsDir(base, o, to)
    ensures DeleteFile(base, o, from).SetFile(to, []).deleted == DeleteFile(base, o, from).deleted - {to}
    ensures IsDirectory(base, to) ==> to in DeleteFile(base, o, from).deleted
  {
    DeleteFileForm(base, o, from);
    RenameFileTarget(base, o, from, to);
    StatOfView(base, o, to);
    NothingDeletedAbove(base, o, to);
  }

  lemma MarkerAtTarget(base: Files, o: OverlaySnapshot, from: Path, to: Path)
    requires WellFormed(base, o) && from in Visible(base, o) && !IsDir(base, o, to)
    ensures to !in DeleteFile(base, o, from).directories
  {
    DeleteFileForm(base, o, from);
    StatOfView(base, o, to);
  }

  // ---------------------------------------------------------------- the move of a directory

  /** With every parent present whatever is visible below a directory is reached from it. */
  lemma OccupiedIsReached(base: Files, o: OverlaySnapshot, directory: Path, p: Path)
    requires WellFormed(base, o) && ParentsPresent(base, o) && Under(p, directory)
    ensures Reached(base, o, directory, p) <==> Occupied(base, o, p)
  {
    StatOfView(base, o, p);
    ViewsAgree(base, o, p);
    if Occupied(base, o, p) {
      forall q | Under(p, q) && Under(q, directory)
        ensures Entry(base, o, q) == Some(Directory)
      {
        AboveVisible(base, o, p, q);
        ViewsAgree(base, o, q);
      }
    }
  }

  lemma PlantedIffOccupied(base: Files, o: OverlaySnapshot, from: Path, to: Path, q: Path)
    requires TargetReady(base, o, from, to) && ParentsPresent(base, o) && Under(q, to)
    ensures PlantedAs(base, o, from, to, q, File) <==> Moved(q, to, from) in Visible(base, o)
    ensures PlantedAs(base, o, from, to, q, Directory) <==> IsDir(base, o, Moved(q, to, from))
  {
    var back := Moved(q, to, from);
    MovedBack(q, to, from);
    assert Under(back, from);
    OccupiedIsReached(base, o, from, back);
    StatOfView(base, o, back);
    ViewsAgree(base, o, back);
  }

  /** A tombstone at or below the target goes exactly when something moves onto its path. */
  lemma ClearedIffOccupied(base: Files, o: OverlaySnapshot, from: Path, to: Path, t: Path)
    requires TargetReady(base, o, from, to) && ParentsPresent(base, o) && Within(t, to) && t in o.deleted
    ensures t !in Plant(base, o, from, to).deleted <==> t == to || Occupied(base, o, Moved(t, to, from))
  {
    if t != to {
      PlantedIffOccupied(base, o, from, to, t);
      StatOfView(base, o, Moved(t, to, from));
      assert Within(t, t);
      if f :| PlantedAs(base, o, from, to, f, File) && Within(f, t) && f != t {
        AbovePlanted(base, o, from, to, f, File, t);
      }
    }
  }

  /** No tombstone but those that the move clears is at or above the path. */
  predicate HiddenByMoveAlone(base: Files, o: OverlaySnapshot, from: Path, to: Path, p: Path)
    requires to <= p
  {
    forall t | t in o.deleted && Within(p, t) && to <= t :: t == to || Occupied(base, o, Moved(t, to, from))
  }

  /**
   A moved directory takes its subdirectories along, and they are all there is at the target except base
   directories below it that only cleared tombstones were hiding.
   */
  lemma MoveDirectories(base: Files, o: OverlaySnapshot, from: Path, to: Path, order: seq<Path>, p: Path)
    requires TargetReady(base, o, from, to) && ParentsPresent(base, o)
    requires forall i | 0 <= i < |order| :: from <= order[i]
    ensures IsDir(base, RenameDirectory(base, o, from, to, order), p) <==>
      if p == to then true
      else if Under(p, to) then
        || IsDir(base, o, Moved(p, to, from))
        || (IsDirectory(base, p) && Moved(p, to, from) !in Visible(base, o) && HiddenByMoveAlone(base, o, from, to, p))
      else IsDir(base, o, p) && !Within(p, from)
  {
    var planted := Plant(base, o, from, to);
    SourceStaysDirectory(base, o, from, to);
    RecordsKeepDirectories(base, DeleteDirectory(base, planted, from), RenameRecords(order, from, to), p);
    assert IsDir(base, RenameDirectory(base, o, from, to, order), p) <==>
      IsDir(base, DeleteDirectory(base, planted, from), p);
    hide RenameDirectory, DeleteDirectory, Plant, HiddenByMoveAlone;
    TargetApart(base, o, from, to);
    NotInBoth(p, from, to);
    if Within(p, from) {
      SourceDirectoriesGo(base, o, from, to, p);
    } else {
      DeletionElsewhere(base, planted, from, p);
      if Within(p, to) {
        PlantedDirectories(base, o, from, to, p);
      } else {
        PlantingElsewhere(base, o, from, to, p);
      }
    }
  }

  lemma DeletionElsewhere(base: Files, o: OverlaySnapshot, path: Path, p: Path)
    requires path != ROOT && !Within(p, path)
    ensures IsDir(base, DeleteDirectory(base, o, path), p) <==> IsDir(base, o, p)
  {
    TombstonesAddedWithin(base, o, path, p);
  }

  lemma SourceDirectoriesGo(base: Files, o: OverlaySnapshot, from: Path, to: Path, p: Path)
    requires TargetReady(base, o, from, to) && Within(p, from)
    ensures !IsDir(base, DeleteDirectory(base, Plant(base, o, from, to), from), p)
  {
    var gone := DeleteDirectory(base, Plant(base, o, from, to), from);
    BaseIsTree(base, o);
    StatOfTree(base, p);
    StatOfTree(base, from);
    assert IsDirectory(base, p) ==> IsDirectory(base, from) && from in gone.deleted;
  }

  lemma PlantedDirectories(base: Files, o: OverlaySnapshot, from: Path, to: Path, p: Path)
    requires TargetReady(base, o, from, to) && ParentsPresent(base, o) && Within(p, to)
    ensures IsDir(base, Plant(base, o, from, to), p) <==>
      || p == to
      || IsDir(base, o, Moved(p, to, from))
      || (IsDirectory(base, p) && Moved(p, to, from) !in Visible(base, o) && HiddenByMoveAlone(base, o, from, to, p))
  {
    PlantEntries(base, o, from, to, p);
    BaseIsTree(base, o);
    StatOfTree(base, p);
    if p == to {
      PlantedIsNotDeleted(base, o, from, to, p);
    } else {
      PlantedIffOccupied(base, o, from, to, p);
      StatOfView(base, o, Moved(p, to, from));
      if PlantedAs(base, o, from, to, p, File) || PlantedAs(base, o, from, to, p, Directory) {
        PlantedIsNotDeleted(base, o, from, to, p);
      } else {
        HiddenAfterPlanting(base, o, from, to, p);
      }
    }
  }

  lemma HiddenAfterPlanting(base: Files, o: OverlaySnapshot, from: Path, to: Path, p: Path)
    requires TargetReady(base, o, from, to) && ParentsPresent(base, o) && Under(p, to)
    ensures Plant(base, o, from, to).IsDeleted(p) <==> !HiddenByMoveAlone(base, o, from, to, p)
  {
    PlantedTombstones(base, o, from, to);
    NothingDeletedAbove(base, o, to);
    hide Plant, TargetReady;
    forall t | t in o.deleted && Within(p, t)
      ensures to <= t && Within(t, to)
      ensures t !in Plant(base, o, from, to).deleted <==> t == to || Occupied(base, o, Moved(t, to, from))
    {
      AncestorsAreChain(p, t, to);
      ClearedIffOccupied(base, o, from, to, t);
    }
  }

  lemma PlantingElsewhere(base: Files, o: OverlaySnapshot, from: Path, to: Path, p: Path)
    requires TargetReady(base, o, from, to) && !Within(p, to)
    ensures IsDir(base, Plant(base, o, from, to), p) <==> IsDir(base, o, p)
  {
    PlantEntries(base, o, from, to, p);
    PlantedTombstones(base, o, from, to);
    NothingDeletedAbove(base, o, to);
    if o.IsDeleted(p) {
      SourceStaysHidden(base, o, from, to, p);
    }
  }

  /** The same for a rename as a whole, in terms of the state before the target was overwritten. */
  lemma RenameDirectories(
      base: Files, o: OverlaySnapshot, from: Path, to: Path, overwrite: bool, order: seq<Path>, p: Path)
    requires WellFormed(base, o) && ParentsPresent(base, o)
    requires RenameChecks(base, o, from, to, overwrite).Ok? && from != to && !Within(from, to)
    requires ViewStat(base, o, from) == Ok(Directory)
    requires forall i | 0 <= i < |order| :: from <= order[i]
    ensures IsDir(base, RenamePaths.Rename(base, o, from, to, order), p) <==>
      if p == to then true
      else if Under(p, to) then
        || IsDir(base, o, Moved(p, to, from))
        || (IsDirectory(base, p) && Moved(p, to, from) !in Visible(base, o)
            && HiddenByMoveAlone(base, AfterOverwrite(base, o, to), from, to, p))
      else IsDir(base, o, p) && !Within(p, from)
  {
    var ready := AfterOverwrite(base, o, to);
    AfterOverwriteIsReady(base, o, to);
    DirectoryIsReady(base, o, from, to, overwrite);
    MoveDirectories(base, ready, from, to, order, p);
    OverwrittenDirectories(base, o, to, p);
    if Under(p, to) {
      var back := Moved(p, to, from);
      MovedBack(p, to, from);
      NotInBoth(back, from, to);
      OverwriteKeepsStat(base, o, to, back);
      VisibleShows(base, o, back);
      VisibleShows(base, ready, back);
    }
  }

  // ---------------------------------------------------------------- revert and rebase

  /** A revert drops the markers of one subtree and brings back what lies under the cleared tombstones alone. */
  lemma RevertDirectories(base: Files, o: OverlaySnapshot, path: Path, p: Path)
    requires WellFormed(base, o)
    ensures IsDir(base, Revert(o, path), p) <==>
      || p == ROOT
      || (&& ((p in o.directories && !Within(p, path)) || IsDirectory(base, p))
          && forall t | t in o.deleted && Within(p, t) :: Within(Unmarked(o, path), t))
  {
    RevertIsWellFormed(base, o, path);
    StatOfView(base, Revert(o, path), p);
    DroppedIsPath(o, path);
  }

  lemma DroppedIsPath(o: OverlaySnapshot, path: Path)
    ensures Dropped(o, path) == path
  {
  }

  /**
   A publication keeps every visible directory but those without a marker that it empties, and shows no
   new one.
   */
  lemma RebaseDirectories(base: Files, o: OverlaySnapshot, chosen: set<Path>, p: Path)
    requires WellFormed(base, o) && ParentsPresent(base, o) && p != ROOT
    ensures var revision := Published(base, o, chosen);
      IsDir(revision, Rebase(revision, o), p) <==>
        IsDir(base, o, p) && (p in o.directories || !Emptied(base, o, chosen, p))
  {
    var revision := Published(base, o, chosen);
    var o' := Rebase(revision, o);
    RebaseIsWellFormed(base, o, chosen);
    EmptiedIsGone(base, o, chosen, p);
    StatOfView(revision, o', p);
    StatOfView(base, o, p);
    if p in o.directories {
      KeptMarkers(base, o, chosen, p);
    }
    assert o'.directories <= o.directories;
    if p in o.directories || IsDirectory(revision, p) {
      RebaseHidesTheSame(base, o, chosen, p);
    }
    hide Rebase, Published, WellFormed, ParentsPresent, Emptied, ViewStat, Visible, KindStable, IsDirectory;
  }

  /** A directory of the revision was one before, and it is hidden after the rebase exactly when it was. */
  lemma RebaseHidesTheSame(base: Files, o: OverlaySnapshot, chosen: set<Path>, p: Path)
    requires WellFormed(base, o) && ParentsPresent(base, o) && p != ROOT
    requires p in o.directories || IsDirectory(Published(base, o, chosen), p)
    ensures Rebase(Published(base, o, chosen), o).IsDeleted(p) <==> o.IsDeleted(p)
    ensures p in o.directories || IsDirectory(base, p)
  {
    var revision := Published(base, o, chosen);
    PublishedKinds(base, o, chosen);
    if p !in o.directories {
      var f :| f in revision && Under(f, p);
      if t :| t in o.deleted && Within(p, t) {
        assert Under(f, t);
        StatOfTree(revision, t);
      }
    }
  }
}
