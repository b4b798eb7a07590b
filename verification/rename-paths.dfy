/** `WorkingTreeMutations.rename` as a whole: its checks, the overwritten target, the move. */
module RenamePaths {
  import opened Wrappers
  import opened Paths
  import opened Repository
  import opened Overlays
  import opened TreeView
  import opened Edits
  import opened Deletes
  import opened Renames

  /** The checks made before anything is changed. */
  function RenameChecks(base: Files, o: OverlaySnapshot, from: Path, to: Path, overwrite: bool): Result<()> {
    if from == ROOT || to == ROOT then Err(InvalidRequest)
    else if from == to then Ok(())
    else if Within(to, from) then Err(InvalidRequest)
    else
      var _ :- ViewStat(base, o, from);
      var target :- TryViewStat(base, o, to);
      if target.Some? && !overwrite then Err(InvalidRequest)
      else RequireDirectory(base, o, Parent(to))
  }

  ghost function AfterOverwrite(base: Files, o: OverlaySnapshot, to: Path): OverlaySnapshot {
    if ViewStat(base, o, to).Ok? then Delete(base, o, to) else o
  }

  ghost function Rename(base: Files, o: OverlaySnapshot, from: Path, to: Path, order: seq<Path>): OverlaySnapshot
    requires forall i | 0 <= i < |order| :: from <= order[i]
  {
    if from == to then o
    else
      var ready := AfterOverwrite(base, o, to);
      if ViewStat(base, o, from) == Ok(File)
      then RenameFile(base, ready, from, to, Content(base, ready, from))
      else RenameDirectory(base, ready, from, to, order)
  }

  /** The move gives no base path another kind, stated before anything is changed. */
  ghost predicate RenameFits(base: Files, o: OverlaySnapshot, from: Path, to: Path) {
    from == to ||
    if ViewStat(base, o, from) == Ok(File) then !IsDirectory(base, to) else KindsFit(base, o, from, to)
  }

  /** No directory of the move lands on a file of the base, stated before anything is changed. */
  ghost predicate FilesFit(base: Files, o: OverlaySnapshot, from: Path, to: Path) {
    from == to || ViewStat(base, o, from) == Ok(File) || DirectoriesFit(base, o, from, to)
  }

  /** An invisible path has nothing visible and no overlay entry below it. */
  lemma InvisibleIsVacant(base: Files, o: OverlaySnapshot, path: Path)
    requires WellFormed(base, o) && ParentsPresent(base, o)
    requires path != ROOT && ViewStat(base, o, path).Err?
    ensures forall e | e in o.files || e in o.directories :: !Within(e, path)
    ensures Without(Visible(base, o), path) == Visible(base, o)
  {
    ViewsAgree(base, o, path);
    forall e | e in o.files || e in o.directories || e in Visible(base, o)
      ensures !Within(e, path)
    {
      assert Within(e, path) ==> (e in base ==> e == path || IsDirectory(base, path));
    }
  }

  lemma AfterOverwriteIsReady(base: Files, o: OverlaySnapshot, to: Path)
    requires WellFormed(base, o) && ParentsPresent(base, o) && to != ROOT
    ensures var o' := AfterOverwrite(base, o, to);
      && WellFormed(base, o') && ParentsPresent(base, o')
      && Visible(base, o') == Without(Visible(base, o), to)
      && (forall e | e in o'.files || e in o'.directories :: !Within(e, to))
  {
    if ViewStat(base, o, to).Ok? {
      DeleteRefines(base, o, to);
    } else {
      InvisibleIsVacant(base, o, to);
    }
  }

  /** Deleting the target leaves every path outside it as it was. */
  lemma OverwriteKeepsStat(base: Files, o: OverlaySnapshot, to: Path, path: Path)
    requires WellFormed(base, o) && to != ROOT && !Within(path, to)
    ensures ViewStat(base, AfterOverwrite(base, o, to), path) == ViewStat(base, o, path)
    ensures path != ROOT ==> Entry(base, AfterOverwrite(base, o, to), path) == Entry(base, o, path)
    ensures Shows(base, AfterOverwrite(base, o, to), path) == Shows(base, o, path)
  {
    if ViewStat(base, o, to) == Ok(File) {
      ViewsAgree(base, o, to);
      DeleteFileForm(base, o, to);
    } else if ViewStat(base, o, to).Ok? {
      TombstonesAddedWithin(base, o, to, path);
    }
  }

  lemma OverwriteKeepsReach(base: Files, o: OverlaySnapshot, from: Path, to: Path, path: Path)
    requires WellFormed(base, o) && from != ROOT && to != ROOT && !Within(from, to) && !Within(to, from)
    ensures Reached(base, AfterOverwrite(base, o, to), from, path) <==> Reached(base, o, from, path)
    ensures Under(path, from) ==> Entry(base, AfterOverwrite(base, o, to), path) == Entry(base, o, path)
  {
    forall q | Under(q, from)
      ensures Entry(base, AfterOverwrite(base, o, to), q) == Entry(base, o, q)
    {
      NotInBoth(q, from, to);
      OverwriteKeepsStat(base, o, to, q);
    }
  }

  lemma OverwriteKeepsFit(base: Files, o: OverlaySnapshot, from: Path, to: Path)
    requires WellFormed(base, o) && from != ROOT && to != ROOT && !Within(from, to) && !Within(to, from)
    ensures KindsFit(base, AfterOverwrite(base, o, to), from, to) <==> KindsFit(base, o, from, to)
    ensures DirectoriesFit(base, AfterOverwrite(base, o, to), from, to) <==> DirectoriesFit(base, o, from, to)
  {
    var o' := AfterOverwrite(base, o, to);
    forall p, kind
      ensures PlantedAs(base, o', from, to, p, kind) <==> PlantedAs(base, o, from, to, p, kind)
    {
      if Under(p, to) {
        OverwriteKeepsReach(base, o, from, to, Moved(p, to, from));
      }
    }
  }

  /**
   A rename is the move on the flat file map exactly when no directory lands on a file of the base, and
   keeps the invariant exactly when no path of the base gets another kind.
   */
  lemma RenameRefines(base: Files, o: OverlaySnapshot, from: Path, to: Path, overwrite: bool, order: seq<Path>)
    requires WellFormed(base, o) && ParentsPresent(base, o)
    requires RenameChecks(base, o, from, to, overwrite).Ok? && from != to && !Within(from, to)
    requires forall i | 0 <= i < |order| :: from <= order[i]
    ensures var o' := Rename(base, o, from, to, order);
      && (Visible(base, o') == MoveFiles(Visible(base, o), from, to) <==> FilesFit(base, o, from, to))
      && (WellFormed(base, o') <==> RenameFits(base, o, from, to))
      && ParentsPresent(base, o')
  {
    if ViewStat(base, o, from) == Ok(File) {
      RenameOneFile(base, o, from, to, overwrite, order);
    } else {
      RenameWholeDirectory(base, o, from, to, overwrite, order);
    }
  }

  lemma RenameOneFile(base: Files, o: OverlaySnapshot, from: Path, to: Path, overwrite: bool, order: seq<Path>)
    requires WellFormed(base, o) && ParentsPresent(base, o)
    requires RenameChecks(base, o, from, to, overwrite).Ok? && from != to && !Within(from, to)
    requires ViewStat(base, o, from) == Ok(File)
    requires forall i | 0 <= i < |order| :: from <= order[i]
    ensures var o' := Rename(base, o, from, to, order);
      && Visible(base, o') == MoveFiles(Visible(base, o), from, to)
      && ParentsPresent(base, o')
      && (WellFormed(base, o') <==> !IsDirectory(base, to))
  {
    var ready := AfterOverwrite(base, o, to);
    AfterOverwriteIsReady(base, o, to);
    OverwriteKeepsStat(base, o, to, from);
    OverwriteKeepsStat(base, o, to, Parent(to));
    ViewsAgree(base, ready, from);
    RenameFileKeeps(base, ready, from, to, Content(base, ready, from));
    RenameFileRefines(base, ready, from, to, Content(base, ready, from));
    VisibleShows(base, ready, from);
    MoveOneFile(Visible(base, o), from, to) by {
      VisibleIsTree(base, o);
      VisibleShows(base, o, from);
    }
  }

  lemma MoveOneFile(files: Files, from: Path, to: Path)
    requires TreeShaped(files) && from in files && to != ROOT && !Within(from, to) && !Within(to, from)
    ensures MoveFiles(files, from, to) == (Without(files, to) - {from})[to := files[from]]
  {
    var m := (Without(files, to) - {from})[to := files[from]];
    forall q
      ensures Lookup(MoveFiles(files, from, to), q) == Lookup(m, q)
    {
      MoveLookup(files, from, to, q);
      if Within(q, to) {
        MovedBack(q, to, from);
      }
    }
    SameLookups(MoveFiles(files, from, to), m);
  }

  lemma RenameWholeDirectory(base: Files, o: OverlaySnapshot, from: Path, to: Path, overwrite: bool, order: seq<Path>)
    requires WellFormed(base, o) && ParentsPresent(base, o)
    requires RenameChecks(base, o, from, to, overwrite).Ok? && from != to && !Within(from, to)
    requires ViewStat(base, o, from) == Ok(Directory)
    requires forall i | 0 <= i < |order| :: from <= order[i]
    ensures var o' := Rename(base, o, from, to, order);
      && (Visible(base, o') == MoveFiles(Visible(base, o), from, to) <==> DirectoriesFit(base, o, from, to))
      && (WellFormed(base, o') <==> KindsFit(base, o, from, to))
      && ParentsPresent(base, o')
  {
    var ready := AfterOverwrite(base, o, to);
    AfterOverwriteIsReady(base, o, to);
    DirectoryIsReady(base, o, from, to, overwrite);
    OverwriteKeepsFit(base, o, from, to);
    RenameDirectoryKeeps(base, ready, from, to, order);
    RenameDirectoryRefines(base, ready, from, to, order);
    forall p
      ensures !Orphan(base, ready, from, p)
    {
      if Orphan(base, ready, from, p) {
        NoOrphans(base, ready, from, p);
      }
    }
    MoveIgnoresTarget(Visible(base, o), from, to);
  }

  lemma DirectoryIsReady(base: Files, o: OverlaySnapshot, from: Path, to: Path, overwrite: bool)
    requires WellFormed(base, o) && ParentsPresent(base, o)
    requires RenameChecks(base, o, from, to, overwrite).Ok? && from != to && !Within(from, to)
    requires ViewStat(base, o, from) == Ok(Directory)
    ensures TargetReady(base, AfterOverwrite(base, o, to), from, to)
  {
    AfterOverwriteIsReady(base, o, to);
    OverwriteKeepsStat(base, o, to, from);
    OverwriteKeepsStat(base, o, to, Parent(to));
    WithoutIsVacant(Visible(base, o), to);
  }

  /** Outside the target a rename does what the move does, whatever the kinds. */
  lemma RenameElsewhere(
      base: Files, o: OverlaySnapshot, from: Path, to: Path, overwrite: bool, order: seq<Path>, q: Path)
    requires WellFormed(base, o) && ParentsPresent(base, o)
    requires RenameChecks(base, o, from, to, overwrite).Ok? && from != to && !Within(from, to)
    requires forall i | 0 <= i < |order| :: from <= order[i]
    requires !Within(q, to)
    ensures Lookup(Visible(base, Rename(base, o, from, to, order)), q) ==
      if Within(q, from) then None else Lookup(Visible(base, o), q)
  {
    if ViewStat(base, o, from) == Ok(File) {
      RenameOneFile(base, o, from, to, overwrite, order);
      MoveLookup(Visible(base, o), from, to, q);
    } else {
      var ready := AfterOverwrite(base, o, to);
      DirectoryIsReady(base, o, from, to, overwrite);
      RenameDirectoryShows(base, ready, from, to, order, q);
      OverwriteKeepsStat(base, o, to, q);
      VisibleShows(base, o, q);
      VisibleShows(base, RenameDirectory(base, ready, from, to, order), q);
    }
  }

  lemma WithoutIsVacant(files: Files, path: Path)
    ensures forall p | p in Without(files, path) :: !Within(p, path)
  {
  }

  lemma MoveIgnoresTarget(files: Files, from: Path, to: Path)
    requires from != ROOT && to != ROOT && !Within(from, to) && !Within(to, from)
    ensures MoveFiles(Without(files, to), from, to) == MoveFiles(files, from, to)
  {
    forall q
      ensures Lookup(MoveFiles(Without(files, to), from, to), q) == Lookup(MoveFiles(files, from, to), q)
    {
      MoveLookup(files, from, to, q);
      MoveLookup(Without(files, to), from, to, q);
      if Within(q, to) {
        MovedBack(q, to, from);
        NotInBoth(Moved(q, to, from), from, to);
      }
    }
    SameLookups(MoveFiles(Without(files, to), from, to), MoveFiles(files, from, to));
  }

  /**
   Renaming onto an ancestor with overwrite deletes the ancestor, the source with it, and then finds
   no source to move: the edit fails with the files already gone.
   */
  lemma RenameOntoAncestorFails(base: Files, o: OverlaySnapshot, from: Path, to: Path, overwrite: bool)
    requires WellFormed(base, o) && ParentsPresent(base, o)
    requires RenameChecks(base, o, from, to, overwrite).Ok? && from != to && Within(from, to)
    ensures overwrite && ViewStat(base, o, to) == Ok(Directory)
    ensures ViewStat(base, AfterOverwrite(base, o, to), from).Err? && WellFormed(base, AfterOverwrite(base, o, to))
    ensures Visible(base, AfterOverwrite(base, o, to)) == Without(Visible(base, o), to)
  {
    var ready := AfterOverwrite(base, o, to);
    AfterOverwriteIsReady(base, o, to);
    ViewsAgree(base, o, from);
    ViewsAgree(base, o, to);
    ViewsAgree(base, ready, from);
    AboveVisible(base, o, from, to);
    if IsDirectory(base, to) {
      StatOfTree(base, to);
      assert to in ready.deleted;
      assert Within(from, to);
    }
  }

  /** Above anything visible stands a visible directory. */
  lemma AboveVisible(base: Files, o: OverlaySnapshot, path: Path, above: Path)
    requires WellFormed(base, o) && ParentsPresent(base, o)
    requires ViewStat(base, o, path).Ok? && Under(path, above) && above != ROOT
    ensures ViewStat(base, o, above) == Ok(Directory)
    ensures !o.IsDeleted(above) && (above in o.directories || IsDirectory(base, above))
  {
    ViewsAgree(base, o, path);
    ViewsAgree(base, o, above);
    if path !in o.files && path !in o.directories {
      BaseIsTree(base, o);
      StatOfTree(base, path);
      if path in base {
        assert IsDirectory(base, above);
      } else {
        var f :| f in base && Under(f, path);
        assert Under(f, above);
      }
    }
  }
}
