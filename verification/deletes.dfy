/** Deleting a file or a whole directory, and what that leaves visible. */
module Deletes {
  import opened Wrappers
  import opened Paths
  import opened Repository
  import opened Overlays
  import opened TreeView
  import opened Edits

  /** `deleteFileInternal`. */
  function DeleteFile(base: Files, o: OverlaySnapshot, path: Path): OverlaySnapshot {
    var rest := o.RemoveOverlayPath(path);
    if Stat(base, path) == Ok(File) then rest.MarkDeleted(path) else rest.UnmarkDeleted(path, true)
  }

  /**
   `deleteInternal` of a directory in closed form: the loop over the listing leaves a tombstone for
   every reached base file, and the directory gets one of its own when the base has it.
   */
  ghost function DeleteDirectory(base: Files, o: OverlaySnapshot, path: Path): OverlaySnapshot {
    var rest := o.RemoveOverlayPath(path);
    rest.(deleted := o.deleted
      + (set f | f in ReachedFiles(base, o, path) && Stat(base, f) == Ok(File))
      + (if Stat(base, path) == Ok(Directory) then {path} else {}))
  }

  ghost function Delete(base: Files, o: OverlaySnapshot, path: Path): OverlaySnapshot {
    if ViewStat(base, o, path) == Ok(File) then DeleteFile(base, o, path) else DeleteDirectory(base, o, path)
  }

  /** The file map without the subtree of a path. */
  function Without(files: Files, path: Path): Files {
    map p | p in files && !Within(p, path) :: files[p]
  }

  lemma DeleteFileForm(base: Files, o: OverlaySnapshot, path: Path)
    requires WellFormed(base, o) && path in Visible(base, o)
    ensures var o' := DeleteFile(base, o, path);
      && o'.files == o.files - {path}
      && o'.directories == o.directories
      && o'.deleted == o.deleted + (if path in base then {path} else {})
    ensures forall e | IsEntryPath(base, o, e) && Within(e, path) :: e == path
    ensures path != ROOT
  {
    BaseIsTree(base, o);
    StatOfTree(base, path);
    assert IsFilePath(base, o, path);
    forall e | IsEntryPath(base, o, e) && Within(e, path)
      ensures e == path
    {
    }
    forall t | t in o.deleted
      ensures !Within(path, t)
    {
    }
  }

  lemma DeleteFileRefines(base: Files, o: OverlaySnapshot, path: Path)
    requires WellFormed(base, o) && path in Visible(base, o)
    ensures Visible(base, DeleteFile(base, o, path)) == Without(Visible(base, o), path)
  {
    var o' := DeleteFile(base, o, path);
    DeleteFileForm(base, o, path);
    forall p
      ensures Shows(base, o', p) == if Within(p, path) then None else Shows(base, o, p)
    {
      if IsFilePath(base, o, p) {
        if p == path {
          assert path in base ==> Within(p, path) && path in o'.deleted;
        } else {
          assert !Within(p, path);
          assert o'.IsDeleted(p) <==> o.IsDeleted(p);
        }
      }
    }
    VisibleIs(base, o', Without(Visible(base, o), path));
  }

  lemma DeleteFileKeeps(base: Files, o: OverlaySnapshot, path: Path)
    requires WellFormed(base, o) && path in Visible(base, o)
    ensures WellFormed(base, DeleteFile(base, o, path))
    ensures ParentsPresent(base, o) ==> ParentsPresent(base, DeleteFile(base, o, path))
  {
    var o' := DeleteFile(base, o, path);
    DeleteFileForm(base, o, path);
    forall e | IsEntryPath(base, o, e) && e != path
      ensures o'.IsDeleted(e) <==> o.IsDeleted(e)
    {
      assert !Within(e, path);
    }
    assert KindStable(base, o');
  }

  lemma DeleteDirectoryRefines(base: Files, o: OverlaySnapshot, path: Path)
    requires WellFormed(base, o) && path != ROOT && ViewStat(base, o, path) == Ok(Directory)
    ensures Visible(base, DeleteDirectory(base, o, path)) == Without(Visible(base, o), path)
  {
    var o' := DeleteDirectory(base, o, path);
    BaseIsTree(base, o);
    StatOfTree(base, path);
    ViewsAgree(base, o, path);
    forall p
      ensures Shows(base, o', p) == if Within(p, path) then None else Shows(base, o, p)
    {
      if Within(p, path) {
        if p in base {
          FileIsNotAbove(base, o, p, path);
          assert IsDirectory(base, path);
          assert path in o'.deleted;
        }
      } else {
        TombstonesAddedWithin(base, o, path, p);
      }
    }
    VisibleIs(base, o', Without(Visible(base, o), path));
  }

  /** Deleting a directory adds tombstones in its subtree only. */
  lemma TombstonesAddedWithin(base: Files, o: OverlaySnapshot, path: Path, p: Path)
    requires path != ROOT && !Within(p, path)
    ensures DeleteDirectory(base, o, path).IsDeleted(p) <==> o.IsDeleted(p)
  {
    var o' := DeleteDirectory(base, o, path);
    if o'.IsDeleted(p) {
      var t :| t in o'.deleted && Within(p, t);
      if t !in o.deleted {
        assert Within(t, path);
        WithinTransitive(p, t, path);
      }
    }
  }

  lemma DeleteDirectoryKeeps(base: Files, o: OverlaySnapshot, path: Path)
    requires WellFormed(base, o) && path != ROOT && ViewStat(base, o, path) == Ok(Directory)
    ensures WellFormed(base, DeleteDirectory(base, o, path))
    ensures ParentsPresent(base, o) ==> ParentsPresent(base, DeleteDirectory(base, o, path))
  {
    var o' := DeleteDirectory(base, o, path);
    BaseIsTree(base, o);
    assert KindStable(base, o');
    forall p | p in o'.files || p in o'.directories
      ensures !o'.IsDeleted(p)
    {
      TombstonesAddedWithin(base, o, path, p);
    }
    forall f | f in base && o'.IsDeleted(f)
      ensures f in o'.deleted
    {
      DeletedBaseFile(base, o, path, f);
    }
    forall t | t in o'.deleted
      ensures t != ROOT && (t in base || IsDirectory(base, t))
    {
      StatOfTree(base, t);
    }
    if ParentsPresent(base, o) {
      DeleteDirectoryKeepsParents(base, o, path);
    }
  }

  lemma DeleteDirectoryKeepsParents(base: Files, o: OverlaySnapshot, path: Path)
    requires ParentsPresent(base, o)
    ensures ParentsPresent(base, DeleteDirectory(base, o, path))
  {
    var o' := DeleteDirectory(base, o, path);
    forall p, q | (p in o'.files || p in o'.directories) && Under(p, q) && q != ROOT
      ensures q in o'.directories || IsDirectory(base, q)
    {
      assert !Within(q, path);
    }
  }

  /** A base file hidden by the deletion of a directory was hidden before, or it was listed. */
  lemma DeletedBaseFile(base: Files, o: OverlaySnapshot, path: Path, f: Path)
    requires WellFormed(base, o) && path != ROOT && ViewStat(base, o, path) == Ok(Directory)
    requires f in base && DeleteDirectory(base, o, path).IsDeleted(f)
    ensures f in DeleteDirectory(base, o, path).deleted
  {
    TombstoneOf(base, o, f);
    if !o.IsDeleted(f) {
      if !Within(f, path) {
        TombstonesAddedWithin(base, o, path, f);
      }
      ViewsAgree(base, o, path);
      FileIsNotAbove(base, o, f, path);
      ReachedFilesAreVisible(base, o, path, f);
      BaseIsTree(base, o);
      StatOfTree(base, f);
      assert !Orphan(base, o, path, f) by {
        assert forall q | Under(f, q) :: IsDirectory(base, q);
      }
      assert ReachedAs(base, o, path, f, File);
    }
  }

  /** Deletion removes exactly the subtree from the visible files and keeps the invariant. */
  lemma DeleteRefines(base: Files, o: OverlaySnapshot, path: Path)
    requires WellFormed(base, o) && path != ROOT && ViewStat(base, o, path).Ok?
    ensures Visible(base, Delete(base, o, path)) == Without(Visible(base, o), path)
    ensures WellFormed(base, Delete(base, o, path))
    ensures ParentsPresent(base, o) ==> ParentsPresent(base, Delete(base, o, path))
  {
    ViewsAgree(base, o, path);
    if ViewStat(base, o, path) == Ok(File) {
      DeleteFileRefines(base, o, path);
      DeleteFileKeeps(base, o, path);
    } else {
      DeleteDirectoryRefines(base, o, path);
      DeleteDirectoryKeeps(base, o, path);
    }
  }
}
