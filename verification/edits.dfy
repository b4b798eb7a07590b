/**
 The edits of `WorkingTreeMutations` as functions on overlay values, and what they do to the visible
 file map and to the representation invariant.
 */
module Edits {
  import opened Wrappers
  import opened Paths
  import opened Repository
  import opened Overlays
  import opened TreeView

  function RequireDirectory(base: Files, o: OverlaySnapshot, path: Path): Result<()> {
    var kind :- ViewStat(base, o, path);
    if kind == Directory then Ok(()) else Err(InvalidRequest)
  }

  function TryReadBase(base: Files, path: Path): Result<Option<Bytes>> {
    var kind :- TryStat(base, path);
    Ok(if kind == Some(File) then Some(base[path]) else None)
  }

  /** Files are hidden by their own tombstone if they are hidden at all. */
  lemma TombstoneOf(base: Files, o: OverlaySnapshot, path: Path)
    requires WellFormed(base, o) && IsFilePath(base, o, path)
    ensures o.IsDeleted(path) <==> path in o.deleted
  {
    assert Within(path, path);
  }

  /** Below a visible directory only the path itself can carry a tombstone that hides it. */
  lemma NothingDeletedAbove(base: Files, o: OverlaySnapshot, path: Path)
    requires path != ROOT && ViewStat(base, o, Parent(path)) == Ok(Directory)
    ensures forall t | t in o.deleted && Within(path, t) :: t == path
  {
    forall t | t in o.deleted && Within(path, t)
      ensures t == path
    {
      if t != path {
        ParentIsLargestAncestor(path, t);
        assert Within(Parent(path), t);
      }
    }
  }

  lemma NoFileAbove(base: Files, o: OverlaySnapshot, path: Path)
    requires WellFormed(base, o)
    requires path != ROOT && ViewStat(base, o, Parent(path)) == Ok(Directory)
    ensures forall f | IsFilePath(base, o, f) :: !Under(path, f)
  {
    forall f | IsFilePath(base, o, f)
      ensures !Under(path, f)
    {
      if Under(path, f) {
        ParentIsLargestAncestor(path, f);
        assert f != ROOT;
        ViewsAgree(base, o, Parent(path));
        FileIsNotAbove(base, o, f, Parent(path));
      }
    }
  }

  lemma FileIsNotAbove(base: Files, o: OverlaySnapshot, f: Path, directory: Path)
    requires KindStable(base, o) && IsFilePath(base, o, f)
    requires directory in o.directories || IsDirectory(base, directory)
    ensures f != directory && !Under(directory, f)
  {
    if directory in o.directories {
      assert IsEntryPath(base, o, directory);
    } else {
      var g :| g in base && Under(g, directory);
      assert IsEntryPath(base, o, g) && !Under(g, f);
    }
  }

  /** Base files keep their own tombstones when the only tombstone taken away is not above another. */
  lemma TombstonesOwned(base: Files, o: OverlaySnapshot, o': OverlaySnapshot)
    requires WellFormed(base, o)
    requires o'.deleted <= o.deleted
    requires forall t | t in o.deleted && t !in o'.deleted :: !o'.IsDeleted(t)
    ensures forall f | f in base && o'.IsDeleted(f) :: f in o'.deleted
  {
    forall f | f in base && o'.IsDeleted(f)
      ensures f in o'.deleted
    {
      TombstoneOf(base, o, f);
    }
  }

  // ---------------------------------------------------------------- writeFile

  function WriteFile(base: Files, o: OverlaySnapshot, path: Path, content: Bytes, create: bool, overwrite: bool)
    : Result<OverlaySnapshot>
  {
    if path == ROOT then Err(InvalidRequest) else
    var current :- TryViewStat(base, o, path);
    if current.None? && !create then Err(NotFound)
    else if current.Some? && !overwrite then Err(InvalidRequest)
    else if current == Some(Directory) then Err(InvalidRequest)
    else
      var _ :- RequireDirectory(base, o, Parent(path));
      var known :- TryReadBase(base, path);
      Ok(if known == Some(content)
         then o.RemoveOverlayPath(path).UnmarkDeleted(path, true)
         else o.SetFile(path, content))
  }

  /** A successful write touches the path in the files and in the tombstones. */
  lemma WriteFileForm(base: Files, o: OverlaySnapshot, path: Path, content: Bytes, create: bool, overwrite: bool)
    requires WellFormed(base, o)
    requires WriteFile(base, o, path, content, create, overwrite).Ok?
    ensures var o' := WriteFile(base, o, path, content, create, overwrite).value;
      && o'.files == (if path in base && base[path] == content then o.files - {path} else o.files[path := content])
      && o'.directories == o.directories && path !in o.directories
      && o'.deleted == o.deleted - {path}
  {
    var o' := WriteFile(base, o, path, content, create, overwrite).value;
    NothingDeletedAbove(base, o, path);
    BaseIsTree(base, o);
    StatOfTree(base, path);
    ViewsAgree(base, o, path);
    assert path !in o.directories;
    if path in base && base[path] == content {
      forall e | IsEntryPath(base, o, e) && Within(e, path)
        ensures e == path
      {
      }
    }
  }

  /** A write changes the visible bytes of its own path and nothing else. */
  lemma WriteFileRefines(base: Files, o: OverlaySnapshot, path: Path, content: Bytes, create: bool, overwrite: bool)
    requires WellFormed(base, o)
    requires WriteFile(base, o, path, content, create, overwrite).Ok?
    ensures Visible(base, WriteFile(base, o, path, content, create, overwrite).value) ==
      Visible(base, o)[path := content]
  {
    var o' := WriteFile(base, o, path, content, create, overwrite).value;
    WriteFileForm(base, o, path, content, create, overwrite);
    forall p
      ensures Shows(base, o', p) == if p == path then Some(content) else Shows(base, o, p)
    {
      NothingDeletedAbove(base, o, path);
      if p == path {
        assert !o'.IsDeleted(path);
      } else if IsFilePath(base, o, p) {
        TombstoneOf(base, o, p);
        assert Within(p, p);
      }
    }
    VisibleIs(base, o', Visible(base, o)[path := content]);
  }

  /** Writing keeps the invariant exactly when the base has no directory at the path. */
  lemma WriteFileKeeps(base: Files, o: OverlaySnapshot, path: Path, content: Bytes, create: bool, overwrite: bool)
    requires WellFormed(base, o) && ParentsPresent(base, o)
    requires WriteFile(base, o, path, content, create, overwrite).Ok?
    ensures var o' := WriteFile(base, o, path, content, create, overwrite).value;
      && ParentsPresent(base, o')
      && (WellFormed(base, o') <==> !IsDirectory(base, path))
  {
    var o' := WriteFile(base, o, path, content, create, overwrite).value;
    WriteFileForm(base, o, path, content, create, overwrite);
    PresentAbove(base, o, path);
    if IsDirectory(base, path) {
      var f :| f in base && Under(f, path);
      assert IsFilePath(base, o', path) && IsEntryPath(base, o', f);
    } else {
      NothingBelow(base, o, path);
      assert KindStable(base, o');
      NothingDeletedAbove(base, o, path);
      TombstonesOwned(base, o, o');
    }
  }

  /** Writing the base bytes back takes the path out of the overlay: with no other edit the tree is clean again. */
  lemma WriteBackIsClean(base: Files, o: OverlaySnapshot, path: Path, create: bool, overwrite: bool)
    requires WellFormed(base, o) && path in base
    requires WriteFile(base, o, path, base[path], create, overwrite).Ok?
    ensures var o' := WriteFile(base, o, path, base[path], create, overwrite).value;
      && path !in o'.files && path !in o'.deleted
      && (o'.IsEmpty() <==> o.files.Keys <= {path} && o.directories == {} && o.deleted <= {path})
  {
    var o' := WriteFile(base, o, path, base[path], create, overwrite).value;
    WriteFileForm(base, o, path, base[path], create, overwrite);
    assert o'.files == map[] <==> o'.files.Keys == {};
    assert o'.files.Keys == o.files.Keys - {path};
    assert o'.deleted == {} <==> o.deleted <= {path};
  }

  /** Something is still there below a path that shows as a file. */
  ghost predicate StandsBelowFile(base: Files, o: OverlaySnapshot, path: Path) {
    ViewStat(base, o, path) == Ok(File) && exists p :: Under(p, path) && ViewStat(base, o, p).Ok?
  }

  /** A base directory below the path that the path's own tombstone alone hides. */
  predicate HiddenByPathAlone(base: Files, o: OverlaySnapshot, path: Path, directory: Path) {
    && Under(directory, path) && IsDirectory(base, directory)
    && forall t | t in o.deleted && Within(directory, t) :: t == path
  }

  /**
   Writing a file where the base has a directory leaves directories to be found below the file exactly when
   deleting that directory gave some directory below it no tombstone of its own.
   */
  lemma FileAboveDirectoryIff(
      base: Files, o: OverlaySnapshot, path: Path, content: Bytes, create: bool, overwrite: bool)
    requires WellFormed(base, o) && ParentsPresent(base, o)
    requires WriteFile(base, o, path, content, create, overwrite).Ok?
    ensures var o' := WriteFile(base, o, path, content, create, overwrite).value;
      StandsBelowFile(base, o', path) <==> exists d :: HiddenByPathAlone(base, o, path, d)
  {
    var o' := WriteFile(base, o, path, content, create, overwrite).value;
    WriteFileForm(base, o, path, content, create, overwrite);
    BaseIsTree(base, o);
    StatOfTree(base, path);
    forall p | Under(p, path)
      ensures ViewStat(base, o', p).Ok? <==> HiddenByPathAlone(base, o, path, p)
    {
      BelowWrittenFile(base, o, path, content, create, overwrite, p);
    }
    assert !o'.IsDeleted(path) by {
      NothingDeletedAbove(base, o, path);
    }
    assert ViewStat(base, o', path) == Ok(File);
  }

  lemma BelowWrittenFile(
      base: Files, o: OverlaySnapshot, path: Path, content: Bytes, create: bool, overwrite: bool, p: Path)
    requires WellFormed(base, o) && ParentsPresent(base, o)
    requires WriteFile(base, o, path, content, create, overwrite).Ok? && Under(p, path)
    ensures var o' := WriteFile(base, o, path, content, create, overwrite).value;
      ViewStat(base, o', p).Ok? <==> HiddenByPathAlone(base, o, path, p)
  {
    var o' := WriteFile(base, o, path, content, create, overwrite).value;
    WriteFileForm(base, o, path, content, create, overwrite);
    WrittenPathIsVacant(base, o, path, content, create, overwrite);
    hide WellFormed, ParentsPresent, IsEntryPath, Stat;
    BelowClearedPath(base, o, path, o', p);
  }

  /** A file is written over a base directory only after that directory was deleted. */
  lemma WrittenPathIsVacant(base: Files, o: OverlaySnapshot, path: Path, content: Bytes, create: bool, overwrite: bool)
    requires WellFormed(base, o) && ParentsPresent(base, o)
    requires WriteFile(base, o, path, content, create, overwrite).Ok?
    ensures path != ROOT
    ensures if IsDirectory(base, path) then path in o.deleted else forall e | IsEntryPath(base, o, e) :: !Under(e, path)
  {
    NothingDeletedAbove(base, o, path);
    WriteFileForm(base, o, path, content, create, overwrite);
    ViewsAgree(base, o, path);
    if !IsDirectory(base, path) {
      NothingBelow(base, o, path);
    }
  }

  lemma BelowClearedPath(base: Files, o: OverlaySnapshot, path: Path, o': OverlaySnapshot, p: Path)
    requires WellFormed(base, o) && path != ROOT && Under(p, path)
    requires o'.deleted == o.deleted - {path} && o'.directories == o.directories
    requires p in o'.files <==> p in o.files
    requires
      if IsDirectory(base, path) then path in o.deleted else forall e | IsEntryPath(base, o, e) :: !Under(e, path)
    ensures ViewStat(base, o', p).Ok? <==> HiddenByPathAlone(base, o, path, p)
  {
    BaseIsTree(base, o);
    StatOfTree(base, p);
    assert Within(p, path) && Within(p, p);
    if IsDirectory(base, path) {
      assert o.IsDeleted(p);
      if p in base {
        TombstoneOf(base, o, p);
      }
    } else {
      assert forall d | d in base && Under(d, p) :: IsEntryPath(base, o, d) && Under(d, path);
    }
  }

  /** Above a child of a visible directory every directory is present. */
  lemma PresentAbove(base: Files, o: OverlaySnapshot, path: Path)
    requires WellFormed(base, o) && ParentsPresent(base, o)
    requires path != ROOT && ViewStat(base, o, Parent(path)) == Ok(Directory)
    ensures forall q | Under(path, q) && q != ROOT :: q in o.directories || IsDirectory(base, q)
  {
    forall q | Under(path, q) && q != ROOT
      ensures q in o.directories || IsDirectory(base, q)
    {
      ParentIsLargestAncestor(path, q);
      ViewsAgree(base, o, Parent(path));
      if q != Parent(path) && Parent(path) !in o.directories {
        var f :| f in base && Under(f, Parent(path));
        assert Under(f, q);
      }
    }
  }

  /** A path that is no visible directory and no base directory has no entry below it. */
  lemma NothingBelow(base: Files, o: OverlaySnapshot, path: Path)
    requires WellFormed(base, o) && ParentsPresent(base, o)
    requires path != ROOT && path !in o.directories && !IsDirectory(base, path)
    ensures forall e | IsEntryPath(base, o, e) :: !Under(e, path)
  {
  }

  // ---------------------------------------------------------------- createDirectory

  function CreateDirectory(base: Files, o: OverlaySnapshot, path: Path): Result<OverlaySnapshot> {
    if path == ROOT then Err(InvalidRequest) else
    var current :- TryViewStat(base, o, path);
    if current.Some? then Err(InvalidRequest)
    else
      var _ :- RequireDirectory(base, o, Parent(path));
      Ok(o.SetDirectory(path))
  }

  /**
   Creating a directory changes no file, unless the path is a deleted file of the base: then the
   marker clears its tombstone and the deleted bytes are readable again.
   */
  lemma CreateDirectoryRefines(base: Files, o: OverlaySnapshot, path: Path)
    requires WellFormed(base, o) && CreateDirectory(base, o, path).Ok?
    ensures Visible(base, CreateDirectory(base, o, path).value) ==
      if path in base then Visible(base, o)[path := base[path]] else Visible(base, o)
    ensures path !in Visible(base, o)
  {
    var o' := CreateDirectory(base, o, path).value;
    NothingDeletedAbove(base, o, path);
    ViewsAgree(base, o, path);
    forall p
      ensures Shows(base, o', p) == if p == path then Lookup(base, p) else Shows(base, o, p)
    {
      if p == path {
        assert !o'.IsDeleted(path);
      } else if IsFilePath(base, o, p) {
        TombstoneOf(base, o, p);
        assert Within(p, p);
      }
    }
    VisibleIs(base, o', if path in base then Visible(base, o)[path := base[path]] else Visible(base, o));
  }

  lemma CreateDirectoryKeeps(base: Files, o: OverlaySnapshot, path: Path)
    requires WellFormed(base, o) && ParentsPresent(base, o) && CreateDirectory(base, o, path).Ok?
    ensures var o' := CreateDirectory(base, o, path).value;
      && ParentsPresent(base, o')
      && (WellFormed(base, o') <==> path !in base)
  {
    var o' := CreateDirectory(base, o, path).value;
    PresentAbove(base, o, path);
    assert ParentsPresent(base, o');
    if path !in base {
      CreateDirectoryIsWellFormed(base, o, path);
    } else {
      assert IsFilePath(base, o', path);
    }
  }

  lemma CreateDirectoryIsWellFormed(base: Files, o: OverlaySnapshot, path: Path)
    requires WellFormed(base, o) && CreateDirectory(base, o, path).Ok? && path !in base
    ensures WellFormed(base, CreateDirectory(base, o, path).value)
  {
    var o' := CreateDirectory(base, o, path).value;
    NothingDeletedAbove(base, o, path);
    assert !o'.IsDeleted(path);
    TombstonesOwned(base, o, o');
    ViewsAgree(base, o, path);
    assert path !in o.files;
    MarkerIsStable(base, o, path);
  }

  lemma MarkerIsStable(base: Files, o: OverlaySnapshot, path: Path)
    requires WellFormed(base, o) && path != ROOT && ViewStat(base, o, Parent(path)) == Ok(Directory)
    requires !IsFilePath(base, o, path)
    ensures KindStable(base, o.SetDirectory(path))
  {
    NoFileAbove(base, o, path);
  }
}
