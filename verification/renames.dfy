/** Renaming a file or a directory: what is planted at the target, and what the move leaves visible. */
module Renames {
  import opened Wrappers
  import opened Paths
  import opened Repository
  import opened Overlays
  import opened TreeView
  import opened Edits
  import opened Deletes

  /** `renameFile`, the bytes having been read before the source is deleted. */
  function RenameFile(base: Files, o: OverlaySnapshot, from: Path, to: Path, content: Bytes): OverlaySnapshot {
    DeleteFile(base, o, from).SetFile(to, content).AddRename(from, to)
  }

  /** The path is the image of something the listing of the source reaches. */
  ghost predicate PlantedAs(base: Files, o: OverlaySnapshot, from: Path, to: Path, path: Path, kind: Kind) {
    Under(path, to) && ReachedAs(base, o, from, Moved(path, to, from), kind)
  }

  ghost function Planted(base: Files, o: OverlaySnapshot, from: Path, to: Path, kind: Kind): (all: set<Path>)
    ensures forall p :: p in all <==> PlantedAs(base, o, from, to, p, kind)
  {
    var all := set p | p in ReachedSet(base, o, from) && Entry(base, o, p) == Some(kind) :: Moved(p, from, to);
    forall p
      ensures p in all <==> PlantedAs(base, o, from, to, p, kind)
    {
      PlantedIsImage(base, o, from, to, p, kind, all);
    }
    all
  }

  lemma PlantedIsImage(base: Files, o: OverlaySnapshot, from: Path, to: Path, path: Path, kind: Kind, all: set<Path>)
    requires all == set p | p in ReachedSet(base, o, from) && Entry(base, o, p) == Some(kind) :: Moved(p, from, to)
    ensures path in all <==> PlantedAs(base, o, from, to, path, kind)
  {
    if path in all {
      var p :| p in ReachedSet(base, o, from) && Entry(base, o, p) == Some(kind) && path == Moved(p, from, to);
      MovedBack(p, from, to);
    }
    if PlantedAs(base, o, from, to, path, kind) {
      MovedBack(path, to, from);
      assert Moved(path, to, from) in ReachedSet(base, o, from);
    }
  }

  /** The loops of `renameDirectory` before the source is deleted, in closed form. */
  ghost function Plant(base: Files, o: OverlaySnapshot, from: Path, to: Path): OverlaySnapshot {
    var directories, files := Planted(base, o, from, to, Directory), Planted(base, o, from, to, File);
    OverlaySnapshot(
      (o.files - directories - {to}) + (map p | p in files :: Content(base, o, Moved(p, to, from))),
      (o.directories + directories + {to}) - files,
      (set t | t in o.deleted && t !in directories && t != to && forall f | f in files :: !Within(f, t)),
      o.renames)
  }

  function Content(base: Files, o: OverlaySnapshot, path: Path): Bytes {
    match Shows(base, o, path)
    case Some(content) => content
    case None => []
  }

  function RenameRecords(order: seq<Path>, from: Path, to: Path): seq<Rename>
    requires forall i | 0 <= i < |order| :: from <= order[i]
  {
    seq(|order|, i requires 0 <= i < |order| => Rename(order[i], Moved(order[i], from, to)))
  }

  /** `renameDirectory`; the records follow the order of the listing. */
  ghost function RenameDirectory(base: Files, o: OverlaySnapshot, from: Path, to: Path, order: seq<Path>)
    : OverlaySnapshot
    requires forall i | 0 <= i < |order| :: from <= order[i]
  {
    var gone := Delete(base, Plant(base, o, from, to), from);
    gone.(renames := gone.renames + RenameRecords(order, from, to))
  }

  // ---------------------------------------------------------------- files

  lemma SetFileRefines(base: Files, o: OverlaySnapshot, path: Path, content: Bytes)
    requires WellFormed(base, o)
    requires forall t | t in o.deleted && Within(path, t) :: t == path
    ensures Visible(base, o.SetFile(path, content)) == Visible(base, o)[path := content]
    ensures o.SetFile(path, content).deleted == o.deleted - {path}
  {
    var o' := o.SetFile(path, content);
    assert o'.deleted == o.deleted - {path};
    forall p
      ensures Shows(base, o', p) == if p == path then Some(content) else Shows(base, o, p)
    {
      if p == path {
        assert !o'.IsDeleted(path);
      } else if IsFilePath(base, o, p) {
        TombstoneOf(base, o, p);
        assert Within(p, p);
      }
    }
    VisibleIs(base, o', Visible(base, o)[path := content]);
  }

  lemma SetFileKeeps(base: Files, o: OverlaySnapshot, path: Path, content: Bytes)
    requires WellFormed(base, o) && path != ROOT
    requires forall t | t in o.deleted && Within(path, t) :: t == path
    requires path !in o.directories
    requires forall f | IsFilePath(base, o, f) :: !Under(path, f)
    requires forall e | IsEntryPath(base, o, e) :: !Under(e, path)
    ensures WellFormed(base, o.SetFile(path, content))
  {
    var o' := o.SetFile(path, content);
    assert o'.deleted == o.deleted - {path};
    assert !o'.IsDeleted(path);
    assert KindStable(base, o');
    TombstonesOwned(base, o, o');
  }

  /** Nothing of the source is above the target, so the target's surroundings survive the deletion. */
  lemma RenameFileTarget(base: Files, o: OverlaySnapshot, from: Path, to: Path)
    requires WellFormed(base, o) && from in Visible(base, o)
    requires to != ROOT && !Within(to, from)
    requires ViewStat(base, o, Parent(to)) == Ok(Directory)
    ensures forall t | t in DeleteFile(base, o, from).deleted && Within(to, t) :: t == to
  {
    DeleteFileForm(base, o, from);
    NothingDeletedAbove(base, o, to);
  }

  /** Renaming a file moves its bytes to the target and changes no other path. */
  lemma RenameFileRefines(base: Files, o: OverlaySnapshot, from: Path, to: Path, content: Bytes)
    requires WellFormed(base, o) && from in Visible(base, o)
    requires to != ROOT && !Within(to, from)
    requires ViewStat(base, o, Parent(to)) == Ok(Directory)
    ensures Visible(base, RenameFile(base, o, from, to, content)) ==
      (Visible(base, o) - {from})[to := content]
  {
    var o1 := DeleteFile(base, o, from);
    DeleteFileRefines(base, o, from);
    DeleteFileKeeps(base, o, from);
    RenameFileTarget(base, o, from, to);
    SetFileRefines(base, o1, to, content);
    RecordsAreInvisible(base, o1.SetFile(to, content), [Rename(from, to)]);
    VisibleIsTree(base, o);
    WithoutLeaf(Visible(base, o), from);
  }

  lemma WithoutLeaf(files: Files, path: Path)
    requires TreeShaped(files) && path in files
    ensures Without(files, path) == files - {path}
  {
    assert forall p | p in files && Within(p, path) :: p == path;
  }

  /** Rename records do not take part in what is visible. */
  lemma RecordsAreInvisible(base: Files, o: OverlaySnapshot, more: seq<Rename>)
    ensures var o' := o.(renames := o.renames + more);
      && Visible(base, o') == Visible(base, o)
      && (WellFormed(base, o') <==> WellFormed(base, o))
      && (ParentsPresent(base, o') <==> ParentsPresent(base, o))
  {
    var o' := o.(renames := o.renames + more);
    assert forall p :: o'.IsDeleted(p) <==> o.IsDeleted(p);
    assert forall p :: IsFilePath(base, o', p) <==> IsFilePath(base, o, p);
    assert forall p :: IsEntryPath(base, o', p) <==> IsEntryPath(base, o, p);
  }

  lemma RenameFileKeeps(base: Files, o: OverlaySnapshot, from: Path, to: Path, content: Bytes)
    requires WellFormed(base, o) && ParentsPresent(base, o) && from in Visible(base, o)
    requires to != ROOT && !Within(to, from) && to !in o.directories
    requires ViewStat(base, o, Parent(to)) == Ok(Directory)
    ensures ParentsPresent(base, RenameFile(base, o, from, to, content))
    ensures WellFormed(base, RenameFile(base, o, from, to, content)) <==> !IsDirectory(base, to)
  {
    var o1 := DeleteFile(base, o, from);
    DeleteFileKeeps(base, o, from);
    DeleteFileForm(base, o, from);
    RenameFileTarget(base, o, from, to);
    var o2 := o1.SetFile(to, content);
    RecordsAreInvisible(base, o2, [Rename(from, to)]);
    PresentAbove(base, o, to);
    assert ParentsPresent(base, o2);
    if IsDirectory(base, to) {
      var f :| f in base && Under(f, to);
      assert IsFilePath(base, o2, to) && IsEntryPath(base, o2, f);
    } else {
      NothingBelow(base, o, to);
      NoFileAbove(base, o, to);
      EntriesShrink(base, o, o1);
      SetFileKeeps(base, o1, to, content);
    }
  }

  lemma EntriesShrink(base: Files, o: OverlaySnapshot, o': OverlaySnapshot)
    requires o'.files.Keys <= o.files.Keys && o'.directories <= o.directories
    ensures forall p :: IsFilePath(base, o', p) ==> IsFilePath(base, o, p)
    ensures forall p :: IsEntryPath(base, o', p) ==> IsEntryPath(base, o, p)
  {
  }

  // ---------------------------------------------------------------- directories

  /** What `rename` has established for `renameDirectory`: no overlay entry, no visible file is left at the target. */
  ghost predicate TargetReady(base: Files, o: OverlaySnapshot, from: Path, to: Path) {
    && WellFormed(base, o)
    && from != ROOT && ViewStat(base, o, from) == Ok(Directory)
    && to != ROOT && ViewStat(base, o, Parent(to)) == Ok(Directory)
    && !Within(to, from) && !Within(from, to)
    && (forall e | e in o.files || e in o.directories :: !Within(e, to))
    && (forall p | p in Visible(base, o) :: !Within(p, to))
  }

  /** The move gives no path of the base another kind. */
  ghost predicate KindsFit(base: Files, o: OverlaySnapshot, from: Path, to: Path) {
    && DirectoriesFit(base, o, from, to)
    && (forall f | PlantedAs(base, o, from, to, f, File) :: !IsDirectory(base, f))
  }

  ghost predicate DirectoriesFit(base: Files, o: OverlaySnapshot, from: Path, to: Path) {
    && to !in base
    && (forall d | PlantedAs(base, o, from, to, d, Directory) :: d !in base)
  }

  lemma ReachedPrefix(base: Files, o: OverlaySnapshot, directory: Path, path: Path, q: Path)
    requires Reached(base, o, directory, path) && Under(path, q) && Under(q, directory)
    ensures ReachedAs(base, o, directory, q, Directory)
  {
    assert forall r | Under(q, r) && Under(r, directory) :: Under(path, r);
  }

  /** Between the target and anything planted there are only planted directories. */
  lemma PlantedPrefix(base: Files, o: OverlaySnapshot, from: Path, to: Path, path: Path, kind: Kind, q: Path)
    requires PlantedAs(base, o, from, to, path, kind) && Under(path, q) && Under(q, to)
    ensures PlantedAs(base, o, from, to, q, Directory)
  {
    var p', q' := Moved(path, to, from), Moved(q, to, from);
    MovedKeepsOrder(path, q, to, from);
    MovedBack(q, to, from);
    assert from <= q' && q' != from;
    ReachedPrefix(base, o, from, p', q');
  }

  /** A proper ancestor of something planted is planted itself, is the target, or is above the target. */
  lemma AbovePlanted(base: Files, o: OverlaySnapshot, from: Path, to: Path, path: Path, kind: Kind, q: Path)
    requires PlantedAs(base, o, from, to, path, kind) && Under(path, q) && q != ROOT && to != ROOT
    ensures q == to || Under(to, q) || PlantedAs(base, o, from, to, q, Directory)
  {
    AncestorsAreChain(path, q, to);
    if Under(q, to) {
      PlantedPrefix(base, o, from, to, path, kind, q);
    }
  }

  /** The tombstones above everything planted are gone at the end, although the root is cleared after its children. */
  lemma PlantedIsNotDeleted(base: Files, o: OverlaySnapshot, from: Path, to: Path, path: Path)
    requires TargetReady(base, o, from, to)
    requires path == to || PlantedAs(base, o, from, to, path, File) || PlantedAs(base, o, from, to, path, Directory)
    ensures !Plant(base, o, from, to).IsDeleted(path)
  {
    var o' := Plant(base, o, from, to);
    NothingDeletedAbove(base, o, to);
    forall t | t in o'.deleted
      ensures !Within(path, t)
    {
      if Within(path, t) && t != path && path != to {
        var kind :| PlantedAs(base, o, from, to, path, kind);
        AbovePlanted(base, o, from, to, path, kind, t);
      }
    }
  }

  lemma PlantKeepsTombstone(base: Files, o: OverlaySnapshot, from: Path, to: Path, path: Path)
    requires TargetReady(base, o, from, to)
    requires path in base && path in o.deleted && path != to
    requires !PlantedAs(base, o, from, to, path, File) && !PlantedAs(base, o, from, to, path, Directory)
    ensures path in Plant(base, o, from, to).deleted
  {
    forall f | PlantedAs(base, o, from, to, f, File)
      ensures !Within(f, path)
    {
      if Within(f, path) {
        assert path != ROOT;
        AbovePlanted(base, o, from, to, f, File, path);
        NoFileAbove(base, o, to);
        assert IsFilePath(base, o, path);
      }
    }
  }

  /** What the planted state shows at every path. */
  lemma PlantShows(base: Files, o: OverlaySnapshot, from: Path, to: Path, q: Path)
    requires TargetReady(base, o, from, to)
    ensures Shows(base, Plant(base, o, from, to), q) ==
      if PlantedAs(base, o, from, to, q, File) then Some(Content(base, o, Moved(q, to, from)))
      else if q == to || PlantedAs(base, o, from, to, q, Directory) then Lookup(base, q)
      else Shows(base, o, q)
  {
    var o' := Plant(base, o, from, to);
    if q == to || PlantedAs(base, o, from, to, q, File) || PlantedAs(base, o, from, to, q, Directory) {
      PlantedIsNotDeleted(base, o, from, to, q);
    } else {
      assert o'.deleted <= o.deleted;
      assert q in o'.files <==> q in o.files;
      if q in base && o.IsDeleted(q) {
        TombstoneOf(base, o, q);
        PlantKeepsTombstone(base, o, from, to, q);
        assert Within(q, q);
      }
    }
  }

  /** Where the entries of the planted state come from. */
  lemma PlantEntries(base: Files, o: OverlaySnapshot, from: Path, to: Path, e: Path)
    requires TargetReady(base, o, from, to)
    ensures var o' := Plant(base, o, from, to);
      && (e in o'.files <==> PlantedAs(base, o, from, to, e, File) || e in o.files)
      && (e in o'.directories <==> e == to || PlantedAs(base, o, from, to, e, Directory) || e in o.directories)
    ensures PlantedAs(base, o, from, to, e, File) ==> e !in o.directories && e != to
    ensures PlantedAs(base, o, from, to, e, File) ==> !PlantedAs(base, o, from, to, e, Directory)
  {
    assert e in o.files || e in o.directories ==> !Within(e, to);
  }

  lemma PlantedFileIsLeaf(base: Files, o: OverlaySnapshot, from: Path, to: Path, f: Path, e: Path)
    requires TargetReady(base, o, from, to) && KindsFit(base, o, from, to)
    requires PlantedAs(base, o, from, to, f, File)
    requires IsEntryPath(base, Plant(base, o, from, to), e)
    ensures !Under(e, f)
  {
    if Under(e, f) {
      PlantEntries(base, o, from, to, e);
      assert Within(e, to);
      assert e !in base;
      if e !in o.files && e !in o.directories {
        var kind :| PlantedAs(base, o, from, to, e, kind);
        PlantedPrefix(base, o, from, to, e, kind, f);
      }
    }
  }

  lemma OldFileIsLeaf(base: Files, o: OverlaySnapshot, from: Path, to: Path, f: Path, e: Path)
    requires TargetReady(base, o, from, to) && KindsFit(base, o, from, to)
    requires IsFilePath(base, o, f) && IsEntryPath(base, Plant(base, o, from, to), e)
    ensures !Under(e, f)
  {
    PlantEntries(base, o, from, to, e);
    NoFileAbove(base, o, to);
    if Under(e, f) {
      assert f != ROOT;
      assert f in o.files ==> !Within(f, to);
      if e == to {
      } else if kind :| PlantedAs(base, o, from, to, e, kind) {
        AbovePlanted(base, o, from, to, e, kind, f);
      } else {
        assert IsEntryPath(base, o, e);
      }
    }
  }

  lemma PlantIsKindStable(base: Files, o: OverlaySnapshot, from: Path, to: Path)
    requires TargetReady(base, o, from, to) && KindsFit(base, o, from, to)
    ensures KindStable(base, Plant(base, o, from, to))
  {
    var o' := Plant(base, o, from, to);
    forall f | IsFilePath(base, o', f)
      ensures f !in o'.directories
      ensures forall e | IsEntryPath(base, o', e) :: !Under(e, f)
    {
      PlantEntries(base, o, from, to, f);
      forall e | IsEntryPath(base, o', e)
        ensures !Under(e, f)
      {
        if PlantedAs(base, o, from, to, f, File) {
          PlantedFileIsLeaf(base, o, from, to, f, e);
        } else {
          OldFileIsLeaf(base, o, from, to, f, e);
        }
      }
      assert f in o.files ==> !Within(f, to);
    }
    PlantEntries(base, o, from, to, ROOT);
  }

  lemma PlantIsWellFormed(base: Files, o: OverlaySnapshot, from: Path, to: Path)
    requires TargetReady(base, o, from, to) && KindsFit(base, o, from, to)
    ensures WellFormed(base, Plant(base, o, from, to))
  {
    var o' := Plant(base, o, from, to);
    PlantIsKindStable(base, o, from, to);
    forall e | e in o'.files || e in o'.directories
      ensures !o'.IsDeleted(e)
    {
      PlantEntries(base, o, from, to, e);
      if e == to || PlantedAs(base, o, from, to, e, File) || PlantedAs(base, o, from, to, e, Directory) {
        PlantedIsNotDeleted(base, o, from, to, e);
      }
    }
    forall f | f in base && o'.IsDeleted(f)
      ensures f in o'.deleted
    {
      TombstoneOf(base, o, f);
      if f == to || PlantedAs(base, o, from, to, f, File) || PlantedAs(base, o, from, to, f, Directory) {
        PlantedIsNotDeleted(base, o, from, to, f);
      } else {
        PlantKeepsTombstone(base, o, from, to, f);
      }
    }
  }

  lemma PlantKeepsParents(base: Files, o: OverlaySnapshot, from: Path, to: Path)
    requires TargetReady(base, o, from, to) && ParentsPresent(base, o)
    ensures ParentsPresent(base, Plant(base, o, from, to))
  {
    var o' := Plant(base, o, from, to);
    PresentAbove(base, o, to);
    forall p, q | (p in o'.files || p in o'.directories) && Under(p, q) && q != ROOT
      ensures q in o'.directories || IsDirectory(base, q)
    {
      PlantEntries(base, o, from, to, p);
      PlantEntries(base, o, from, to, q);
      if kind :| PlantedAs(base, o, from, to, p, kind) {
        AbovePlanted(base, o, from, to, p, kind, q);
      }
    }
  }

  // ---------------------------------------------------------------- the move of a directory

  /** The specification of a rename on the flat file map. */
  function MoveFiles(files: Files, from: Path, to: Path): Files {
    (map p | p in files && !Within(p, from) && !Within(p, to) :: files[p])
    + (map q | q in (set p | p in files && Within(p, from) :: Moved(p, from, to))
       :: var back := if to <= q then Moved(q, to, from) else q; if back in files then files[back] else [])
  }

  lemma MoveLookup(files: Files, from: Path, to: Path, q: Path)
    requires from != ROOT && to != ROOT && !Within(from, to) && !Within(to, from)
    ensures Lookup(MoveFiles(files, from, to), q) ==
      if Within(q, to) then Lookup(files, Moved(q, to, from))
      else if Within(q, from) then None
      else Lookup(files, q)
  {
    var images := set p | p in files && Within(p, from) :: Moved(p, from, to);
    if Within(q, to) {
      var back := Moved(q, to, from);
      MovedBack(q, to, from);
      if back in files {
        assert q in images;
      } else if q in images {
        var p :| p in files && Within(p, from) && q == Moved(p, from, to);
        MovedBack(p, from, to);
      }
    }
  }

  /** Deleting the source after planting takes its own subtree and nothing of what was planted. */
  lemma DeletedSourceShows(base: Files, o: OverlaySnapshot, from: Path, to: Path, order: seq<Path>, q: Path)
    requires TargetReady(base, o, from, to)
    requires forall i | 0 <= i < |order| :: from <= order[i]
    ensures Shows(base, RenameDirectory(base, o, from, to, order), q) ==
      if Within(q, from) then None else Shows(base, Plant(base, o, from, to), q)
  {
    var planted := Plant(base, o, from, to);
    SourceStaysDirectory(base, o, from, to);
    var gone := DeleteDirectory(base, planted, from);
    assert Delete(base, planted, from) == gone;
    assert RenameDirectory(base, o, from, to, order).IsDeleted(q) <==> gone.IsDeleted(q);
    if Within(q, from) {
      SourceIsHidden(base, o, from, to, q);
    } else {
      TombstonesAddedWithin(base, planted, from, q);
    }
  }

  /** A base file below the source lies below a base directory, which is deleted with its own tombstone. */
  lemma SourceIsHidden(base: Files, o: OverlaySnapshot, from: Path, to: Path, q: Path)
    requires TargetReady(base, o, from, to) && Within(q, from)
    ensures q in base ==> DeleteDirectory(base, Plant(base, o, from, to), from).IsDeleted(q)
  {
    if q in base {
      BaseIsTree(base, o);
      ViewsAgree(base, o, from);
      FileIsNotAbove(base, o, q, from);
      assert Under(q, from);
      StatOfTree(base, from);
      assert from in DeleteDirectory(base, Plant(base, o, from, to), from).deleted;
    }
  }

  /** Everything the final state shows, whatever the kinds and whether or not the listing was complete. */
  lemma RenameDirectoryShows(base: Files, o: OverlaySnapshot, from: Path, to: Path, order: seq<Path>, q: Path)
    requires TargetReady(base, o, from, to)
    requires forall i | 0 <= i < |order| :: from <= order[i]
    ensures Shows(base, RenameDirectory(base, o, from, to, order), q) ==
      if Within(q, to) then
        if PlantedAs(base, o, from, to, q, File) then Shows(base, o, Moved(q, to, from))
        else if q == to || PlantedAs(base, o, from, to, q, Directory) then Lookup(base, q)
        else None
      else if Within(q, from) then None
      else Shows(base, o, q)
  {
    DeletedSourceShows(base, o, from, to, order, q);
    PlantShows(base, o, from, to, q);
    NotInBoth(q, from, to);
    if Within(q, to) {
      VisibleShows(base, o, q);
      if PlantedAs(base, o, from, to, q, File) {
        ReachedFilesAreVisible(base, o, from, Moved(q, to, from));
        VisibleShows(base, o, Moved(q, to, from));
      }
    }
  }

  lemma NotInBoth(q: Path, from: Path, to: Path)
    requires from != ROOT && to != ROOT && !Within(from, to) && !Within(to, from)
    ensures !(Within(q, to) && Within(q, from))
  {
    if Within(q, to) && Within(q, from) {
      AncestorsAreChain(q, to, from);
    }
  }

  lemma SourceStaysDirectory(base: Files, o: OverlaySnapshot, from: Path, to: Path)
    requires TargetReady(base, o, from, to)
    ensures ViewStat(base, Plant(base, o, from, to), from) == Ok(Directory)
  {
    var planted := Plant(base, o, from, to);
    ViewsAgree(base, o, from);
    PlantEntries(base, o, from, to, from);
    assert planted.deleted <= o.deleted && !planted.IsDeleted(from);
    assert !PlantedAs(base, o, from, to, from, File);
  }

  /**
   The move is exact if and only if no orphan lies below the source and neither the target nor a planted
   directory lands on a file of the base, which would come back to life there.
   */
  lemma RenameDirectoryRefines(base: Files, o: OverlaySnapshot, from: Path, to: Path, order: seq<Path>)
    requires TargetReady(base, o, from, to)
    requires forall i | 0 <= i < |order| :: from <= order[i]
    ensures Visible(base, RenameDirectory(base, o, from, to, order)) == MoveFiles(Visible(base, o), from, to)
      <==> DirectoriesFit(base, o, from, to) && forall p :: !Orphan(base, o, from, p)
  {
    var o', m := RenameDirectory(base, o, from, to, order), MoveFiles(Visible(base, o), from, to);
    forall q
      ensures Shows(base, o', q) == Lookup(m, q) <==> LandsWell(base, o, from, to, q)
    {
      RenameDirectoryAt(base, o, from, to, order, q);
    }
    if q :| !LandsWell(base, o, from, to, q) {
      VisibleShows(base, o', q);
    } else {
      VisibleIs(base, o', m);
    }
    LandsWellEverywhere(base, o, from, to);
  }

  /** Nothing goes wrong at one path of the target. */
  ghost predicate LandsWell(base: Files, o: OverlaySnapshot, from: Path, to: Path, q: Path) {
    && (q in base ==> q != to && !PlantedAs(base, o, from, to, q, Directory))
    && !(Within(q, to) && Orphan(base, o, from, Moved(q, to, from)))
  }

  lemma LandsWellEverywhere(base: Files, o: OverlaySnapshot, from: Path, to: Path)
    requires TargetReady(base, o, from, to)
    ensures (forall q :: LandsWell(base, o, from, to, q)) <==>
      DirectoriesFit(base, o, from, to) && forall p :: !Orphan(base, o, from, p)
  {
    if p :| Orphan(base, o, from, p) {
      MovedBack(p, from, to);
      assert !LandsWell(base, o, from, to, Moved(p, from, to));
    } else if !DirectoriesFit(base, o, from, to) {
      var d :| d in base && (d == to || PlantedAs(base, o, from, to, d, Directory));
      assert !LandsWell(base, o, from, to, d);
    }
  }

  lemma RenameDirectoryAt(base: Files, o: OverlaySnapshot, from: Path, to: Path, order: seq<Path>, q: Path)
    requires TargetReady(base, o, from, to)
    requires forall i | 0 <= i < |order| :: from <= order[i]
    ensures
      Shows(base, RenameDirectory(base, o, from, to, order), q) == Lookup(MoveFiles(Visible(base, o), from, to), q)
      <==> LandsWell(base, o, from, to, q)
  {
    hide RenameDirectory, MoveFiles, WellFormed;
    RenameDirectoryShows(base, o, from, to, order, q);
    MoveLookup(Visible(base, o), from, to, q);
    VisibleShows(base, o, q);
    if Within(q, to) {
      var back := Moved(q, to, from);
      MovedBack(q, to, from);
      VisibleShows(base, o, back);
      LandingPlace(base, o, from, to, q);
    }
  }

  /** What stood at the source of one path of the target. */
  lemma LandingPlace(base: Files, o: OverlaySnapshot, from: Path, to: Path, q: Path)
    requires TargetReady(base, o, from, to) && Within(q, to)
    ensures var back := Moved(q, to, from);
      && (PlantedAs(base, o, from, to, q, File) <==> back in Visible(base, o) && !Orphan(base, o, from, back))
      && (q == to || PlantedAs(base, o, from, to, q, Directory) ==> back !in Visible(base, o))
  {
    var back := Moved(q, to, from);
    MovedBack(q, to, from);
    ReachedFilesAreVisible(base, o, from, back);
    ViewsAgree(base, o, from);
    if q != to {
      ViewsAgree(base, o, back);
    }
  }

  lemma RenameDirectoryKeeps(base: Files, o: OverlaySnapshot, from: Path, to: Path, order: seq<Path>)
    requires TargetReady(base, o, from, to)
    requires forall i | 0 <= i < |order| :: from <= order[i]
    ensures WellFormed(base, RenameDirectory(base, o, from, to, order)) <==> KindsFit(base, o, from, to)
    ensures ParentsPresent(base, o) ==> ParentsPresent(base, RenameDirectory(base, o, from, to, order))
  {
    var planted := Plant(base, o, from, to);
    var gone := Delete(base, planted, from);
    RecordsAreInvisible(base, gone, RenameRecords(order, from, to));
    SourceStaysDirectory(base, o, from, to);
    if ParentsPresent(base, o) {
      PlantKeepsParents(base, o, from, to);
      DeleteDirectoryKeepsParents(base, planted, from);
    }
    if KindsFit(base, o, from, to) {
      PlantIsWellFormed(base, o, from, to);
      DeleteRefines(base, planted, from);
    } else {
      MisfitStays(base, o, from, to);
    }
  }

  /** Deleting the source does not touch what was planted. */
  lemma PlantedStays(base: Files, o: OverlaySnapshot, from: Path, to: Path, e: Path)
    requires TargetReady(base, o, from, to) && Within(e, to)
    ensures var planted := Plant(base, o, from, to); var gone := Delete(base, planted, from);
      && (e in planted.files ==> e in gone.files)
      && (e in planted.directories ==> e in gone.directories)
  {
    hide Plant, TargetReady, WellFormed;
    NotInBoth(e, from, to) by {
      assert TargetReady(base, o, from, to);
      TargetApart(base, o, from, to);
    }
  }

  lemma TargetApart(base: Files, o: OverlaySnapshot, from: Path, to: Path)
    requires TargetReady(base, o, from, to)
    ensures from != ROOT && to != ROOT && !Within(from, to) && !Within(to, from)
  {
  }

  /** A planted entry whose base path has the other kind survives the deletion of the source. */
  lemma MisfitStays(base: Files, o: OverlaySnapshot, from: Path, to: Path)
    requires TargetReady(base, o, from, to) && !KindsFit(base, o, from, to)
    ensures !KindStable(base, Delete(base, Plant(base, o, from, to), from))
  {
    var gone := Delete(base, Plant(base, o, from, to), from);
    if f :| PlantedAs(base, o, from, to, f, File) && IsDirectory(base, f) {
      PlantEntries(base, o, from, to, f);
      PlantedStays(base, o, from, to, f);
      var g :| g in base && Under(g, f);
      assert IsFilePath(base, gone, f) && IsEntryPath(base, gone, g);
    } else {
      var d :| d in base && (d == to || PlantedAs(base, o, from, to, d, Directory));
      PlantEntries(base, o, from, to, d);
      PlantedStays(base, o, from, to, d);
      assert IsFilePath(base, gone, d) && d in gone.directories;
    }
  }
}
