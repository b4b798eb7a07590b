/**
 What holds of every edit whatever the kinds of base and overlay: `Sound` is kept, and a tombstone of a
 base file's own is cleared only by an edit that names the file.
 */
module SoundEdits {
  import opened Wrappers
  import opened Paths
  import opened Repository
  import opened Overlays
  import opened TreeView
  import opened Edits
  import opened Deletes
  import opened Renames
  import opened RenamePaths
  import opened Reverts

  /** Nothing comes into the overlay and no tombstone is added. */
  lemma ShrinkingIsSound(base: Files, o: OverlaySnapshot, o': OverlaySnapshot)
    requires Sound(base, o) && o'.files.Keys <= o.files.Keys && o'.deleted <= o.deleted
    ensures Sound(base, o')
  {
  }

  lemma SetFileIsSound(base: Files, o: OverlaySnapshot, path: Path, content: Bytes)
    requires Sound(base, o) && path != ROOT
    ensures Sound(base, o.SetFile(path, content))
  {
  }

  lemma WriteIsSound(base: Files, o: OverlaySnapshot, path: Path, content: Bytes, create: bool, overwrite: bool)
    requires Sound(base, o) && WriteFile(base, o, path, content, create, overwrite).Ok?
    ensures Sound(base, WriteFile(base, o, path, content, create, overwrite).value)
  {
    SetFileIsSound(base, o, path, content);
    ShrinkingIsSound(base, o, o.RemoveOverlayPath(path).UnmarkDeleted(path, true));
  }

  /** Where the tombstones of a deletion are, and that no overlay file is left there. */
  lemma DeleteAdds(base: Files, o: OverlaySnapshot, path: Path)
    requires path != ROOT
    ensures var o' := Delete(base, o, path);
      && (forall f | f in o'.files :: f in o.files && !Within(f, path))
      && (forall t | t in o'.deleted :: t in o.deleted || Within(t, path))
  {
  }

  lemma DeleteIsSound(base: Files, o: OverlaySnapshot, path: Path)
    requires Sound(base, o) && path != ROOT
    ensures Sound(base, Delete(base, o, path))
  {
    var o' := Delete(base, o, path);
    DeleteAdds(base, o, path);
    hide Delete;
    forall f | f in o'.files
      ensures !o'.IsDeleted(f)
    {
      if t :| t in o'.deleted && Within(f, t) {
        assert t !in o.deleted;
        WithinTransitive(f, t, path);
      }
    }
  }

  lemma PlantIsSound(base: Files, o: OverlaySnapshot, from: Path, to: Path)
    requires Sound(base, o)
    ensures Sound(base, Plant(base, o, from, to))
  {
    var o' := Plant(base, o, from, to);
    forall f | f in o'.files
      ensures f != ROOT && !o'.IsDeleted(f)
    {
      assert f in o.files || f in Planted(base, o, from, to, File);
    }
  }

  lemma RenameIsSound(base: Files, o: OverlaySnapshot, from: Path, to: Path, order: seq<Path>)
    requires Sound(base, o) && from != ROOT && to != ROOT
    requires forall i | 0 <= i < |order| :: from <= order[i]
    ensures Sound(base, RenamePaths.Rename(base, o, from, to, order))
  {
    var ready := AfterOverwrite(base, o, to);
    DeleteIsSound(base, o, to);
    if ViewStat(base, o, from) == Ok(File) {
      DeleteFileIsSound(base, ready, from);
      SetFileIsSound(base, DeleteFile(base, ready, from), to, Content(base, ready, from));
    } else {
      PlantIsSound(base, ready, from, to);
      DeleteIsSound(base, Plant(base, ready, from, to), from);
    }
  }

  lemma DeleteFileIsSound(base: Files, o: OverlaySnapshot, path: Path)
    requires Sound(base, o) && path != ROOT
    ensures Sound(base, DeleteFile(base, o, path))
  {
  }

  lemma RevertIsSound(base: Files, o: OverlaySnapshot, path: Path)
    requires Sound(base, o)
    ensures Sound(base, Revert(o, path))
  {
    ShrinkingIsSound(base, o, Revert(o, path));
  }

  // ---------------------------------------------------------------- tombstones that go

  /** A visible path has no tombstone to clear, so deleting it clears none. */
  lemma DeleteClearsNone(base: Files, o: OverlaySnapshot, path: Path)
    requires !o.IsDeleted(path)
    ensures o.deleted <= Delete(base, o, path).deleted
    ensures o.deleted <= DeleteFile(base, o, path).deleted
  {
  }

  lemma WriteClears(base: Files, o: OverlaySnapshot, path: Path, content: Bytes, create: bool, overwrite: bool, t: Path)
    requires WriteFile(base, o, path, content, create, overwrite).Ok?
    requires t in o.deleted && t !in WriteFile(base, o, path, content, create, overwrite).value.deleted
    ensures t == path
  {
    NothingDeletedAbove(base, o, path);
  }

  /** Overwriting the target hides nothing that stands outside it. */
  lemma OverwriteHides(base: Files, o: OverlaySnapshot, to: Path, path: Path)
    requires to != ROOT && !o.IsDeleted(path) && !Within(path, to)
    ensures !AfterOverwrite(base, o, to).IsDeleted(path)
  {
    var ready := AfterOverwrite(base, o, to);
    DeleteAdds(base, o, to);
    hide Delete;
    if t :| t in ready.deleted && Within(path, t) {
      assert Within(t, to);
      WithinTransitive(path, t, to);
    }
  }

  lemma NothingHiddenAboveTarget(base: Files, o: OverlaySnapshot, to: Path)
    requires to != ROOT && ViewStat(base, o, Parent(to)) == Ok(Directory)
    ensures forall t | t in AfterOverwrite(base, o, to).deleted && Within(to, t) :: t == to
  {
    NothingDeletedAbove(base, o, to);
    DeleteAdds(base, o, to);
    hide Delete;
    forall t | t in AfterOverwrite(base, o, to).deleted && Within(to, t)
      ensures t == to
    {
      assert t in o.deleted || Within(t, to);
    }
  }

  /** Whatever is planted clears tombstones at or below the target only. */
  lemma PlantClears(base: Files, o: OverlaySnapshot, from: Path, to: Path, t: Path)
    requires t in o.deleted && t !in Plant(base, o, from, to).deleted
    requires Within(to, t) ==> t == to
    ensures Within(t, to) || to == ROOT
  {
    if t != to && to != ROOT && t !in Planted(base, o, from, to, Directory) {
      var f :| f in Planted(base, o, from, to, File) && Within(f, t);
      AncestorsAreChain(f, t, to);
    }
  }

  lemma RenameClears(
      base: Files, o: OverlaySnapshot, from: Path, to: Path, overwrite: bool, order: seq<Path>, t: Path)
    requires RenameChecks(base, o, from, to, overwrite).Ok? && from != to && !Within(from, to)
    requires forall i | 0 <= i < |order| :: from <= order[i]
    requires t in o.deleted && t !in RenamePaths.Rename(base, o, from, to, order).deleted
    ensures Within(t, to)
  {
    var ready := AfterOverwrite(base, o, to);
    if !o.IsDeleted(to) {
      DeleteClearsNone(base, o, to);
    }
    OverwriteHides(base, o, to, from);
    NothingDeletedAbove(base, o, to);
    hide Delete, Plant;
    if ViewStat(base, o, from) == Ok(File) {
      DeleteClearsNone(base, ready, from);
    } else {
      var planted := Plant(base, ready, from, to);
      assert planted.deleted <= ready.deleted by {
        PlantedTombstones(base, ready, from, to);
      }
      DeleteClearsNone(base, planted, from);
      PlantClears(base, ready, from, to, t);
    }
  }

  lemma PlantedTombstones(base: Files, o: OverlaySnapshot, from: Path, to: Path)
    ensures Plant(base, o, from, to).deleted <= o.deleted
  {
  }

  // ---------------------------------------------------------------- deleted without a tombstone

  /** The path has no tombstone of its own and is hidden by that of a directory above it. */
  predicate Loose(o: OverlaySnapshot, f: Path) {
    o.IsDeleted(f) && f !in o.deleted
  }

  /** The overlay has a directory in the place of the file, or a file above it. */
  ghost predicate Misfit(o: OverlaySnapshot, f: Path) {
    f in o.directories || exists q | q in o.files :: Under(f, q)
  }

  /** Clearing the tombstones at and above a path leaves nothing loose that was not. */
  lemma ClearingIsNotLoose(o: OverlaySnapshot, path: Path, f: Path)
    requires !Loose(o, f)
    ensures !Loose(o.UnmarkDeleted(path, true), f)
  {
    var o' := o.UnmarkDeleted(path, true);
    if t :| f in o.deleted && f !in o'.deleted && t in o'.deleted && Within(f, t) {
      WithinTransitive(path, f, t);
      assert false;
    }
  }

  /** A base file that a deletion hides is listed and gets its own tombstone, unless the overlay misfits. */
  lemma LooseByDelete(base: Files, o: OverlaySnapshot, path: Path, f: Path)
    requires Sound(base, o) && path != ROOT && ViewStat(base, o, path).Ok? && f in base
    requires !Loose(o, f) && Loose(Delete(base, o, path), f)
    ensures !o.IsDeleted(f) && Within(f, path) && Misfit(o, f)
  {
    var o' := Delete(base, o, path);
    DeleteClearsNone(base, o, path);
    var t :| t in o'.deleted && Within(f, t);
    if !o.IsDeleted(f) {
      assert t !in o.deleted;
      StatOfTree(base, t);
      StatOfTree(base, f);
      assert Within(f, path);
      if !Misfit(o, f) {
        HiddenFileIsReached(base, o, path, f);
      }
    }
  }

  lemma HiddenFileIsReached(base: Files, o: OverlaySnapshot, path: Path, f: Path)
    requires Sound(base, o) && ViewStat(base, o, path) == Ok(Directory) && f in base && Within(f, path)
    requires !o.IsDeleted(f) && !Misfit(o, f)
    ensures f in ReachedFiles(base, o, path)
  {
    StatOfTree(base, f);
    StatOfTree(base, Parent(f));
    assert f != path;
    assert Under(f, Parent(f));
    forall q | Under(f, q) && Under(q, path)
      ensures Entry(base, o, q) == Some(Directory)
    {
      StatOfTree(base, Parent(q));
      assert Under(f, Parent(q));
    }
  }

  lemma NotLooseByDeleteFile(base: Files, o: OverlaySnapshot, path: Path, f: Path)
    requires Sound(base, o) && path != ROOT && !o.IsDeleted(path) && f in base && !Loose(o, f)
    ensures !Loose(DeleteFile(base, o, path), f)
  {
    var o' := DeleteFile(base, o, path);
    StatOfTree(base, path);
    DeleteClearsNone(base, o, path);
    if t :| f !in o'.deleted && t in o'.deleted && Within(f, t) {
      assert false;
    }
  }

  /** Planting clears a tombstone only together with those above it. */
  lemma NotLooseByPlant(base: Files, o: OverlaySnapshot, from: Path, to: Path, f: Path)
    requires to != ROOT && !Loose(o, f)
    requires forall t | t in o.deleted && Within(to, t) :: t == to
    ensures !Loose(Plant(base, o, from, to), f)
  {
    var o' := Plant(base, o, from, to);
    PlantedTombstones(base, o, from, to);
    if t :| f in o.deleted && f !in o'.deleted && t in o'.deleted && Within(f, t) {
      PlantClears(base, o, from, to, f);
      ClearedAbove(base, o, from, to, f, t);
      assert false;
    }
  }

  lemma ClearedAbove(base: Files, o: OverlaySnapshot, from: Path, to: Path, f: Path, t: Path)
    requires f in o.deleted && f !in Plant(base, o, from, to).deleted && t in o.deleted
    requires Within(f, t) && Within(f, to) && to != ROOT && (Within(to, t) ==> t == to)
    ensures t !in Plant(base, o, from, to).deleted
  {
    AncestorsAreChain(f, t, to);
    if t != to && t != f {
      if f in Planted(base, o, from, to, Directory) {
        PlantedPrefix(base, o, from, to, f, Directory, t);
      } else if f != to {
        var p :| p in Planted(base, o, from, to, File) && Within(p, f);
        WithinTransitive(p, f, t);
      }
    }
  }

  lemma LooseByRename(
      base: Files, o: OverlaySnapshot, from: Path, to: Path, overwrite: bool, order: seq<Path>, f: Path)
    requires Sound(base, o) && f in base && !Loose(o, f)
    requires RenameChecks(base, o, from, to, overwrite).Ok? && from != to && !Within(from, to)
    requires forall i | 0 <= i < |order| :: from <= order[i]
    requires Loose(RenamePaths.Rename(base, o, from, to, order), f)
    ensures !o.IsDeleted(f) && Misfit(o, f)
  {
    var ready := AfterOverwrite(base, o, to);
    if Loose(ready, f) {
      LooseByDelete(base, o, to, f);
    } else {
      OverwriteHides(base, o, to, from);
      DeleteIsSound(base, o, to);
      if ViewStat(base, o, from) == Ok(File) {
        NotLooseByDeleteFile(base, ready, from, f);
        ClearingIsNotLoose(DeleteFile(base, ready, from), to, f);
        assert false;
      } else {
        LooseByMove(base, o, from, to, overwrite, order, f);
      }
    }
  }

  lemma LooseByMove(
      base: Files, o: OverlaySnapshot, from: Path, to: Path, overwrite: bool, order: seq<Path>, f: Path)
    requires Sound(base, o) && f in base && !Loose(AfterOverwrite(base, o, to), f)
    requires RenameChecks(base, o, from, to, overwrite).Ok? && from != to && !Within(from, to)
    requires ViewStat(base, o, from) == Ok(Directory)
    requires Loose(Delete(base, Plant(base, AfterOverwrite(base, o, to), from, to), from), f)
    ensures !o.IsDeleted(f) && Misfit(o, f)
  {
    var ready := AfterOverwrite(base, o, to);
    var planted := Plant(base, ready, from, to);
    MoveStarts(base, o, from, to, overwrite);
    hide Delete, AfterOverwrite, Plant, ViewStat, Sound;
    NotLooseByPlant(base, ready, from, to, f);
    LooseByDelete(base, planted, from, f);
    NotInBoth(f, from, to);
    SourceWasThere(base, o, from, to, f);
    if ready.IsDeleted(f) {
      SourceStaysHidden(base, ready, from, to, f);
    }
  }

  lemma MoveStarts(base: Files, o: OverlaySnapshot, from: Path, to: Path, overwrite: bool)
    requires Sound(base, o)
    requires RenameChecks(base, o, from, to, overwrite).Ok? && from != to && !Within(from, to)
    requires ViewStat(base, o, from) == Ok(Directory)
    ensures var ready := AfterOverwrite(base, o, to); var planted := Plant(base, ready, from, to);
      && Sound(base, planted) && ViewStat(base, planted, from).Ok?
      && o.deleted <= ready.deleted && forall t | t in ready.deleted && Within(to, t) :: t == to
    ensures from != ROOT && to != ROOT && !Within(to, from)
  {
    var ready := AfterOverwrite(base, o, to);
    var planted := Plant(base, ready, from, to);
    if !o.IsDeleted(to) {
      DeleteClearsNone(base, o, to);
    }
    DeleteIsSound(base, o, to);
    PlantIsSound(base, ready, from, to);
    OverwriteHides(base, o, to, from);
    PlantedTombstones(base, ready, from, to);
    assert !planted.IsDeleted(from);
    NothingHiddenAboveTarget(base, o, to);
    OverwriteKeepsMarkers(base, o, to, from);
    hide Delete;
    assert from in ready.directories ==> from in planted.directories;
  }

  lemma OverwriteKeepsMarkers(base: Files, o: OverlaySnapshot, to: Path, path: Path)
    requires !Within(path, to)
    ensures path in AfterOverwrite(base, o, to).directories <==> path in o.directories
    ensures path in AfterOverwrite(base, o, to).files <==> path in o.files
  {
  }

  /** Outside the target the planted state holds what was there before. */
  lemma SourceWasThere(base: Files, o: OverlaySnapshot, from: Path, to: Path, f: Path)
    requires to != ROOT && !Within(f, to) && Misfit(Plant(base, AfterOverwrite(base, o, to), from, to), f)
    ensures Misfit(o, f)
  {
    var ready := AfterOverwrite(base, o, to);
    var planted := Plant(base, ready, from, to);
    hide AfterOverwrite;
    forall q | q in planted.files && Under(f, q)
      ensures q in o.files
    {
      assert q in ready.files;
      OverwriteKeepsMarkers(base, o, to, q);
    }
    OverwriteKeepsMarkers(base, o, to, f);
  }

  /** What was hidden outside the target stays hidden. */
  lemma SourceStaysHidden(base: Files, o: OverlaySnapshot, from: Path, to: Path, f: Path)
    requires to != ROOT && !Within(f, to) && o.IsDeleted(f)
    requires forall t | t in o.deleted && Within(to, t) :: t == to
    ensures Plant(base, o, from, to).IsDeleted(f)
  {
    var t :| t in o.deleted && Within(f, t);
    if t !in Plant(base, o, from, to).deleted {
      PlantClears(base, o, from, to, t);
      WithinTransitive(f, t, to);
      assert false;
    }
  }

  // ---------------------------------------------------------------- what an edit leaves alone

  /** Both overlays hide the path or neither, and they hold the same file there or none. */
  predicate SameAt(o: OverlaySnapshot, o': OverlaySnapshot, p: Path) {
    && (o'.IsDeleted(p) <==> o.IsDeleted(p))
    && Lookup(o'.files, p) == Lookup(o.files, p)
  }

  lemma WrittenIsRead(base: Files, o: OverlaySnapshot, path: Path, content: Bytes, create: bool, overwrite: bool)
    requires TreeShaped(base) && WriteFile(base, o, path, content, create, overwrite).Ok?
    ensures Lookup(Visible(base, WriteFile(base, o, path, content, create, overwrite).value), path) == Some(content)
  {
    StatOfTree(base, path);
  }

  lemma DeleteStaysLocal(base: Files, o: OverlaySnapshot, path: Path, p: Path)
    requires path != ROOT && !o.IsDeleted(path) && !Within(p, path)
    ensures SameAt(o, Delete(base, o, path), p)
  {
    var o' := Delete(base, o, path);
    DeleteAdds(base, o, path);
    DeleteClearsNone(base, o, path);
    if t :| t in o'.deleted && Within(p, t) && t !in o.deleted {
      WithinTransitive(p, t, path);
      assert false;
    }
  }

  lemma DeletedFileStaysLocal(base: Files, o: OverlaySnapshot, path: Path, p: Path)
    requires path != ROOT && !o.IsDeleted(path) && !Within(p, path)
    ensures SameAt(o, DeleteFile(base, o, path), p)
  {
    DeleteClearsNone(base, o, path);
  }

  lemma PlantStaysLocal(base: Files, o: OverlaySnapshot, from: Path, to: Path, p: Path)
    requires to != ROOT && !Within(p, to) && forall t | t in o.deleted && Within(to, t) :: t == to
    ensures SameAt(o, Plant(base, o, from, to), p)
  {
    PlantedTombstones(base, o, from, to);
    if o.IsDeleted(p) {
      SourceStaysHidden(base, o, from, to, p);
    }
  }

  lemma RenameStaysLocal(
      base: Files, o: OverlaySnapshot, from: Path, to: Path, overwrite: bool, order: seq<Path>, p: Path)
    requires RenameChecks(base, o, from, to, overwrite).Ok? && from != to && !Within(from, to)
    requires forall i | 0 <= i < |order| :: from <= order[i]
    requires !Within(p, from) && !Within(p, to)
    ensures SameAt(o, RenamePaths.Rename(base, o, from, to, order), p)
  {
    var ready := AfterOverwrite(base, o, to);
    if ViewStat(base, o, to).Ok? {
      DeleteStaysLocal(base, o, to, p);
    }
    OverwriteHides(base, o, to, from);
    NothingHiddenAboveTarget(base, o, to);
    hide Delete, Plant;
    if ViewStat(base, o, from) == Ok(File) {
      DeletedFileStaysLocal(base, ready, from, p);
    } else {
      PlantStaysLocal(base, ready, from, to, p);
      PlantedTombstones(base, ready, from, to);
      DeleteStaysLocal(base, Plant(base, ready, from, to), from, p);
    }
  }
}
