/** Reverting one path or one rename pair, and never undoing another deletion with it. */
module Reverts {
  import opened Wrappers
  import opened Paths
  import opened Repository
  import opened Overlays
  import opened TreeView
  import opened Edits
  import opened Deletes
  import opened Renames
  import opened RenamePaths

  /** What a revert drops from the overlay and whose tombstones it clears. */
  function Dropped(o: OverlaySnapshot, path: Path): Path {
    match RemovedRename(o, path).0
    case Some(rename) => rename.to
    case None => path
  }

  function Unmarked(o: OverlaySnapshot, path: Path): Path {
    match RemovedRename(o, path).0
    case Some(rename) => rename.from
    case None => path
  }

  function Revert(o: OverlaySnapshot, path: Path): OverlaySnapshot {
    RemovedRename(o, path).1.RemoveOverlayPath(Dropped(o, path)).UnmarkDeleted(Unmarked(o, path), true)
  }

  /**
   The specification on the flat file map: overlay changes at and below `dropped` are undone without
   bringing back deleted files, and deleted base files at or above `unmarked` come back.
   */
  function RestoreFiles(base: Files, files: Files, dropped: Path, unmarked: Path): Files {
    map p | p in base.Keys + files.Keys &&
      (if p in files && !Within(p, dropped) then true
       else p in base && (p in files || Within(unmarked, p)))
      :: if p in files && !Within(p, dropped) then files[p] else base[p]
  }

  lemma RevertRefines(base: Files, o: OverlaySnapshot, path: Path)
    requires WellFormed(base, o)
    ensures Visible(base, Revert(o, path)) ==
      RestoreFiles(base, Visible(base, o), Dropped(o, path), Unmarked(o, path))
    ensures WellFormed(base, Revert(o, path))
    ensures ParentsPresent(base, o) ==> ParentsPresent(base, Revert(o, path))
  {
    RevertShows(base, o, path);
    RevertIsWellFormed(base, o, path);
  }

  lemma RevertShows(base: Files, o: OverlaySnapshot, path: Path)
    requires WellFormed(base, o)
    ensures Visible(base, Revert(o, path)) ==
      RestoreFiles(base, Visible(base, o), Dropped(o, path), Unmarked(o, path))
  {
    var o', dropped, unmarked := Revert(o, path), Dropped(o, path), Unmarked(o, path);
    var m := RestoreFiles(base, Visible(base, o), dropped, unmarked);
    forall p
      ensures Shows(base, o', p) == Lookup(m, p)
    {
      VisibleShows(base, o, p);
      if IsFilePath(base, o, p) {
        RevertedTombstones(base, o, path, p);
      }
    }
    VisibleIs(base, o', m);
  }

  /** A file stays deleted unless it is the reverted path or above it. */
  lemma RevertedTombstones(base: Files, o: OverlaySnapshot, path: Path, p: Path)
    requires WellFormed(base, o) && IsFilePath(base, o, p)
    ensures Revert(o, path).IsDeleted(p) <==> o.IsDeleted(p) && !Within(Unmarked(o, path), p)
    ensures Revert(o, path).IsDeleted(p) ==> p in Revert(o, path).deleted
  {
    var o', unmarked := Revert(o, path), Unmarked(o, path);
    TombstoneOf(base, o, p);
    if Within(unmarked, p) {
      forall t | t in o'.deleted
        ensures !Within(p, t)
      {
        assert Within(p, t) ==> Within(unmarked, t);
      }
    } else {
      assert Within(p, p);
      assert p in o.deleted ==> p in o'.deleted;
    }
  }

  lemma RevertIsWellFormed(base: Files, o: OverlaySnapshot, path: Path)
    requires WellFormed(base, o)
    ensures WellFormed(base, Revert(o, path))
    ensures ParentsPresent(base, o) ==> ParentsPresent(base, Revert(o, path))
  {
    var o', dropped := Revert(o, path), Dropped(o, path);
    assert forall e | e in o'.files || e in o'.directories :: e in o.files || e in o.directories;
    assert KindStable(base, o');
    forall f | f in base && o'.IsDeleted(f)
      ensures f in o'.deleted
    {
      RevertedTombstones(base, o, path, f);
    }
    if ParentsPresent(base, o) {
      RevertKeepsParents(base, o, path);
    }
  }

  lemma RevertKeepsParents(base: Files, o: OverlaySnapshot, path: Path)
    requires ParentsPresent(base, o)
    ensures ParentsPresent(base, Revert(o, path))
  {
    var o', dropped := Revert(o, path), Dropped(o, path);
    forall p, q | (p in o'.files || p in o'.directories) && Under(p, q) && q != ROOT
      ensures q in o'.directories || IsDirectory(base, q)
    {
      assert !Within(q, dropped);
    }
  }

  /** The deleted base files a revert brings back are those at or above the reverted path, and no other. */
  lemma RevertRestores(base: Files, o: OverlaySnapshot, path: Path, f: Path)
    requires WellFormed(base, o) && f in base && f !in Visible(base, o)
    ensures f in Visible(base, Revert(o, path)) <==> Within(Unmarked(o, path), f)
    ensures f in Visible(base, Revert(o, path)) ==> Visible(base, Revert(o, path))[f] == base[f]
  {
    RevertShows(base, o, path);
  }

  /** A reverted path that is a base file shows the base bytes again, whatever was done to it. */
  lemma RevertedPathShowsBase(base: Files, o: OverlaySnapshot, path: Path)
    requires WellFormed(base, o) && path in base && RemovedRename(o, path).0.None?
    ensures path in Visible(base, Revert(o, path)) && Visible(base, Revert(o, path))[path] == base[path]
    ensures forall p | p != path && !Within(p, path) ::
      Lookup(Visible(base, Revert(o, path)), p) == Lookup(Visible(base, o), p)
  {
    RevertShows(base, o, path);
    forall p | p != path && !Within(p, path)
      ensures Lookup(Visible(base, Revert(o, path)), p) == Lookup(Visible(base, o), p)
    {
      assert p in base ==> !Under(path, p);
    }
  }

  lemma RevertAllShowsBase(base: Files)
    ensures Visible(base, EMPTY) == base
  {
    VisibleIs(base, EMPTY, base);
  }

  // ---------------------------------------------------------------- undoing a rename

  /** The first record whose target is the path. */
  predicate IsFirstRecordTo(renames: seq<Rename>, path: Path, i: nat) {
    i < |renames| && renames[i].to == path && forall k | 0 <= k < i :: renames[k].to != path
  }

  lemma FirstRecordIsUndone(o: OverlaySnapshot, path: Path, i: nat)
    requires IsFirstRecordTo(o.renames, path, i)
    ensures Dropped(o, path) == path && Unmarked(o, path) == o.renames[i].from
  {
    var found := FirstRenameTo(o.renames, path);
    assert o.renames[i] in o.renames;
    if found.value < i || i < found.value {
      assert false;
    }
  }

  /**
   Undoing a rename: nothing of the overlay is left at or below the target, the base files at or above the
   source are there again, and no other path changes, except that the target may show its base bytes.
   */
  lemma RevertUndoesRename(base: Files, o: OverlaySnapshot, path: Path, i: nat, p: Path)
    requires WellFormed(base, o) && IsFirstRecordTo(o.renames, path, i)
    ensures var shown := Lookup(Visible(base, Revert(o, path)), p);
      if Within(p, path) then
        shown == if p in Visible(base, o) || Within(o.renames[i].from, p) then Lookup(base, p) else None
      else if p in base && p !in o.files && Within(o.renames[i].from, p) then shown == Some(base[p])
      else shown == Lookup(Visible(base, o), p)
    ensures forall f | f in Revert(o, path).files :: !Within(f, path)
  {
    FirstRecordIsUndone(o, path, i);
    RevertShows(base, o, path);
    VisibleShows(base, o, p);
  }

  /** Undoing the edits of one path: the same without a record. */
  lemma RevertUndoesEdit(base: Files, o: OverlaySnapshot, path: Path, p: Path)
    requires WellFormed(base, o) && forall r | r in o.renames :: r.to != path
    ensures var shown := Lookup(Visible(base, Revert(o, path)), p);
      if Within(p, path) then shown == if p in Visible(base, o) || p == path then Lookup(base, p) else None
      else if p in base && p !in o.files && Within(path, p) then shown == Some(base[p])
      else shown == Lookup(Visible(base, o), p)
    ensures forall f | f in Revert(o, path).files :: !Within(f, path)
  {
    RevertShows(base, o, path);
    VisibleShows(base, o, p);
  }

  /** An unedited base file and a place that `rename` accepts for it, with nothing there. */
  ghost predicate MovesUnedited(base: Files, o: OverlaySnapshot, from: Path, to: Path) {
    && WellFormed(base, o) && ParentsPresent(base, o)
    && from in base && from in Visible(base, o) && from !in o.files
    && to != ROOT && !Within(to, from)
    && ViewStat(base, o, to).Err? && ViewStat(base, o, Parent(to)) == Ok(Directory)
  }

  /** A visible base file has no tombstone at, above or below it. */
  lemma NoTombstoneAround(base: Files, o: OverlaySnapshot, from: Path, t: Path)
    requires WellFormed(base, o) && from in base && from in Visible(base, o) && t in o.deleted
    ensures !Within(from, t) && !Within(t, from)
  {
    if Under(t, from) {
      var f :| f in base && Within(f, t);
      WithinTransitive(f, t, from);
    }
  }

  lemma VacantTarget(base: Files, o: OverlaySnapshot, from: Path, to: Path)
    requires MovesUnedited(base, o, from, to)
    ensures forall t | t in o.deleted && Within(to, t) :: t == to
    ensures forall f | f in o.files :: !Within(f, to)
    ensures to in base ==> to in o.deleted
  {
    NothingDeletedAbove(base, o, to);
    InvisibleIsVacant(base, o, to);
    if to in base {
      ViewsAgree(base, o, to);
      TombstoneOf(base, o, to);
    }
  }

  lemma RenamedForm(base: Files, o: OverlaySnapshot, from: Path, to: Path, content: Bytes)
    requires MovesUnedited(base, o, from, to)
    ensures var o' := RenameFile(base, o, from, to, content);
      && o'.files == o.files[to := content] && o'.deleted == o.deleted + {from} - {to}
      && o'.renames == RenamesApartFrom(o.renames, from) + [Rename(from, to)]
    ensures forall t | t in o.deleted :: !Within(from, t) && !Within(t, from)
    ensures forall t | t in o.deleted && Within(to, t) :: t == to
    ensures forall f | f in o.files :: !Within(f, to)
    ensures to in base ==> to in o.deleted
  {
    VacantTarget(base, o, from, to);
    forall t | t in o.deleted
      ensures !Within(from, t) && !Within(t, from)
    {
      NoTombstoneAround(base, o, from, t);
    }
    DeleteFileForm(base, o, from);
    DeletedRecords(base, o, from);
    RenamesAbsorb(o.renames, from, from);
    hide WellFormed, ParentsPresent, ViewStat, Stat, IsEntryPath, Visible, DeleteFile, RenamesApartFrom, IsDirectory;
  }

  lemma DeletedRecords(base: Files, o: OverlaySnapshot, path: Path)
    ensures DeleteFile(base, o, path).renames ==
      if Stat(base, path) == Ok(File) then RenamesApartFrom(RenamesApartFrom(o.renames, path), path)
      else RenamesApartFrom(o.renames, path)
  {
  }

  /**
   A rename and its revert are a round trip exactly when the base has no deleted file at the target and the
   first record with that target comes from the source or from below it.
   */
  lemma RenameRoundTripIff(base: Files, o: OverlaySnapshot, from: Path, to: Path, content: Bytes, i: nat)
    requires MovesUnedited(base, o, from, to)
    requires IsFirstRecordTo(RenameFile(base, o, from, to, content).renames, to, i)
    ensures var o' := RenameFile(base, o, from, to, content);
      Visible(base, Revert(o', to)) == Visible(base, o) <==> to !in base && Within(o'.renames[i].from, from)
  {
    var o' := RenameFile(base, o, from, to, content);
    var o'' := Revert(o', to);
    RenamedForm(base, o, from, to, content);
    FirstRecordIsUndone(o', to, i);
    assert Within(from, from) && Within(to, to);
    VisibleShows(base, o'', from);
    VisibleShows(base, o'', to);
    if to !in base && Within(o'.renames[i].from, from) {
      forall p
        ensures Shows(base, o'', p) == Lookup(Visible(base, o), p)
      {
        RoundTripAt(base, o, from, to, content, i, p);
      }
      VisibleIs(base, o'', Visible(base, o));
    }
  }

  lemma RevertForm(o: OverlaySnapshot, path: Path, i: nat)
    requires IsFirstRecordTo(o.renames, path, i)
    ensures Revert(o, path).files == map f | f in o.files && !Within(f, path) :: o.files[f]
    ensures Revert(o, path).deleted == set t | t in o.deleted && !Within(o.renames[i].from, t)
  {
    FirstRecordIsUndone(o, path, i);
  }

  lemma SourceComesBack(deleted: set<Path>, from: Path, to: Path, source: Path)
    requires forall t | t in deleted :: !Within(from, t) && !Within(t, from)
    requires Within(source, from)
    ensures (set t | t in deleted + {from} - {to} && !Within(source, t)) == deleted - {to}
  {
    forall t | t in deleted
      ensures !Within(source, t)
    {
      if Within(source, t) {
        AncestorsAreChain(source, t, from);
      }
    }
  }

  lemma TargetGoes(files: Files, to: Path, content: Bytes)
    requires forall f | f in files :: !Within(f, to)
    ensures (map f | f in files[to := content] && !Within(f, to) :: files[to := content][f]) == files
  {
  }

  /** What the revert leaves: the overlay before the rename, without a tombstone at the target. */
  lemma RoundTripOverlay(base: Files, o: OverlaySnapshot, from: Path, to: Path, content: Bytes, i: nat)
    requires MovesUnedited(base, o, from, to)
    requires var o' := RenameFile(base, o, from, to, content);
      IsFirstRecordTo(o'.renames, to, i) && Within(o'.renames[i].from, from)
    ensures var o'' := Revert(RenameFile(base, o, from, to, content), to);
      o''.files == o.files && o''.deleted == o.deleted - {to}
  {
    var o' := RenameFile(base, o, from, to, content);
    RenamedForm(base, o, from, to, content);
    RevertForm(o', to, i);
    SourceComesBack(o.deleted, from, to, o'.renames[i].from);
    TargetGoes(o.files, to, content);
    hide RenameFile, MovesUnedited, IsFirstRecordTo, Revert, Within;
  }

  lemma RoundTripAt(base: Files, o: OverlaySnapshot, from: Path, to: Path, content: Bytes, i: nat, p: Path)
    requires MovesUnedited(base, o, from, to) && to !in base
    requires var o' := RenameFile(base, o, from, to, content);
      IsFirstRecordTo(o'.renames, to, i) && Within(o'.renames[i].from, from)
    ensures Shows(base, Revert(RenameFile(base, o, from, to, content), to), p) == Lookup(Visible(base, o), p)
  {
    RoundTripOverlay(base, o, from, to, content, i);
    VisibleShows(base, o, p);
    hide RenameFile, Revert;
    if IsFilePath(base, o, p) {
      TombstoneOf(base, o, p);
      assert Within(p, p);
    }
  }

  /** With no older record to the target the record of the rename is the first one. */
  lemma RenameIsUndone(base: Files, o: OverlaySnapshot, from: Path, to: Path, content: Bytes)
    requires MovesUnedited(base, o, from, to) && forall r | r in o.renames :: r.to != to
    ensures Visible(base, Revert(RenameFile(base, o, from, to, content), to)) == Visible(base, o) <==> to !in base
  {
    RenamedForm(base, o, from, to, content);
    var kept := RenamesApartFrom(o.renames, from);
    RecordsKept(o.renames, from);
    RenameRoundTripIff(base, o, from, to, content, |kept|);
  }

  /** One file of a renamed directory comes back from its revert, when no older record has its new path as target. */
  lemma MovedFileComesBack(base: Files, o: OverlaySnapshot, from: Path, to: Path, order: seq<Path>, f: Path)
    requires TargetReady(base, o, from, to)
    requires forall i | 0 <= i < |order| :: from <= order[i]
    requires f in order && f in base && Under(f, from) && forall r | r in o.renames :: r.to != Moved(f, from, to)
    ensures var o' := RenameDirectory(base, o, from, to, order);
      Lookup(Visible(base, Revert(o', Moved(f, from, to))), f) == Some(base[f])
  {
    var o' := RenameDirectory(base, o, from, to, order);
    var q := Moved(f, from, to);
    RecordOfMove(base, o, from, to, order, f);
    assert f !in o'.files by {
      SourceIsEmptied(base, o, from, to, order, f);
    }
    hide RenameDirectory, TargetReady;
    VisibleShows(base, Revert(o', q), f);
  }

  lemma SourceIsEmptied(base: Files, o: OverlaySnapshot, from: Path, to: Path, order: seq<Path>, f: Path)
    requires forall i | 0 <= i < |order| :: from <= order[i]
    requires Within(f, from)
    ensures f !in RenameDirectory(base, o, from, to, order).files
  {
  }

  lemma RecordOfMove(base: Files, o: OverlaySnapshot, from: Path, to: Path, order: seq<Path>, f: Path)
    requires forall i | 0 <= i < |order| :: from <= order[i]
    requires f in order && forall r | r in o.renames :: r.to != Moved(f, from, to)
    ensures var o' := RenameDirectory(base, o, from, to, order); var q := Moved(f, from, to);
      Unmarked(o', q) == f && Dropped(o', q) == q
  {
    var o' := RenameDirectory(base, o, from, to, order);
    var q := Moved(f, from, to);
    var records := RenameRecords(order, from, to);
    var k :| 0 <= k < |order| && order[k] == f;
    assert records[k] == Rename(f, q) && records[k] in o'.renames;
    DeletedRecordsShrink(base, Plant(base, o, from, to), from);
    var first := FirstRenameTo(o'.renames, q).value;
    assert o'.renames[first] in records;
    var m :| 0 <= m < |order| && records[m] == o'.renames[first];
    MovedBack(order[m], from, to);
    MovedBack(f, from, to);
  }

  lemma DeletedRecordsShrink(base: Files, o: OverlaySnapshot, path: Path)
    ensures forall r | r in Delete(base, o, path).renames :: r in o.renames
  {
    DeletedRecords(base, o, path);
    RecordsKept(o.renames, path);
    RecordsKept(RenamesApartFrom(o.renames, path), path);
  }
}
