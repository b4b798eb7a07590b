/** The working tree as the program runs it: one overlay object, edited in place over a pinned base. */
module WorkingTrees {
  import opened Wrappers
  import opened Paths
  import opened Repository
  import opened Overlays
  import opened TreeView
  import opened Edits
  import opened Deletes
  import opened Renames
  import opened RenamePaths
  import opened Reverts
  import opened Traversal
  import opened ChangeSets
  import opened Rebases
  import opened FixtureFiles
  import opened CommitChanges

  ghost predicate DeleteAllowed(base: Files, o: OverlaySnapshot, path: Path, recursive: bool) {
    match ViewStat(base, o, path)
    case Ok(File) => true
    case Ok(Directory) => (recursive || ReachedSet(base, o, path) == {}) && WithinBudget(base, o, path)
    case Err(_) => false
  }

  /** Part of a listing has been deleted; what removing the whole subtree leaves is not affected by it. */
  ghost predicate PartlyDeleted(base: Files, o: OverlaySnapshot, o': OverlaySnapshot, path: Path, done: set<Path>) {
    && o'.RemoveOverlayPath(path).(deleted := {}) == o.RemoveOverlayPath(path).(deleted := {})
    && o'.deleted == o.deleted + set f | f in done && Stat(base, f) == Ok(File)
  }

  lemma RemoveAbsorbs(o: OverlaySnapshot, below: Path, path: Path)
    requires Within(below, path)
    ensures o.RemoveOverlayPath(below).RemoveOverlayPath(path) == o.RemoveOverlayPath(path)
  {
    RenamesAbsorb(o.renames, below, path);
  }

  /** Deleting one listed file: its own tombstone is the only one that changes. */
  lemma DeleteListedFile(base: Files, o: OverlaySnapshot, o': OverlaySnapshot, path: Path, done: set<Path>, f: Path)
    requires PartlyDeleted(base, o, o', path, done) && path != ROOT
    requires done <= ReachedFiles(base, o, path) && f in ReachedFiles(base, o, path) && f !in done
    ensures PartlyDeleted(base, o, DeleteFile(base, o', f), path, done + {f})
  {
    var next := DeleteFile(base, o', f);
    RemoveAbsorbs(o', f, path);
    RemoveAbsorbs(o'.RemoveOverlayPath(f), f, path);
    forall t | t in o'.deleted
      ensures !Within(f, t)
    {
      if t !in o.deleted && Under(f, t) {
        ReachedPrefix(base, o, path, f, t);
      }
    }
    assert next.deleted == o'.deleted + if Stat(base, f) == Ok(File) then {f} else {};
    assert next.RemoveOverlayPath(path).(deleted := {}) == o'.RemoveOverlayPath(path).(deleted := {});
  }

  lemma DeletedAll(base: Files, o: OverlaySnapshot, o': OverlaySnapshot, path: Path)
    requires PartlyDeleted(base, o, o', path, ReachedFiles(base, o, path))
    ensures DeleteDirectory(base, o, path) ==
      if Stat(base, path) == Ok(Directory) then o'.RemoveOverlayPath(path).MarkDeleted(path)
      else o'.RemoveOverlayPath(path)
  {
    RemoveAbsorbs(o', path, path);
    assert (set f | f in ReachedFiles(base, o, path) && Stat(base, f) == Ok(File))
        == set f | f in ReachedFiles(base, o, path) && Stat(base, f) == Ok(File);
  }

  lemma NoEntries(base: Files, o: OverlaySnapshot, directory: Path, entries: map<Name, Kind>)
    requires EntriesOf(base, o, directory, entries)
    ensures entries == map[] <==> ReachedSet(base, o, directory) == {}
  {
    if p :| Reached(base, o, directory, p) {
      ReachedHasEntry(base, o, directory, p);
      assert p[|directory|] in entries;
    }
    if n :| n in entries {
      ReachedFromChild(base, o, directory, Child(directory, n));
      assert Child(directory, n)[..|directory| + 1] == Child(directory, n);
      assert Child(directory, n) in ReachedSet(base, o, directory);
    }
  }

  /** Every path of the view can be looked up in the base. */
  lemma ListedAreStatable(base: Files, o: OverlaySnapshot, p: Path)
    requires KindStable(base, o) && p != ROOT && ViewStat(base, o, p).Ok?
    ensures TryStat(base, p).Ok?
  {
    ViewsAgree(base, o, p);
    BaseIsTree(base, o);
    StatOfTree(base, p);
    if Parent(p) in base {
      assert Under(p, Parent(p));
      assert p in o.files || p in o.directories || p in base ==> IsEntryPath(base, o, p);
    }
  }

  lemma DeleteLoopSucceeds(base: Files, o: OverlaySnapshot, path: Path, files: seq<Path>)
    requires KindStable(base, o) && Lists(files, ReachedFiles(base, o, path))
    ensures forall f | f in files :: TryStat(base, f).Ok?
  {
    forall f | f in files
      ensures TryStat(base, f).Ok?
    {
      assert f in ReachedFiles(base, o, path);
      ViewsAgree(base, o, f);
      ListedAreStatable(base, o, f);
    }
  }

  /** The effect of `setDirectory` on several paths. */
  function SetDirectories(o: OverlaySnapshot, paths: set<Path>): OverlaySnapshot {
    o.(files := o.files - paths, directories := o.directories + paths, deleted := o.deleted - paths)
  }

  /** The effect of `setFile` on several paths. */
  function SetFiles(o: OverlaySnapshot, files: map<Path, Bytes>): OverlaySnapshot {
    o.(files := o.files + files,
       directories := o.directories - files.Keys,
       deleted := set t | t in o.deleted && forall f | f in files :: !Within(f, t))
  }

  lemma SetOneMoreFile(o: OverlaySnapshot, files: map<Path, Bytes>, path: Path, content: Bytes)
    ensures SetFiles(o, files).SetFile(path, content) == SetFiles(o, files[path := content])
  {
    var a, b := SetFiles(o, files).SetFile(path, content), SetFiles(o, files[path := content]);
    forall t
      ensures t in a.deleted <==> t in b.deleted
    {
      assert (forall f | f in files[path := content] :: !Within(f, t)) <==>
        !Within(path, t) && forall f | f in files :: !Within(f, t) by {
        assert path in files[path := content];
        assert forall f | f in files :: f in files[path := content];
      }
    }
    assert a.files == b.files;
    assert a.directories == b.directories;
  }

  lemma PlantInSteps(
      base: Files, o: OverlaySnapshot, from: Path, to: Path, directories: set<Path>, files: map<Path, Bytes>)
    requires directories == Planted(base, o, from, to, Directory) + {to}
    requires files.Keys == Planted(base, o, from, to, File)
    requires forall p | p in files :: files[p] == Content(base, o, Moved(p, to, from))
    ensures SetFiles(SetDirectories(o, directories), files) == Plant(base, o, from, to)
  {
    PlantTombstones(base, o, from, to, directories, files.Keys);
    PlantedContents(base, o, from, to, files);
    var a, b := SetFiles(SetDirectories(o, directories), files), Plant(base, o, from, to);
    hide Planted, Content, Moved;
    assert a.files == b.files;
    assert a.directories == b.directories;
  }

  lemma PlantTombstones(base: Files, o: OverlaySnapshot, from: Path, to: Path, directories: set<Path>, files: set<Path>)
    requires directories == Planted(base, o, from, to, Directory) + {to}
    requires files == Planted(base, o, from, to, File)
    ensures Plant(base, o, from, to).deleted ==
      set t | t in o.deleted - directories && forall f | f in files :: !Within(f, t)
  {
    hide Planted;
  }

  lemma PlantedContents(base: Files, o: OverlaySnapshot, from: Path, to: Path, files: map<Path, Bytes>)
    requires files.Keys == Planted(base, o, from, to, File)
    requires forall p | p in files :: files[p] == Content(base, o, Moved(p, to, from))
    ensures files == map p | p in Planted(base, o, from, to, File) :: Content(base, o, Moved(p, to, from))
  {
  }

  /** The images of a listing are what is planted. */
  lemma ImagesArePlanted(base: Files, o: OverlaySnapshot, from: Path, to: Path, list: seq<Path>, kind: Kind)
    requires Lists(list, OfKind(base, o, ReachedSet(base, o, from), kind))
    ensures forall i | 0 <= i < |list| :: from <= list[i]
    ensures forall q :: q in Planted(base, o, from, to, kind) <==>
      exists i :: 0 <= i < |list| && from <= list[i] && q == Moved(list[i], from, to)
  {
    forall i | 0 <= i < |list|
      ensures from <= list[i] && PlantedAs(base, o, from, to, Moved(list[i], from, to), kind)
    {
      assert list[i] in list;
      MovedBack(list[i], from, to);
    }
    forall q | q in Planted(base, o, from, to, kind)
      ensures exists i :: 0 <= i < |list| && from <= list[i] && q == Moved(list[i], from, to)
    {
      var back := Moved(q, to, from);
      MovedBack(q, to, from);
      assert back in list;
      var i :| 0 <= i < |list| && list[i] == back;
      assert from <= list[i];
    }
  }

  /** Planting the target leaves the listing of the source as it was. */
  lemma PlantKeepsSource(base: Files, o: OverlaySnapshot, from: Path, to: Path, q: Path)
    requires TargetReady(base, o, from, to) && Under(q, from)
    ensures Entry(base, Plant(base, o, from, to), q) == Entry(base, o, q)
  {
    var o' := Plant(base, o, from, to);
    NotInBoth(q, from, to);
    PlantEntries(base, o, from, to, q);
    if o.IsDeleted(q) && !o'.IsDeleted(q) {
      var t :| t in o.deleted && Within(q, t);
      assert t !in o'.deleted;
      NothingDeletedAbove(base, o, to);
      if f :| PlantedAs(base, o, from, to, f, File) && Within(f, t) {
        AncestorsAreChain(f, t, to);
        assert Within(t, to) || t == to;
      }
      assert Within(t, to);
      WithinTransitive(q, t, to);
    }
  }

  lemma PlantKeepsReach(base: Files, o: OverlaySnapshot, from: Path, to: Path)
    requires TargetReady(base, o, from, to)
    ensures ReachedSet(base, Plant(base, o, from, to), from) == ReachedSet(base, o, from)
    ensures WithinBudget(base, Plant(base, o, from, to), from) <==> WithinBudget(base, o, from)
  {
    var o' := Plant(base, o, from, to);
    forall q | Under(q, from)
      ensures Entry(base, o', q) == Entry(base, o, q)
    {
      PlantKeepsSource(base, o, from, to, q);
    }
    hide Entry, Plant, TargetReady;
    forall p
      ensures Reached(base, o', from, p) <==> Reached(base, o, from, p)
      ensures Walked(base, o', from, p) <==> Walked(base, o, from, p)
    {
    }
    assert ReachedSet(base, o', from) == ReachedSet(base, o, from);
  }

  ghost predicate Below(order: seq<Path>, from: Path) {
    forall i | 0 <= i < |order| :: from <= order[i]
  }

  /** The outcome of a directory rename, for some order of the listing. */
  ghost predicate DirectoryRenamed(base: Files, o: OverlaySnapshot, o': OverlaySnapshot, from: Path, to: Path) {
    exists order :: Below(order, from) && Lists(order, ReachedFiles(base, o, from))
      && o' == RenameDirectory(base, o, from, to, order)
  }

  lemma ReachedFileShows(base: Files, o: OverlaySnapshot, directory: Path, f: Path)
    requires f in ReachedFiles(base, o, directory)
    ensures Shows(base, o, f) == Some(Content(base, o, f))
  {
  }

  /** When a rename goes through: its checks, and the traversal budget for what it deletes and moves. */
  ghost predicate RenameAllowed(base: Files, o: OverlaySnapshot, from: Path, to: Path, overwrite: bool) {
    && RenameChecks(base, o, from, to, overwrite).Ok?
    && (from == to ||
         (&& !Within(from, to)
          && (ViewStat(base, o, to).Ok? ==> DeleteAllowed(base, o, to, true))
          && (ViewStat(base, o, from) == Ok(Directory) ==> WithinBudget(base, o, from))))
  }

  /** The outcome of a successful rename, for some order of the listing. */
  ghost predicate RenamedTo(base: Files, o: OverlaySnapshot, o': OverlaySnapshot, from: Path, to: Path) {
    exists order :: Below(order, from)
      && (from != to && ViewStat(base, o, from) != Ok(File) ==>
            Lists(order, ReachedFiles(base, AfterOverwrite(base, o, to), from)))
      && o' == RenamePaths.Rename(base, o, from, to, order)
  }

  lemma OverwriteKeepsBudget(base: Files, o: OverlaySnapshot, from: Path, to: Path)
    requires WellFormed(base, o) && from != ROOT && to != ROOT && !Within(from, to) && !Within(to, from)
    ensures WithinBudget(base, AfterOverwrite(base, o, to), from) <==> WithinBudget(base, o, from)
  {
    var o' := AfterOverwrite(base, o, to);
    forall p
      ensures Reached(base, o', from, p) <==> Reached(base, o, from, p)
      ensures Walked(base, o', from, p) <==> Walked(base, o, from, p)
    {
      OverwriteKeepsReach(base, o, from, to, p);
    }
    assert ReachedSet(base, o', from) == ReachedSet(base, o, from);
  }

  /** With fitting kinds everything is ready for the move once the target is out of the way. */
  lemma ReadyToMove(base: Files, o: OverlaySnapshot, from: Path, to: Path, overwrite: bool)
    requires WellFormed(base, o) && ParentsPresent(base, o) && RenameFits(base, o, from, to)
    requires RenameChecks(base, o, from, to, overwrite).Ok? && from != to && !Within(from, to)
    ensures var ready := AfterOverwrite(base, o, to);
      && (ViewStat(base, o, from) == Ok(Directory) ==>
            && TargetReady(base, ready, from, to) && KindsFit(base, ready, from, to)
            && (WithinBudget(base, ready, from) <==> WithinBudget(base, o, from)))
      && (ViewStat(base, o, from) == Ok(File) ==> from in Visible(base, ready) && TryStat(base, from).Ok?)
  {
    var ready := AfterOverwrite(base, o, to);
    AfterOverwriteIsReady(base, o, to);
    OverwriteKeepsStat(base, o, to, from);
    OverwriteKeepsStat(base, o, to, Parent(to));
    if ViewStat(base, o, from) == Ok(Directory) {
      OverwriteKeepsFit(base, o, from, to);
      OverwriteKeepsBudget(base, o, from, to);
      WithoutIsVacant(Visible(base, o), to);
    } else {
      ViewsAgree(base, ready, from);
      ListedAreStatable(base, o, from);
    }
  }

  // ---------------------------------------------------------------- the rebase in place

  method RebaseFiles(revision: Files, overlay: Overlay) returns (r: Result<()>)
    modifies overlay`files
    ensures r.Ok? <==> forall f | f in old(overlay.files) :: TryStat(revision, f).Ok?
    ensures r.Ok? ==> overlay.files == Rebase(revision, old(overlay.Snapshot())).files
  {
    ghost var was := overlay.files;
    var pending := overlay.files.Keys;
    while pending != {}
      invariant pending <= was.Keys && pending <= overlay.files.Keys <= was.Keys
      invariant forall f | f in overlay.files :: overlay.files[f] == was[f]
      invariant forall f | f in was.Keys - pending ::
        TryStat(revision, f).Ok? && (f in overlay.files <==> !FileIsPublished(revision, f, was[f]))
      decreases |pending|
    {
      var file :| file in pending;
      var stat := TryStat(revision, file);
      if stat.Err? {
        return Err(stat.code);
      }
      if stat.value == Some(File) && Lookup(revision, file) == Some(overlay.files[file]) {
        overlay.RemoveFileEntry(file);
      }
      pending := pending - {file};
    }
    return Ok(());
  }

  method RebaseDirectories(revision: Files, overlay: Overlay) returns (r: Result<()>)
    modifies overlay`directories
    ensures r.Ok? <==> forall d | d in old(overlay.directories) :: TryStat(revision, d).Ok?
    ensures r.Ok? ==> overlay.directories == Rebase(revision, old(overlay.Snapshot())).directories
  {
    ghost var was := overlay.directories;
    var pending := overlay.directories;
    while pending != {}
      invariant pending <= was
      invariant overlay.directories == set d | d in was && (d in pending || Stat(revision, d) != Ok(Directory))
      invariant forall d | d in was - pending :: TryStat(revision, d).Ok?
      decreases |pending|
    {
      var directory :| directory in pending;
      var stat := TryStat(revision, directory);
      if stat.Err? {
        return Err(stat.code);
      }
      if stat.value == Some(Directory) {
        overlay.RemoveDirectoryMarker(directory);
      }
      pending := pending - {directory};
    }
    return Ok(());
  }

  method RebaseTombstones(revision: Files, overlay: Overlay) returns (r: Result<()>)
    modifies overlay`deletedPaths
    ensures r.Ok? <==> forall t | t in old(overlay.deletedPaths) :: TryStat(revision, t).Ok?
    ensures r.Ok? ==> overlay.deletedPaths == Rebase(revision, old(overlay.Snapshot())).deleted
  {
    ghost var was := overlay.deletedPaths;
    var pending := overlay.deletedPaths;
    while pending != {}
      invariant pending <= was
      invariant overlay.deletedPaths == set t | t in was && (t in pending || Stat(revision, t) != Err(NotFound))
      invariant forall t | t in was - pending :: TryStat(revision, t).Ok?
      decreases |pending|
    {
      var tombstone :| tombstone in pending;
      var stat := TryStat(revision, tombstone);
      if stat.Err? {
        return Err(stat.code);
      }
      if stat.value.None? {
        overlay.UnmarkDeleted(tombstone, false);
      }
      pending := pending - {tombstone};
    }
    return Ok(());
  }

  /** Both ends of the record can be looked up in the revision. */
  predicate Answers(revision: Files, rename: Rename) {
    TryStat(revision, rename.from).Ok? && TryStat(revision, rename.to).Ok?
  }

  method RebaseRenames(revision: Files, overlay: Overlay) returns (r: Result<()>)
    modifies overlay`renames
    ensures r.Ok? <==> forall rename | rename in old(overlay.renames) :: Answers(revision, rename)
    ensures r.Ok? ==> overlay.renames == UnpublishedRenames(revision, old(overlay.renames))
  {
    hide UnpublishedRenames, WithoutFirst, Answers, RenameIsPublished;
    var list := overlay.renames;
    ghost var kept: seq<Rename> := [];
    RecordStart(revision, list);
    for i := 0 to |list|
      invariant kept == UnpublishedRenames(revision, list[..i]) && overlay.renames == kept + list[i..]
      invariant forall k | 0 <= k < i :: Answers(revision, list[k])
    {
      RecordStep(revision, list, i, kept);
      r := RebaseRename(revision, overlay, list[i]);
      if r.Err? {
        return;
      }
      kept := if RenameIsPublished(revision, list[i]) then kept else kept + [list[i]];
    }
    return Ok(());
  }

  method RebaseRename(revision: Files, overlay: Overlay, rename: Rename) returns (r: Result<()>)
    modifies overlay`renames
    ensures r.Ok? <==> Answers(revision, rename)
    ensures overlay.renames ==
      if r.Ok? && RenameIsPublished(revision, rename) then WithoutFirst(old(overlay.renames), rename)
      else old(overlay.renames)
  {
    hide WithoutFirst, Stat;
    var source := TryStat(revision, rename.from);
    if source.Err? {
      return Err(source.code);
    }
    var target := TryStat(revision, rename.to);
    if target.Err? {
      return Err(target.code);
    }
    if source.value.None? && target.value.Some? {
      overlay.RemoveRename(rename);
    }
    return Ok(());
  }

  lemma RecordStart(revision: Files, list: seq<Rename>)
    ensures UnpublishedRenames(revision, list[..0]) == [] && [] + list[0..] == list
    ensures list[..|list|] == list
  {
  }

  lemma RecordStep(revision: Files, list: seq<Rename>, i: nat, kept: seq<Rename>)
    requires i < |list| && kept == UnpublishedRenames(revision, list[..i])
    ensures UnpublishedRenames(revision, list[..i + 1]) ==
      if RenameIsPublished(revision, list[i]) then kept else kept + [list[i]]
    ensures kept + list[i..] == (kept + [list[i]]) + list[i + 1..]
    ensures RenameIsPublished(revision, list[i]) ==>
      WithoutFirst(kept + list[i..], list[i]) == kept + list[i + 1..]
  {
    assert list[..i + 1][..i] == list[..i];
    assert kept + list[i..] == (kept + [list[i]]) + list[i + 1..];
    if RenameIsPublished(revision, list[i]) {
      KeptRecordsDiffer(revision, list[..i], list[i]);
      WithoutFirstAt(kept, list[i], list[i + 1..]);
    }
  }

  lemma {:induction false} KeptRecordsDiffer(revision: Files, renames: seq<Rename>, rename: Rename)
    requires RenameIsPublished(revision, rename)
    ensures rename !in UnpublishedRenames(revision, renames)
  {
    if renames != [] {
      KeptRecordsDiffer(revision, renames[..|renames| - 1], rename);
    }
  }

  /** `rebaseOverlayAfterPartialPublish`: the first refused `stat` ends it. */
  method RebaseOverlayAfterPartialPublish(revision: Files, overlay: Overlay) returns (r: Result<()>)
    modifies overlay
    ensures r.Ok? <==> TryRebase(revision, old(overlay.Snapshot())).Ok?
    ensures r.Ok? ==> overlay.Snapshot() == Rebase(revision, old(overlay.Snapshot()))
  {
    ghost var was := overlay.Snapshot();
    r := RebaseFiles(revision, overlay);
    if r.Ok? {
      r := RebaseDirectories(revision, overlay);
    }
    if r.Ok? {
      r := RebaseTombstones(revision, overlay);
    }
    if r.Ok? {
      r := RebaseRenames(revision, overlay);
    }
    RebaseAsks(revision, was);
  }

  lemma RebaseAsks(revision: Files, o: OverlaySnapshot)
    ensures TryRebase(revision, o).Ok? <==>
      && (forall f | f in o.files :: TryStat(revision, f).Ok?)
      && (forall d | d in o.directories :: TryStat(revision, d).Ok?)
      && (forall t | t in o.deleted :: TryStat(revision, t).Ok?)
      && (forall rename | rename in o.renames ::
            TryStat(revision, rename.from).Ok? && TryStat(revision, rename.to).Ok?)
  {
    forall p | p in o.files || p in o.directories || p in o.deleted
      ensures Asked(o, p)
    {
    }
    forall rename | rename in o.renames
      ensures Asked(o, rename.from) && Asked(o, rename.to)
    {
    }
  }

  class WorkingTree {
    const overlay: Overlay
    var baseRevision: RevisionId
    /** The files of the base revision, as every read of it answers. */
    var base: Files

    constructor (revision: RevisionId, files: Files, snapshot: OverlaySnapshot)
      ensures baseRevision == revision && base == files && fresh(overlay) && overlay.Snapshot() == snapshot
    {
      var o := new Overlay.FromSnapshot(snapshot);
      overlay := o;
      baseRevision := revision;
      base := files;
    }

    method WriteFile(path: Path, content: Bytes, create: bool, overwrite: bool) returns (r: Result<()>)
      modifies overlay
      ensures var spec := Edits.WriteFile(base, old(overlay.Snapshot()), path, content, create, overwrite);
        && r.Ok? == spec.Ok? && (r.Err? ==> r.code == spec.code)
        && overlay.Snapshot() == if spec.Ok? then spec.value else old(overlay.Snapshot())
    {
      if path == ROOT {
        return Err(InvalidRequest);
      }
      var current := TryViewStat(base, overlay.Snapshot(), path);
      if current.Err? {
        return Err(current.code);
      }
      if current.value.None? && !create {
        return Err(NotFound);
      }
      if current.value.Some? && !overwrite {
        return Err(InvalidRequest);
      }
      if current.value == Some(Directory) {
        return Err(InvalidRequest);
      }
      var parent := RequireDirectory(base, overlay.Snapshot(), Parent(path));
      if parent.Err? {
        return parent;
      }
      var known := TryReadBase(base, path);
      if known.Err? {
        return Err(known.code);
      }
      if known.value == Some(content) {
        overlay.RemoveOverlayPath(path);
        overlay.UnmarkDeleted(path, true);
      } else {
        overlay.SetFile(path, content);
      }
      return Ok(());
    }

    method CreateDirectory(path: Path) returns (r: Result<()>)
      modifies overlay
      ensures var spec := Edits.CreateDirectory(base, old(overlay.Snapshot()), path);
        && r.Ok? == spec.Ok? && (r.Err? ==> r.code == spec.code)
        && overlay.Snapshot() == if spec.Ok? then spec.value else old(overlay.Snapshot())
    {
      if path == ROOT {
        return Err(InvalidRequest);
      }
      var current := TryViewStat(base, overlay.Snapshot(), path);
      if current.Err? {
        return Err(current.code);
      }
      if current.value.Some? {
        return Err(InvalidRequest);
      }
      var parent := RequireDirectory(base, overlay.Snapshot(), Parent(path));
      if parent.Err? {
        return parent;
      }
      overlay.SetDirectory(path);
      return Ok(());
    }

    method DeleteFileInternal(path: Path) returns (r: Result<()>)
      modifies overlay
      ensures r.Ok? <==> TryStat(base, path).Ok?
      ensures r.Err? ==> r.code == TryStat(base, path).code
      ensures overlay.Snapshot() ==
        if r.Ok? then DeleteFile(base, old(overlay.Snapshot()), path) else old(overlay.Snapshot())
    {
      var known := TryStat(base, path);
      if known.Err? {
        return Err(known.code);
      }
      overlay.RemoveOverlayPath(path);
      if known.value == Some(File) {
        overlay.MarkDeleted(path);
      } else {
        overlay.UnmarkDeleted(path, true);
      }
      return Ok(());
    }

    /** The loop over the listing of a directory. */
    method DeleteListed(path: Path, files: seq<Path>) returns (r: Result<()>)
      requires path != ROOT && Lists(files, ReachedFiles(base, overlay.Snapshot(), path))
      modifies overlay
      ensures r.Ok? ==> PartlyDeleted(base, old(overlay.Snapshot()), overlay.Snapshot(), path,
                                      ReachedFiles(base, old(overlay.Snapshot()), path))
      ensures r.Ok? <==> forall f | f in files :: TryStat(base, f).Ok?
    {
      ghost var was := overlay.Snapshot();
      ghost var done: set<Path> := {};
      assert PartlyDeleted(base, was, was, path, {});
      for i := 0 to |files|
        invariant done == set k | 0 <= k < i :: files[k]
        invariant done <= ReachedFiles(base, was, path)
        invariant PartlyDeleted(base, was, overlay.Snapshot(), path, done)
        invariant forall k | 0 <= k < i :: TryStat(base, files[k]).Ok?
      {
        assert files[i] in files && files[i] !in done;
        DeleteListedFile(base, was, overlay.Snapshot(), path, done, files[i]);
        r := DeleteFileInternal(files[i]);
        if r.Err? {
          return;
        }
        done := done + {files[i]};
      }
      assert done == ReachedFiles(base, was, path);
      return Ok(());
    }

    method DeleteInternal(path: Path, recursive: bool) returns (r: Result<()>)
      requires path != ROOT && TreeShaped(base)
      modifies overlay
      ensures r.Ok? ==> overlay.Snapshot() == Deletes.Delete(base, old(overlay.Snapshot()), path)
      ensures KindStable(base, old(overlay.Snapshot())) ==>
        && (r.Ok? <==> DeleteAllowed(base, old(overlay.Snapshot()), path, recursive))
        && (r.Err? ==> overlay.Snapshot() == old(overlay.Snapshot()))
    {
      ghost var was := overlay.Snapshot();
      var stat := ViewStat(base, overlay.Snapshot(), path);
      if stat.Err? {
        return Err(stat.code);
      }
      if stat.value == File {
        if KindStable(base, was) {
          ListedAreStatable(base, was, path);
        }
        r := DeleteFileInternal(path);
        return;
      }
      r := DeleteDirectoryInternal(path, recursive);
    }

    method DeleteDirectoryInternal(path: Path, recursive: bool) returns (r: Result<()>)
      requires path != ROOT && TreeShaped(base) && ViewStat(base, overlay.Snapshot(), path) == Ok(Directory)
      modifies overlay
      ensures r.Ok? ==> overlay.Snapshot() == DeleteDirectory(base, old(overlay.Snapshot()), path)
      ensures KindStable(base, old(overlay.Snapshot())) ==>
        && (r.Ok? <==> DeleteAllowed(base, old(overlay.Snapshot()), path, recursive))
        && (r.Err? ==> overlay.Snapshot() == old(overlay.Snapshot()))
    {
      ghost var was := overlay.Snapshot();
      if KindStable(base, was) {
        ListedAreStatable(base, was, path);
      }
      var entries := ReadDirectory(base, overlay.Snapshot(), path);
      if entries.Err? {
        return Err(entries.code);
      }
      NoEntries(base, was, path, entries.value);
      if !recursive && entries.value != map[] {
        return Err(InvalidRequest);
      }
      var files := ListVisibleFiles(base, overlay.Snapshot(), path);
      if files.Err? {
        return Err(files.code);
      }
      if KindStable(base, was) {
        DeleteLoopSucceeds(base, was, path, files.value);
      }
      r := DeleteListed(path, files.value);
      if r.Err? {
        return;
      }
      DeletedAll(base, was, overlay.Snapshot(), path);
      overlay.RemoveOverlayPath(path);
      if Stat(base, path) == Ok(Directory) {
        overlay.MarkDeleted(path);
      }
    }

    method Delete(path: Path, recursive: bool) returns (r: Result<()>)
      requires TreeShaped(base)
      modifies overlay
      ensures r.Ok? ==> path != ROOT && overlay.Snapshot() == Deletes.Delete(base, old(overlay.Snapshot()), path)
      ensures KindStable(base, old(overlay.Snapshot())) ==>
        && (r.Ok? <==> path != ROOT && DeleteAllowed(base, old(overlay.Snapshot()), path, recursive))
        && (r.Err? ==> overlay.Snapshot() == old(overlay.Snapshot()))
    {
      if path == ROOT {
        return Err(InvalidRequest);
      }
      r := DeleteInternal(path, recursive);
    }

    method Revert(path: Path)
      modifies overlay
      ensures overlay.Snapshot() == Reverts.Revert(old(overlay.Snapshot()), path)
    {
      var rename := overlay.RemoveRenameTo(path);
      if rename.Some? {
        overlay.RemoveOverlayPath(rename.value.to);
        overlay.UnmarkDeleted(rename.value.from, true);
        return;
      }
      overlay.RemoveOverlayPath(path);
      overlay.UnmarkDeleted(path, true);
    }

    method RevertAll()
      modifies overlay
      ensures overlay.Snapshot() == EMPTY
    {
      overlay.Clear();
    }

    method RenameFileInternal(from: Path, to: Path) returns (r: Result<()>)
      modifies overlay
      ensures r.Ok? ==> from in Visible(base, old(overlay.Snapshot()))
      ensures var was := old(overlay.Snapshot());
        r.Ok? ==> overlay.Snapshot() == RenameFile(base, was, from, to, Content(base, was, from))
      ensures r.Err? ==> overlay.Snapshot() == old(overlay.Snapshot())
      ensures from in Visible(base, old(overlay.Snapshot())) && TryStat(base, from).Ok? ==> r.Ok?
    {
      var content := Shows(base, overlay.Snapshot(), from);
      if content.None? {
        return Err(NotFound);
      }
      r := DeleteFileInternal(from);
      if r.Err? {
        return;
      }
      overlay.SetFile(to, content.value);
      overlay.AddRename(from, to);
    }

    /** A full publication leaves nothing local. */
    method AcceptPublishedRevision(revision: RevisionId, files: Files)
      modifies this, overlay
      ensures baseRevision == revision && base == files && overlay.Snapshot() == EMPTY
    {
      baseRevision := revision;
      base := files;
      overlay.Clear();
    }

    /** The rebase is made on a copy, so that a failure changes neither base nor overlay. */
    method AcceptPartiallyPublishedRevision(revision: RevisionId, files: Files) returns (r: Result<()>)
      modifies this, overlay
      ensures r.Ok? <==> TryRebase(files, old(overlay.Snapshot())).Ok?
      ensures r.Ok? ==> baseRevision == revision && base == files
      ensures r.Ok? ==> overlay.Snapshot() == Rebase(files, old(overlay.Snapshot()))
      ensures r.Err? ==> baseRevision == old(baseRevision) && base == old(base)
      ensures r.Err? ==> overlay.Snapshot() == old(overlay.Snapshot())
    {
      var rebased := new Overlay.FromSnapshot(overlay.Snapshot());
      r := RebaseOverlayAfterPartialPublish(files, rebased);
      if r.Err? {
        return;
      }
      baseRevision := revision;
      base := files;
      overlay.Restore(rebased.Snapshot());
    }

    method RebindCleanBase(revision: RevisionId, files: Files) returns (r: Result<()>)
      modifies this
      ensures r.Ok? <==> overlay.Snapshot().IsEmpty()
      ensures if r.Ok? then baseRevision == revision && base == files
              else baseRevision == old(baseRevision) && base == old(base)
    {
      if !overlay.Snapshot().IsEmpty() {
        return Err(InvalidRequest);
      }
      baseRevision := revision;
      base := files;
      return Ok(());
    }

    /** The two planting loops of `renameDirectory`. */
    method PlantTarget(from: Path, to: Path, directories: seq<Path>, files: seq<Path>, contents: seq<Bytes>)
      requires Lists(directories, ReachedDirectories(base, overlay.Snapshot(), from))
      requires Lists(files, ReachedFiles(base, overlay.Snapshot(), from))
      requires |contents| == |files|
      requires forall i | 0 <= i < |files| :: contents[i] == Content(base, overlay.Snapshot(), files[i])
      modifies overlay
      ensures overlay.Snapshot() == Plant(base, old(overlay.Snapshot()), from, to)
    {
      ghost var was := overlay.Snapshot();
      ImagesArePlanted(base, was, from, to, directories, Directory);
      ImagesArePlanted(base, was, from, to, files, File);
      PlantDirectories(from, to, directories);
      overlay.SetDirectory(to);
      ghost var roots := (set i | 0 <= i < |directories| :: Moved(directories[i], from, to)) + {to};
      assert overlay.Snapshot() == SetDirectories(was, roots);
      ghost var planted := PlantFiles(from, to, files, contents);
      forall q | q in planted
        ensures planted[q] == Content(base, was, Moved(q, to, from))
      {
        var i :| 0 <= i < |files| && q == Moved(files[i], from, to) && planted[q] == contents[i];
        MovedBack(files[i], from, to);
      }
      assert roots == Planted(base, was, from, to, Directory) + {to};
      assert planted.Keys == Planted(base, was, from, to, File);
      PlantInSteps(base, was, from, to, roots, planted);
    }

    method PlantDirectories(from: Path, to: Path, directories: seq<Path>)
      requires forall i | 0 <= i < |directories| :: from <= directories[i]
      modifies overlay
      ensures overlay.Snapshot() ==
        SetDirectories(old(overlay.Snapshot()), set i | 0 <= i < |directories| :: Moved(directories[i], from, to))
    {
      ghost var was := overlay.Snapshot();
      for i := 0 to |directories|
        invariant overlay.Snapshot() ==
          SetDirectories(was, set k | 0 <= k < i :: Moved(directories[k], from, to))
      {
        overlay.SetDirectory(Moved(directories[i], from, to));
      }
    }

    method PlantFiles(from: Path, to: Path, files: seq<Path>, contents: seq<Bytes>)
      returns (ghost planted: map<Path, Bytes>)
      requires |contents| == |files| && forall i | 0 <= i < |files| :: from <= files[i]
      modifies overlay
      ensures overlay.Snapshot() == SetFiles(old(overlay.Snapshot()), planted)
      ensures forall q :: q in planted <==> exists i :: 0 <= i < |files| && q == Moved(files[i], from, to)
      ensures forall q | q in planted ::
        exists i :: 0 <= i < |files| && q == Moved(files[i], from, to) && planted[q] == contents[i]
    {
      ghost var was := overlay.Snapshot();
      planted := map[];
      for i := 0 to |files|
        invariant overlay.Snapshot() == SetFiles(was, planted)
        invariant forall q :: q in planted <==> exists k :: 0 <= k < i && q == Moved(files[k], from, to)
        invariant forall q | q in planted ::
          exists k :: 0 <= k < i && q == Moved(files[k], from, to) && planted[q] == contents[k]
      {
        SetOneMoreFile(was, planted, Moved(files[i], from, to), contents[i]);
        overlay.SetFile(Moved(files[i], from, to), contents[i]);
        planted := planted[Moved(files[i], from, to) := contents[i]];
      }
    }

    /** The bytes are read before the overlay is changed. */
    method ReadContents(files: seq<Path>, ghost directory: Path) returns (contents: seq<Bytes>)
      requires Lists(files, ReachedFiles(base, overlay.Snapshot(), directory))
      ensures |contents| == |files|
      ensures forall i | 0 <= i < |files| :: contents[i] == Content(base, overlay.Snapshot(), files[i])
    {
      contents := [];
      for i := 0 to |files|
        invariant |contents| == i
        invariant forall k | 0 <= k < i :: contents[k] == Content(base, overlay.Snapshot(), files[k])
      {
        assert files[i] in files;
        ReachedFileShows(base, overlay.Snapshot(), directory, files[i]);
        contents := contents + [Shows(base, overlay.Snapshot(), files[i]).value];
      }
    }

    method RecordRenames(files: seq<Path>, from: Path, to: Path)
      requires Below(files, from)
      modifies overlay
      ensures overlay.Snapshot() ==
        old(overlay.Snapshot()).(renames := old(overlay.Snapshot()).renames + RenameRecords(files, from, to))
    {
      ghost var was := overlay.Snapshot();
      ghost var records := RenameRecords(files, from, to);
      for i := 0 to |files|
        invariant overlay.Snapshot() == was.(renames := was.renames + records[..i])
      {
        overlay.AddRename(files[i], Moved(files[i], from, to));
        assert records[..i + 1] == records[..i] + [Overlays.Rename.Rename(files[i], Moved(files[i], from, to))];
      }
    }

    method RenameDirectoryInternal(from: Path, to: Path) returns (r: Result<()>)
      requires from != ROOT && TreeShaped(base)
      modifies overlay
      ensures r.Ok? ==> DirectoryRenamed(base, old(overlay.Snapshot()), overlay.Snapshot(), from, to)
      ensures ViewStat(base, old(overlay.Snapshot()), from).Err? ==>
        r.Err? && overlay.Snapshot() == old(overlay.Snapshot())
      ensures var was := old(overlay.Snapshot());
        TargetReady(base, was, from, to) && KindsFit(base, was, from, to) ==>
          (r.Ok? <==> WithinBudget(base, was, from))
    {
      ghost var was := overlay.Snapshot();
      var files := ListVisibleFiles(base, overlay.Snapshot(), from);
      if files.Err? {
        return Err(files.code);
      }
      var directories := ListVisibleDirectories(base, overlay.Snapshot(), from);
      if directories.Err? {
        return Err(directories.code);
      }
      var contents := ReadContents(files.value, from);
      PlantTarget(from, to, directories.value, files.value, contents);
      if TargetReady(base, was, from, to) && KindsFit(base, was, from, to) {
        PlantIsKindStable(base, was, from, to);
        SourceStaysDirectory(base, was, from, to);
        PlantKeepsReach(base, was, from, to);
      }
      r := DeleteInternal(from, true);
      if r.Err? {
        return;
      }
      ListedIsBelow(base, was, from, files.value);
      RecordRenames(files.value, from, to);
      assert overlay.Snapshot() == RenameDirectory(base, was, from, to, files.value);
    }


    /** `rename`: an edit that fails after the target was deleted is left to the caller to roll back. */
    method Rename(from: Path, to: Path, overwrite: bool) returns (r: Result<()>)
      requires TreeShaped(base)
      modifies overlay
      ensures r.Ok? ==> RenameChecks(base, old(overlay.Snapshot()), from, to, overwrite).Ok?
      ensures r.Ok? ==> RenamedTo(base, old(overlay.Snapshot()), overlay.Snapshot(), from, to)
      ensures var was := old(overlay.Snapshot());
        WellFormed(base, was) && ParentsPresent(base, was) && RenameFits(base, was, from, to) ==>
          (r.Ok? <==> RenameAllowed(base, was, from, to, overwrite))
      ensures var checks := RenameChecks(base, old(overlay.Snapshot()), from, to, overwrite);
        checks.Err? ==> r == Err(checks.code) && overlay.Snapshot() == old(overlay.Snapshot())
    {
      ghost var was := overlay.Snapshot();
      if from == ROOT || to == ROOT {
        return Err(InvalidRequest);
      }
      if from == to {
        assert Below([], from);
        return Ok(());
      }
      if Within(to, from) {
        return Err(InvalidRequest);
      }
      var source := ViewStat(base, overlay.Snapshot(), from);
      if source.Err? {
        return Err(source.code);
      }
      var target := TryViewStat(base, overlay.Snapshot(), to);
      if target.Err? {
        return Err(target.code);
      }
      if target.value.Some? && !overwrite {
        return Err(InvalidRequest);
      }
      var parent := RequireDirectory(base, overlay.Snapshot(), Parent(to));
      if parent.Err? {
        return parent;
      }
      if target.value.Some? {
        r := DeleteInternal(to, true);
        if r.Err? {
          return;
        }
      }
      r := MoveSource(from, to, source.value, was, overwrite);
    }

    /** The move itself, the target being out of the way. */
    method MoveSource(from: Path, to: Path, kind: Kind, ghost was: OverlaySnapshot, ghost overwrite: bool)
      returns (r: Result<()>)
      requires TreeShaped(base) && from != to && overlay.Snapshot() == AfterOverwrite(base, was, to)
      requires RenameChecks(base, was, from, to, overwrite).Ok? && ViewStat(base, was, from) == Ok(kind)
      modifies overlay
      ensures r.Ok? ==> RenamedTo(base, was, overlay.Snapshot(), from, to)
      ensures WellFormed(base, was) && ParentsPresent(base, was) && RenameFits(base, was, from, to) ==>
        (r.Ok? <==> !Within(from, to) && (kind == Directory ==> WithinBudget(base, was, from)))
    {
      if WellFormed(base, was) && ParentsPresent(base, was) && RenameFits(base, was, from, to) {
        if Within(from, to) {
          RenameOntoAncestorFails(base, was, from, to, overwrite);
          VisibleOnlyIfStat(base, overlay.Snapshot(), from);
        } else {
          ReadyToMove(base, was, from, to, overwrite);
        }
      }
      if kind == File {
        r := RenameFileInternal(from, to);
        assert Below([], from);
      } else {
        r := RenameDirectoryInternal(from, to);
      }
    }
  }

  lemma VisibleOnlyIfStat(base: Files, o: OverlaySnapshot, path: Path)
    requires path != ROOT && ViewStat(base, o, path).Err? && KindStable(base, o)
    ensures path !in Visible(base, o)
  {
    ViewsAgree(base, o, path);
  }

  lemma ListedIsBelow(base: Files, o: OverlaySnapshot, from: Path, files: seq<Path>)
    requires Lists(files, ReachedFiles(base, o, from))
    ensures Below(files, from)
  {
    forall i | 0 <= i < |files|
      ensures from <= files[i]
    {
      assert files[i] in files;
    }
  }
}
