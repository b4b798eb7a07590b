/** Rebasing an overlay onto a revision that already contains part of its changes. */
module Rebases {
  import opened Wrappers
  import opened Paths
  import opened Repository
  import opened Overlays
  import opened TreeView
  import opened Edits
  import opened ChangeSets

  /** The tests of `rebaseOverlayAfterPartialPublish`, each against the new revision. */
  predicate FileIsPublished(revision: Files, path: Path, content: Bytes) {
    Stat(revision, path) == Ok(File) && Lookup(revision, path) == Some(content)
  }

  predicate RenameIsPublished(revision: Files, rename: Rename) {
    Stat(revision, rename.from) == Err(NotFound) && Stat(revision, rename.to).Ok?
  }

  function UnpublishedRenames(revision: Files, renames: seq<Rename>): seq<Rename> {
    if renames == [] then []
    else
      var rest, last := UnpublishedRenames(revision, renames[..|renames| - 1]), renames[|renames| - 1];
      if RenameIsPublished(revision, last) then rest else rest + [last]
  }

  function Rebase(revision: Files, o: OverlaySnapshot): OverlaySnapshot {
    OverlaySnapshot(
      map f | f in o.files && !FileIsPublished(revision, f, o.files[f]) :: o.files[f],
      (set d | d in o.directories && Stat(revision, d) != Ok(Directory)),
      (set t | t in o.deleted && Stat(revision, t) != Err(NotFound)),
      UnpublishedRenames(revision, o.renames))
  }

  /** The paths whose `tryStat` against the new revision the rebase asks for. */
  ghost predicate Asked(o: OverlaySnapshot, path: Path) {
    path in o.files || path in o.directories || path in o.deleted
    || exists r | r in o.renames :: path == r.from || path == r.to
  }

  /** The rebase works on a copy and gives up, changing nothing, on the first `stat` that is refused. */
  ghost function TryRebase(revision: Files, o: OverlaySnapshot): Result<OverlaySnapshot> {
    if exists p :: Asked(o, p) && TryStat(revision, p).Err? then Err(InvalidRequest) else Ok(Rebase(revision, o))
  }

  /** The published revision is a tree with the kinds of the old base and of the overlay. */
  lemma PublishedKinds(base: Files, o: OverlaySnapshot, chosen: set<Path>)
    requires WellFormed(base, o)
    ensures var revision := Published(base, o, chosen);
      && TreeShaped(revision)
      && (forall p | p in revision :: IsFilePath(base, o, p))
      && KindStable(revision, Rebase(revision, o))
  {
    var revision := Published(base, o, chosen);
    forall f | f in revision
      ensures IsFilePath(base, o, f)
    {
    }
    EntriesOfRebase(base, o, revision);
    assert forall f, g | f in revision && g in revision :: IsFilePath(base, o, f) && IsEntryPath(base, o, g);
  }

  lemma EntriesOfRebase(base: Files, o: OverlaySnapshot, revision: Files)
    requires forall p | p in revision :: IsFilePath(base, o, p)
    ensures forall p :: IsFilePath(revision, Rebase(revision, o), p) ==> IsFilePath(base, o, p)
    ensures forall p :: IsEntryPath(revision, Rebase(revision, o), p) ==> IsEntryPath(base, o, p)
    ensures Rebase(revision, o).directories <= o.directories
  {
  }

  /**
   Partial publication is invisible: in every state that edits reach, and whenever the remote's revision is a
   tree, the rebased overlay shows the same bytes at every path.
   */
  lemma RebaseShowsTheSame(base: Files, o: OverlaySnapshot, chosen: set<Path>)
    requires Sound(base, o) && TreeShaped(Published(base, o, chosen))
    ensures var revision := Published(base, o, chosen);
      Visible(revision, Rebase(revision, o)) == Visible(base, o)
  {
    var revision := Published(base, o, chosen);
    forall p
      ensures Shows(revision, Rebase(revision, o), p) == Lookup(Visible(base, o), p)
    {
      RebaseShowsAt(base, o, chosen, p);
      VisibleShows(base, o, p);
    }
    VisibleIs(revision, Rebase(revision, o), Visible(base, o));
  }

  lemma RebaseShowsAt(base: Files, o: OverlaySnapshot, chosen: set<Path>, p: Path)
    requires Sound(base, o) && TreeShaped(Published(base, o, chosen))
    ensures var revision := Published(base, o, chosen);
      Shows(revision, Rebase(revision, o), p) == Shows(base, o, p)
  {
    var revision := Published(base, o, chosen);
    var o' := Rebase(revision, o);
    PublishedLookup(base, o, chosen, p);
    StatOfTree(revision, p);
    if o.IsDeleted(p) {
      if !o'.IsDeleted(p) {
        DroppedTombstone(base, o, chosen, p);
      }
    } else if p !in o.files {
      assert p in revision <==> p in base;
    }
  }

  /** A tombstone is dropped only when nothing is left at or below it in the new revision. */
  lemma DroppedTombstone(base: Files, o: OverlaySnapshot, chosen: set<Path>, p: Path)
    requires Sound(base, o) && TreeShaped(Published(base, o, chosen))
    requires o.IsDeleted(p) && !Rebase(Published(base, o, chosen), o).IsDeleted(p)
    ensures p !in Published(base, o, chosen)
  {
    var revision := Published(base, o, chosen);
    var t :| t in o.deleted && Within(p, t);
    StatOfTree(revision, t);
    assert t !in Rebase(revision, o).deleted;
  }

  lemma RebaseIsSound(base: Files, o: OverlaySnapshot, chosen: set<Path>)
    requires Sound(base, o) && TreeShaped(Published(base, o, chosen))
    ensures var revision := Published(base, o, chosen); Sound(revision, Rebase(revision, o))
  {
  }

  /** The invariant survives; what may be lost is the presence of parents. */
  lemma RebaseIsWellFormed(base: Files, o: OverlaySnapshot, chosen: set<Path>)
    requires WellFormed(base, o)
    ensures var revision := Published(base, o, chosen); WellFormed(revision, Rebase(revision, o))
  {
    var revision := Published(base, o, chosen);
    var o' := Rebase(revision, o);
    PublishedKinds(base, o, chosen);
    assert forall p | p in o'.files || p in o'.directories :: !o'.IsDeleted(p);
    forall f | f in revision && o'.IsDeleted(f)
      ensures f in o'.deleted
    {
      TombstoneOf(base, o, f);
      StatOfTree(revision, f);
    }
    forall t | t in o'.deleted
      ensures t != ROOT && (t in revision || IsDirectory(revision, t))
    {
      TombstoneIsAsked(base, o, chosen, t);
    }
  }

  lemma TombstoneIsAsked(base: Files, o: OverlaySnapshot, chosen: set<Path>, p: Path)
    requires WellFormed(base, o) && TreeShaped(Published(base, o, chosen))
    requires p in o.files || p in o.directories || p in o.deleted
    ensures p != ROOT
    ensures var revision := Published(base, o, chosen);
      TryStat(revision, p).Ok? &&
      (Stat(revision, p) != Err(NotFound) <==> p in revision || IsDirectory(revision, p))
  {
    var revision := Published(base, o, chosen);
    StatOfTree(revision, p);
    if Parent(p) in revision {
      assert IsFilePath(base, o, Parent(p));
      if p in o.deleted && p !in base {
        var f :| f in base && Under(f, p);
        assert IsEntryPath(base, o, f) && Under(f, Parent(p));
      } else {
        assert IsEntryPath(base, o, p) && Under(p, Parent(p));
      }
    }
  }

  /** What is left to publish is exactly what was not chosen, change by change. */
  lemma RebaseLeavesTheRest(base: Files, o: OverlaySnapshot, chosen: set<Path>, p: Path)
    requires Sound(base, o) && TreeShaped(Published(base, o, chosen))
    ensures var revision := Published(base, o, chosen);
      ChangeFor(revision, Rebase(revision, o), p) == if p in chosen then None else ChangeFor(base, o, p)
  {
    var revision := Published(base, o, chosen);
    RebaseIsSound(base, o, chosen);
    RebaseShowsAt(base, o, chosen, p);
    PublishedLookup(base, o, chosen, p);
    ChangeMeaning(base, o, p);
    ChangeMeaning(revision, Rebase(revision, o), p);
  }

  lemma RebaseRestOfChanges(base: Files, o: OverlaySnapshot, chosen: set<Path>)
    requires Sound(base, o) && TreeShaped(Published(base, o, chosen))
    ensures var revision := Published(base, o, chosen);
      AllChanges(revision, Rebase(revision, o)) == AllChanges(base, o) - chosen
  {
    var revision := Published(base, o, chosen);
    var left, all := AllChanges(revision, Rebase(revision, o)), AllChanges(base, o);
    hide AllChanges, Rebase, Published, Sound, ChangeFor;
    forall p
      ensures p in left <==> p in all && p !in chosen
      ensures p in left ==> left[p] == all[p]
    {
      RebaseLeavesTheRest(base, o, chosen, p);
      ChangeKeys(base, o, p);
      ChangeKeys(revision, Rebase(revision, o), p);
    }
    assert left.Keys == all.Keys - chosen;
  }

  lemma ChangeKeys(base: Files, o: OverlaySnapshot, p: Path)
    ensures p in AllChanges(base, o) <==> ChangeFor(base, o, p).Some?
    ensures p in AllChanges(base, o) ==> AllChanges(base, o)[p] == ChangeFor(base, o, p).value
  {
  }

  /** Rebasing twice onto one revision is rebasing once, whatever the overlay and the revision. */
  lemma RebaseIsIdempotent(revision: Files, o: OverlaySnapshot)
    ensures Rebase(revision, Rebase(revision, o)) == Rebase(revision, o)
  {
    var once := Rebase(revision, o);
    UnpublishedTwice(revision, o.renames);
    assert Rebase(revision, once).files == once.files;
    assert Rebase(revision, once).directories == once.directories;
    assert Rebase(revision, once).deleted == once.deleted;
  }

  lemma {:induction false} UnpublishedTwice(revision: Files, renames: seq<Rename>)
    ensures UnpublishedRenames(revision, UnpublishedRenames(revision, renames)) == UnpublishedRenames(revision, renames)
  {
    if renames != [] {
      var shorter := renames[..|renames| - 1];
      UnpublishedTwice(revision, shorter);
      var rest, last := UnpublishedRenames(revision, shorter), renames[|renames| - 1];
      if !RenameIsPublished(revision, last) {
        assert (rest + [last])[..|rest|] == rest;
      }
    }
  }

  /** A record is kept unless its source is gone from the revision and its target is there. */
  lemma {:induction false} KeptRecords(revision: Files, renames: seq<Rename>)
    requires TreeShaped(revision)
    ensures forall r :: r in UnpublishedRenames(revision, renames) <==>
      r in renames && !(Vacant(revision, r.from) && (r.to == ROOT || r.to in revision || IsDirectory(revision, r.to)))
  {
    if renames != [] {
      var shorter, last := renames[..|renames| - 1], renames[|renames| - 1];
      KeptRecords(revision, shorter);
      StatOfTree(revision, last.from);
      StatOfTree(revision, last.to);
      assert renames == shorter + [last];
    }
  }

  /** There is nothing at the path, and no file directly above it. */
  predicate Vacant(revision: Files, path: Path) {
    path != ROOT && path !in revision && !IsDirectory(revision, path) && Parent(path) !in revision
  }

  /** The record of a renamed base file goes with the publication of both its ends, and stays without it. */
  lemma PublishedRenameGoes(base: Files, o: OverlaySnapshot, chosen: set<Path>, r: Rename)
    requires WellFormed(base, o) && r in o.renames
    requires r.from in base && r.from !in Visible(base, o) && r.to in Visible(base, o) && r.to !in base
    requires r.from in chosen <==> r.to in chosen
    requires TryRebase(Published(base, o, chosen), o).Ok?
    ensures r in Rebase(Published(base, o, chosen), o).renames <==> r.to !in chosen
  {
    var revision := Published(base, o, chosen);
    PublishedKinds(base, o, chosen);
    KeptRecords(revision, o.renames);
    PublishedLookup(base, o, chosen, r.from);
    PublishedLookup(base, o, chosen, r.to);
    VisibleShows(base, o, r.from);
    VisibleShows(base, o, r.to);
    OnlyRecordsStopRebase(base, o, chosen);
    if f :| f in revision && Under(f, r.from) {
      assert IsFilePath(base, o, r.from) && IsEntryPath(base, o, f);
      assert false;
    }
  }

  /** The path does not lie directly below a file. */
  predicate Readable(revision: Files, path: Path) {
    path == ROOT || Parent(path) !in revision
  }

  /** On a tree the rebase succeeds exactly when nothing it asks for lies directly below a file. */
  lemma TryRebaseIff(revision: Files, o: OverlaySnapshot)
    requires TreeShaped(revision)
    ensures TryRebase(revision, o).Ok? <==> forall p | Asked(o, p) :: Readable(revision, p)
  {
    forall p | Asked(o, p)
      ensures TryStat(revision, p).Ok? <==> Readable(revision, p)
    {
      StatOfTree(revision, p);
    }
  }

  /** Something the rebase asks for lies directly below a file of the revision that is published. */
  ghost predicate StopsRebase(base: Files, o: OverlaySnapshot, chosen: set<Path>) {
    exists p :: Asked(o, p) && p != ROOT && BecomesFile(base, o, chosen, Parent(p))
  }

  /**
   The rebase after a publication fails exactly when a tombstone, a marker, an overlay file or an end of a
   rename record lies directly below a file of the published revision.
   */
  lemma RebaseSucceedsIff(base: Files, o: OverlaySnapshot, chosen: set<Path>)
    requires TreeShaped(Published(base, o, chosen))
    ensures TryRebase(Published(base, o, chosen), o).Ok? <==> !StopsRebase(base, o, chosen)
  {
    var revision := Published(base, o, chosen);
    TryRebaseIff(revision, o);
    forall p | p != ROOT
      ensures Readable(revision, p) <==> !BecomesFile(base, o, chosen, Parent(p))
    {
      PublishedFiles(base, o, chosen, Parent(p));
    }
    if p :| Asked(o, p) && !Readable(revision, p) {
      assert StopsRebase(base, o, chosen);
    }
  }

  /** While kinds are stable only a rename record can stop the rebase. */
  lemma OnlyRecordsStopRebase(base: Files, o: OverlaySnapshot, chosen: set<Path>)
    requires WellFormed(base, o)
    ensures var revision := Published(base, o, chosen);
      TryRebase(revision, o).Ok? <==>
        forall r | r in o.renames :: Readable(revision, r.from) && Readable(revision, r.to)
  {
    var revision := Published(base, o, chosen);
    PublishedKinds(base, o, chosen);
    TryRebaseIff(revision, o);
    forall p | p in o.files || p in o.directories || p in o.deleted
      ensures Readable(revision, p)
    {
      TombstoneIsAsked(base, o, chosen, p);
      StatOfTree(revision, p);
    }
    if r :| r in o.renames && !(Readable(revision, r.from) && Readable(revision, r.to)) {
      assert Asked(o, r.from) && Asked(o, r.to);
    }
  }

  /** The published revision has nothing below the directory: base files are chosen deletions, nothing chosen shows. */
  ghost predicate Emptied(base: Files, o: OverlaySnapshot, chosen: set<Path>, directory: Path) {
    forall f | Under(f, directory) && IsFilePath(base, o, f) ::
      if f in chosen then o.IsDeleted(f) else f !in base
  }

  /** An unchosen addition or a marker stands below a directory that the publication empties. */
  ghost predicate LeavesOrphan(base: Files, o: OverlaySnapshot, chosen: set<Path>) {
    exists p, directory ::
      && Under(p, directory) && directory != ROOT && directory !in o.directories
      && Emptied(base, o, chosen, directory)
      && (p in o.directories || (p in o.files && p !in base && p !in chosen))
  }

  lemma EmptiedIsGone(base: Files, o: OverlaySnapshot, chosen: set<Path>, directory: Path)
    ensures Emptied(base, o, chosen, directory) <==> !IsDirectory(Published(base, o, chosen), directory)
  {
    var revision := Published(base, o, chosen);
    forall f
      ensures f in revision <==> IsFilePath(base, o, f) && if f in chosen then !o.IsDeleted(f) else f in base
    {
    }
  }

  /** What the rebase keeps of the files: the unpublished changes. */
  lemma KeptFiles(base: Files, o: OverlaySnapshot, chosen: set<Path>, p: Path)
    requires WellFormed(base, o) && p in o.files
    ensures p in Rebase(Published(base, o, chosen), o).files <==> p !in chosen && Lookup(base, p) != Some(o.files[p])
  {
    PublishedKinds(base, o, chosen);
    PublishedLookup(base, o, chosen, p);
    StatOfTree(Published(base, o, chosen), p);
  }

  lemma KeptMarkers(base: Files, o: OverlaySnapshot, chosen: set<Path>, p: Path)
    requires WellFormed(base, o) && p in o.directories
    ensures p in Rebase(Published(base, o, chosen), o).directories <==> !IsDirectory(Published(base, o, chosen), p)
  {
    PublishedKinds(base, o, chosen);
    StatOfTree(Published(base, o, chosen), p);
  }

  /** Every parent stays present exactly when the publication leaves no orphan. */
  lemma RebaseKeepsParentsIff(base: Files, o: OverlaySnapshot, chosen: set<Path>)
    requires WellFormed(base, o) && ParentsPresent(base, o)
    ensures var revision := Published(base, o, chosen);
      ParentsPresent(revision, Rebase(revision, o)) <==> !LeavesOrphan(base, o, chosen)
  {
    var revision := Published(base, o, chosen);
    var o' := Rebase(revision, o);
    hide Rebase, Published, WellFormed, Emptied, ParentsPresent;
    if !ParentsPresent(revision, o') {
      LostParentIsEmptied(base, o, chosen);
    }
    if LeavesOrphan(base, o, chosen) {
      OrphanIsLost(base, o, chosen);
    }
  }

  lemma LostParentIsEmptied(base: Files, o: OverlaySnapshot, chosen: set<Path>)
    requires WellFormed(base, o) && ParentsPresent(base, o)
    requires var revision := Published(base, o, chosen); !ParentsPresent(revision, Rebase(revision, o))
    ensures LeavesOrphan(base, o, chosen)
  {
    var revision := Published(base, o, chosen);
    var o' := Rebase(revision, o);
    assert o'.files.Keys <= o.files.Keys && o'.directories <= o.directories;
    var p, q :| (p in o'.files || p in o'.directories) && Under(p, q) && q != ROOT
      && q !in o'.directories && !IsDirectory(revision, q);
    EmptiedIsGone(base, o, chosen, q);
    if q in o.directories {
      KeptMarkers(base, o, chosen, q);
    }
    if p in o.files {
      KeptFiles(base, o, chosen, p);
    }
    assert LeavesOrphan(base, o, chosen);
  }

  lemma OrphanIsLost(base: Files, o: OverlaySnapshot, chosen: set<Path>)
    requires WellFormed(base, o) && LeavesOrphan(base, o, chosen)
    ensures var revision := Published(base, o, chosen); !ParentsPresent(revision, Rebase(revision, o))
  {
    var revision := Published(base, o, chosen);
    var o' := Rebase(revision, o);
    var p, q :| Under(p, q) && q != ROOT && q !in o.directories && Emptied(base, o, chosen, q)
      && (p in o.directories || (p in o.files && p !in base && p !in chosen));
    EmptiedIsGone(base, o, chosen, q);
    if p in o.directories {
      KeptMarkers(base, o, chosen, p);
      assert forall f | Under(f, p) :: Under(f, q);
    } else {
      KeptFiles(base, o, chosen, p);
    }
    assert o'.directories <= o.directories;
  }

  /** A recovered full publication ends where the direct one does, up to directory markers and records. */
  lemma RebaseAfterFullPublication(base: Files, o: OverlaySnapshot)
    requires WellFormed(base, o)
    ensures var revision := Published(base, o, AllChanges(base, o).Keys);
      && revision == Visible(base, o)
      && Visible(revision, Rebase(revision, o)) == Visible(revision, EMPTY)
      && Rebase(revision, o).files == map[] && Rebase(revision, o).deleted == {}
  {
    var chosen := AllChanges(base, o).Keys;
    var revision := Published(base, o, chosen);
    var o' := Rebase(revision, o);
    WellFormedIsSound(base, o);
    PublishedKinds(base, o, chosen);
    PublishAll(base, o);
    RebaseShowsTheSame(base, o, chosen);
    VisibleIs(revision, EMPTY, revision);
    RebaseIsWellFormed(base, o, chosen);
    forall p | p in o'.files
      ensures false
    {
      VisibleShows(revision, o', p);
      BaseIsTree(revision, o');
      StatOfTree(revision, p);
    }
    forall t | t in o'.deleted
      ensures false
    {
      NothingHidden(revision, o', t);
    }
  }

  lemma NothingHidden(base: Files, o: OverlaySnapshot, t: Path)
    requires WellFormed(base, o) && Visible(base, o) == base
    ensures t !in o.deleted
  {
    if t in o.deleted {
      var f :| f in base && Within(f, t);
      VisibleShows(base, o, f);
    }
  }
}
