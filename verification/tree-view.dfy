/**
 What a working tree shows: one immutable base revision merged with one overlay. The functions are
 the queries of `WorkingTree` on values; the predicates are the representation invariant.
 */
module TreeView {
  import opened Wrappers
  import opened Paths
  import opened Repository
  import opened Overlays

  /** The flat file map that `readFile` answers from. */
  function Visible(base: Files, o: OverlaySnapshot): Files {
    map p | p in base.Keys + o.files.Keys && !o.IsDeleted(p) :: if p in o.files then o.files[p] else base[p]
  }

  /** `readFile` of one path. */
  function Shows(base: Files, o: OverlaySnapshot, path: Path): Option<Bytes> {
    if o.IsDeleted(path) then None
    else if path in o.files then Some(o.files[path])
    else Lookup(base, path)
  }

  function Lookup(files: Files, path: Path): Option<Bytes> {
    if path in files then Some(files[path]) else None
  }

  lemma SameLookups(a: Files, b: Files)
    requires forall p :: Lookup(a, p) == Lookup(b, p)
    ensures a == b
  {
    assert forall p :: p in a <==> Lookup(a, p).Some?;
    assert forall p :: p in b <==> Lookup(b, p).Some?;
  }

  lemma VisibleShows(base: Files, o: OverlaySnapshot, path: Path)
    ensures Lookup(Visible(base, o), path) == Shows(base, o, path)
  {
  }

  lemma VisibleIs(base: Files, o: OverlaySnapshot, files: Files)
    requires forall p :: Shows(base, o, p) == Lookup(files, p)
    ensures Visible(base, o) == files
  {
    forall p
      ensures Lookup(Visible(base, o), p) == Lookup(files, p)
    {
      VisibleShows(base, o, p);
    }
    SameLookups(Visible(base, o), files);
  }

  function ViewStat(base: Files, o: OverlaySnapshot, path: Path): Result<Kind> {
    if path == ROOT then Ok(Directory)
    else if o.IsDeleted(path) then Err(NotFound)
    else if path in o.files then Ok(File)
    else if path in o.directories then Ok(Directory)
    else Stat(base, path)
  }

  function TryViewStat(base: Files, o: OverlaySnapshot, path: Path): Result<Option<Kind>> {
    Missing(ViewStat(base, o, path))
  }

  /** The entry that reading the parent directory of the path shows for it. */
  function Entry(base: Files, o: OverlaySnapshot, path: Path): Option<Kind>
    requires path != ROOT
  {
    if o.IsDeleted(path) then None
    else if path in o.directories then Some(Directory)
    else if path in o.files then Some(File)
    else if Stat(base, Parent(path)) != Ok(Directory) then None
    else if path in base then Some(File)
    else if IsDirectory(base, path) then Some(Directory)
    else None
  }

  /** Walking down from the directory through visible directories meets the path. */
  ghost predicate Reached(base: Files, o: OverlaySnapshot, directory: Path, path: Path) {
    && Under(path, directory)
    && Entry(base, o, path).Some?
    && forall q | Under(path, q) && Under(q, directory) :: Entry(base, o, q) == Some(Directory)
  }

  ghost predicate ReachedAs(base: Files, o: OverlaySnapshot, directory: Path, path: Path, kind: Kind) {
    Reached(base, o, directory, path) && Entry(base, o, path) == Some(kind)
  }

  /** Everything a path of either layer can come from. */
  function Candidates(base: Files, o: OverlaySnapshot): set<Path> {
    (set f, n | f in base && 0 <= n <= |f| :: f[..n]) + o.files.Keys + o.directories
  }

  ghost function ReachedSet(base: Files, o: OverlaySnapshot, directory: Path): (all: set<Path>)
    ensures forall p :: p in all <==> Reached(base, o, directory, p)
  {
    forall p | Reached(base, o, directory, p)
      ensures p in Candidates(base, o)
    {
      EntryIsCandidate(base, o, p);
    }
    set p | p in Candidates(base, o) && Reached(base, o, directory, p)
  }

  ghost function ReachedFiles(base: Files, o: OverlaySnapshot, directory: Path): set<Path> {
    set p | p in ReachedSet(base, o, directory) && Entry(base, o, p) == Some(File)
  }

  lemma EntryIsCandidate(base: Files, o: OverlaySnapshot, path: Path)
    requires path != ROOT && Entry(base, o, path).Some?
    ensures path in Candidates(base, o)
  {
    if path !in o.files && path !in o.directories {
      if path in base {
        assert path[..|path|] == path;
      } else {
        var f :| f in base && Under(f, path);
        assert f[..|path|] == path;
      }
    }
  }

  /** What is reached from a directory is a child of it, or reached from a child directory. */
  lemma ReachedFromChild(base: Files, o: OverlaySnapshot, directory: Path, path: Path)
    requires Under(path, directory)
    ensures var child := path[..|directory| + 1];
      Reached(base, o, directory, path) <==>
        if path == child then Entry(base, o, path).Some?
        else Entry(base, o, child) == Some(Directory) && Reached(base, o, child, path)
  {
    var child := path[..|directory| + 1];
    forall q | Under(path, q) && Under(q, directory)
      ensures q == child || Under(q, child)
    {
      assert child <= q;
    }
    if path == child {
      assert Reached(base, o, directory, path) <==> Entry(base, o, path).Some?;
    } else {
      assert Under(path, child) && Under(child, directory);
      if Reached(base, o, child, path) && Entry(base, o, child) == Some(Directory) {
        assert Reached(base, o, directory, path);
      }
    }
  }

  // ---------------------------------------------------------------- the invariant

  predicate IsFilePath(base: Files, o: OverlaySnapshot, path: Path) {
    path in base || path in o.files
  }

  predicate IsEntryPath(base: Files, o: OverlaySnapshot, path: Path) {
    IsFilePath(base, o, path) || path in o.directories
  }

  /** No path is a file in one of base and overlay and a directory in the other, or in the same. */
  ghost predicate KindStable(base: Files, o: OverlaySnapshot) {
    && !IsEntryPath(base, o, ROOT)
    && (forall f | IsFilePath(base, o, f) :: f !in o.directories)
    && (forall f, e | IsFilePath(base, o, f) && IsEntryPath(base, o, e) :: !Under(e, f))
  }

  ghost predicate WellFormed(base: Files, o: OverlaySnapshot) {
    && KindStable(base, o)
    && (forall p | p in o.files || p in o.directories :: !o.IsDeleted(p))
    && (forall f | f in base && o.IsDeleted(f) :: f in o.deleted)
    && (forall t | t in o.deleted :: t != ROOT && (t in base || IsDirectory(base, t)))
  }

  /**
   What every edit keeps whatever the kinds: the base is a tree, and no file of the overlay lies at or under
   a tombstone.
   */
  ghost predicate Sound(base: Files, o: OverlaySnapshot) {
    && TreeShaped(base) && ROOT !in o.files && ROOT !in o.deleted
    && forall p | p in o.files :: !o.IsDeleted(p)
  }

  lemma WellFormedIsSound(base: Files, o: OverlaySnapshot)
    requires WellFormed(base, o)
    ensures Sound(base, o)
  {
  }

  /** Every directory above an overlay entry is there, in the base or as a marker. */
  ghost predicate ParentsPresent(base: Files, o: OverlaySnapshot) {
    forall p, q | (p in o.files || p in o.directories) && Under(p, q) && q != ROOT ::
      q in o.directories || IsDirectory(base, q)
  }

  lemma BaseIsTree(base: Files, o: OverlaySnapshot)
    requires KindStable(base, o)
    ensures TreeShaped(base)
  {
  }

  /** Stable kinds leave `stat`, `readFile` and the directory entries in agreement. */
  lemma ViewsAgree(base: Files, o: OverlaySnapshot, path: Path)
    requires KindStable(base, o) && path != ROOT
    ensures ViewStat(base, o, path) == Ok(File) <==> path in Visible(base, o)
    ensures ViewStat(base, o, path) == Ok(Directory) <==>
      !o.IsDeleted(path) && (path in o.directories || IsDirectory(base, path))
    ensures Entry(base, o, path) ==
      match ViewStat(base, o, path) { case Ok(kind) => Some(kind) case Err(_) => None }
  {
    BaseIsTree(base, o);
    StatOfTree(base, path);
    StatOfTree(base, Parent(path));
    if path in base {
      assert Under(path, Parent(path));
    }
    if f :| f in base && Under(f, path) {
      assert Under(f, Parent(path));
    }
  }

  /** A visible directory, in terms of the base files, the markers and the tombstones. */
  predicate ShowsDirectory(base: Files, o: OverlaySnapshot, path: Path) {
    path == ROOT || (!o.IsDeleted(path) && (path in o.directories || IsDirectory(base, path)))
  }

  /** A visible file or directory. */
  predicate Occupied(base: Files, o: OverlaySnapshot, path: Path) {
    path in Visible(base, o) || ShowsDirectory(base, o, path)
  }

  /** What `stat` answers, without the functions it is computed by. */
  lemma StatOfView(base: Files, o: OverlaySnapshot, path: Path)
    requires KindStable(base, o)
    ensures ViewStat(base, o, path) == Ok(File) <==> path in Visible(base, o)
    ensures ViewStat(base, o, path) == Ok(Directory) <==> ShowsDirectory(base, o, path)
    ensures ViewStat(base, o, path) == Err(InvalidRequest) <==>
      path != ROOT && Parent(path) in base && !o.IsDeleted(path)
    ensures ViewStat(base, o, path).Err? ==> ViewStat(base, o, path).code in {InvalidRequest, NotFound}
  {
    if path != ROOT {
      ViewsAgree(base, o, path);
      BaseIsTree(base, o);
      StatOfTree(base, path);
      if Parent(path) in base {
        assert IsFilePath(base, o, Parent(path)) && Under(path, Parent(path));
        assert path in o.files || path in o.directories ==> IsEntryPath(base, o, path);
      }
    }
  }

  /** The visible files form a tree. */
  lemma VisibleIsTree(base: Files, o: OverlaySnapshot)
    requires KindStable(base, o)
    ensures TreeShaped(Visible(base, o))
  {
    forall f, g | f in Visible(base, o) && g in Visible(base, o)
      ensures !Under(g, f)
    {
      assert IsFilePath(base, o, f) && IsEntryPath(base, o, g);
    }
  }

  /** A directory that some visible file has above it is visible, or the file is an orphan. */
  ghost predicate Orphan(base: Files, o: OverlaySnapshot, directory: Path, path: Path) {
    && path in Visible(base, o)
    && Under(path, directory)
    && exists q | Under(path, q) && Under(q, directory) :: q !in o.directories && !IsDirectory(base, q)
  }

  /** The listing of a directory is the visible files below it except the orphans. */
  lemma ReachedFilesAreVisible(base: Files, o: OverlaySnapshot, directory: Path, path: Path)
    requires WellFormed(base, o)
    ensures ReachedAs(base, o, directory, path, File) <==>
      path in Visible(base, o) && Under(path, directory) && !Orphan(base, o, directory, path)
  {
    if Under(path, directory) {
      ViewsAgree(base, o, path);
      forall q | Under(path, q) && Under(q, directory)
        ensures path in Visible(base, o) ==>
          (Entry(base, o, q) == Some(Directory) <==> q in o.directories || IsDirectory(base, q))
      {
        ViewsAgree(base, o, q);
      }
    }
  }

  /** Orphans are overlay files; while every parent is present there is none. */
  lemma NoOrphans(base: Files, o: OverlaySnapshot, directory: Path, path: Path)
    requires Orphan(base, o, directory, path)
    ensures path in o.files && !ParentsPresent(base, o)
  {
    var q :| Under(path, q) && Under(q, directory) && q !in o.directories && !IsDirectory(base, q);
    assert path in base ==> IsDirectory(base, q);
  }
}
