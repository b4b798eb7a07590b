/** Reading directories of the merged view, and the budgeted recursive walks over it. */
module Traversal {
  import opened Wrappers
  import opened Paths
  import opened Repository
  import opened Overlays
  import opened TreeView
  import opened Edits

  const MAX_DEPTH: nat := 256
  const MAX_NODES: nat := 100_000

  /** The map names exactly the entries of the directory, each with its kind. */
  ghost predicate EntriesOf(base: Files, o: OverlaySnapshot, directory: Path, entries: map<Name, Kind>) {
    forall n :: (if n in entries then Some(entries[n]) else None) == Entry(base, o, Child(directory, n))
  }

  /** The fixture's `readDirectory`: one entry for every first segment below the directory. */
  method ReadRevisionDirectory(files: Files, directory: Path) returns (entries: map<Name, Kind>)
    requires TreeShaped(files)
    ensures forall n :: n in entries <==> Child(directory, n) in files || IsDirectory(files, Child(directory, n))
    ensures forall n | n in entries :: entries[n] == if Child(directory, n) in files then File else Directory
  {
    entries := map[];
    var pending := files.Keys;
    while pending != {}
      invariant pending <= files.Keys
      invariant forall n :: n in entries <==>
        exists f | f in files.Keys - pending :: Under(f, directory) && f[|directory|] == n
      invariant forall n | n in entries :: entries[n] == if Child(directory, n) in files then File else Directory
      decreases |pending|
    {
      var f :| f in pending;
      if Under(f, directory) {
        var name := f[|directory|];
        ChildAbove(files, f, directory);
        entries := entries[name := if |f| == |directory| + 1 then File else Directory];
      }
      pending := pending - {f};
    }
    forall n
      ensures n in entries <==> Child(directory, n) in files || IsDirectory(files, Child(directory, n))
    {
      NamesBelow(files, directory, n);
    }
  }

  lemma ChildAbove(files: Files, f: Path, directory: Path)
    requires TreeShaped(files) && f in files && Under(f, directory)
    ensures |f| == |directory| + 1 <==> Child(directory, f[|directory|]) in files
  {
    var child := Child(directory, f[|directory|]);
    assert child <= f;
    if |f| == |directory| + 1 {
      assert f == child;
    } else {
      assert Under(f, child);
    }
  }

  lemma NamesBelow(files: Files, directory: Path, n: Name)
    ensures (exists f | f in files :: Under(f, directory) && f[|directory|] == n) <==>
      Child(directory, n) in files || IsDirectory(files, Child(directory, n))
  {
    var child := Child(directory, n);
    if f :| f in files && Under(f, directory) && f[|directory|] == n {
      assert child <= f;
      assert f == child || Under(f, child);
    }
    if child in files {
      assert Under(child, directory) && child[|directory|] == n;
    } else if f :| f in files && Under(f, child) {
      assert Under(f, directory) && f[|directory|] == n;
    }
  }

  /** The base entries of a directory that no tombstone hides. */
  method BaseEntries(base: Files, o: OverlaySnapshot, directory: Path) returns (entries: map<Name, Kind>)
    requires TreeShaped(base)
    ensures forall n :: n in entries <==>
      !o.IsDeleted(Child(directory, n)) && (Child(directory, n) in base || IsDirectory(base, Child(directory, n)))
    ensures forall n | n in entries :: entries[n] == if Child(directory, n) in base then File else Directory
  {
    var all := ReadRevisionDirectory(base, directory);
    entries := map[];
    var pending := all.Keys;
    while pending != {}
      invariant pending <= all.Keys
      invariant forall n :: n in entries <==> n in all.Keys - pending && !o.IsDeleted(Child(directory, n))
      invariant forall n | n in entries :: entries[n] == all[n]
      decreases |pending|
    {
      var name :| name in pending;
      if !o.IsDeleted(Child(directory, name)) {
        entries := entries[name := all[name]];
      }
      pending := pending - {name};
    }
  }

  /** `Overlay.directChildren`: files first, so that a marker of the same path wins. */
  method DirectChildren(o: OverlaySnapshot, directory: Path) returns (children: map<Path, Kind>)
    ensures forall p :: p in children <==>
      p != ROOT && Parent(p) == directory && !o.IsDeleted(p) && (p in o.files || p in o.directories)
    ensures forall p | p in children :: children[p] == if p in o.directories then Directory else File
  {
    children := map[];
    var pending := o.files.Keys;
    while pending != {}
      invariant pending <= o.files.Keys
      invariant forall p :: p in children <==>
        p in o.files.Keys - pending && p != ROOT && Parent(p) == directory && !o.IsDeleted(p)
      invariant forall p | p in children :: children[p] == File
      decreases |pending|
    {
      var f :| f in pending;
      if f != ROOT && Parent(f) == directory && !o.IsDeleted(f) {
        children := children[f := File];
      }
      pending := pending - {f};
    }
    pending := o.directories;
    while pending != {}
      invariant pending <= o.directories
      invariant forall p :: p in children <==>
        p != ROOT && Parent(p) == directory && !o.IsDeleted(p) && (p in o.files || p in o.directories - pending)
      invariant forall p | p in children :: children[p] == if p in o.directories - pending then Directory else File
      decreases |pending|
    {
      var d :| d in pending;
      if d != ROOT && Parent(d) == directory && !o.IsDeleted(d) {
        children := children[d := Directory];
      }
      pending := pending - {d};
    }
  }

  /** `WorkingTree.readDirectory`: the surviving base entries, overridden by the overlay's children. */
  method ReadDirectory(base: Files, o: OverlaySnapshot, path: Path) returns (r: Result<map<Name, Kind>>)
    requires TreeShaped(base)
    ensures r.Ok? <==> ViewStat(base, o, path) == Ok(Directory) && TryStat(base, path).Ok?
    ensures ViewStat(base, o, path).Err? ==> r == Err(ViewStat(base, o, path).code)
    ensures r.Ok? ==> EntriesOf(base, o, path, r.value)
  {
    var stat := ViewStat(base, o, path);
    if stat.Err? {
      return Err(stat.code);
    }
    if stat.value != Directory {
      return Err(InvalidRequest);
    }
    var known := TryStat(base, path);
    if known.Err? {
      return Err(known.code);
    }
    var entries: map<Name, Kind> := map[];
    if known.value == Some(Directory) {
      entries := BaseEntries(base, o, path);
    }
    var children := DirectChildren(o, path);
    entries := MergeChildren(path, entries, children);
    assert forall n :: Parent(Child(path, n)) == path;
    r := Ok(entries);
  }

  method MergeChildren(directory: Path, below: map<Name, Kind>, children: map<Path, Kind>)
    returns (entries: map<Name, Kind>)
    requires forall p | p in children :: p != ROOT && Parent(p) == directory
    ensures forall n :: n in entries <==> n in below || Child(directory, n) in children
    ensures forall n | n in entries ::
      entries[n] == if Child(directory, n) in children then children[Child(directory, n)] else below[n]
  {
    entries := below;
    var pending := children.Keys;
    while pending != {}
      invariant pending <= children.Keys
      invariant forall n :: n in entries <==> n in below || Child(directory, n) in children.Keys - pending
      invariant forall n | n in entries ::
        entries[n] == if Child(directory, n) in children.Keys - pending then children[Child(directory, n)] else below[n]
      decreases |pending|
    {
      var p :| p in pending;
      assert Child(directory, BaseName(p)) == p;
      forall n | Child(directory, n) == p
        ensures n == BaseName(p)
      {
        assert p[|directory|] == n;
      }
      entries := entries[BaseName(p) := children[p]];
      pending := pending - {p};
    }
  }

  // ---------------------------------------------------------------- the walk

  datatype Listing = Listing(files: seq<Path>, directories: seq<Path>, visited: nat)

  /** The sequence lists the set, each element once. */
  ghost predicate Lists(list: seq<Path>, all: set<Path>) {
    && (forall i, j | 0 <= i < j < |list| :: list[i] != list[j])
    && (forall p :: p in list <==> p in all)
  }

  /** What is reached through the children with some names. */
  ghost function Via(base: Files, o: OverlaySnapshot, directory: Path, names: set<Name>): set<Path> {
    set p | p in ReachedSet(base, o, directory) && p[|directory|] in names
  }

  ghost function OfKind(base: Files, o: OverlaySnapshot, paths: set<Path>, kind: Kind): set<Path>
    requires ROOT !in paths
  {
    set p | p in paths && Entry(base, o, p) == Some(kind)
  }

  /** A directory of the walk cannot be read: it is not visible as one, or the base refuses to answer. */
  ghost predicate Unreadable(base: Files, o: OverlaySnapshot, directory: Path) {
    ViewStat(base, o, directory) != Ok(Directory) || TryStat(base, directory).Err?
  }

  ghost predicate Walked(base: Files, o: OverlaySnapshot, directory: Path, d: Path) {
    d == directory || ReachedAs(base, o, directory, d, Directory)
  }

  ghost predicate TooDeep(base: Files, o: OverlaySnapshot, directory: Path, depth: nat) {
    exists d :: Walked(base, o, directory, d) && depth + |d| > MAX_DEPTH + |directory|
  }

  /** Why a walk gave up: the budget was exceeded, or a directory could not be read. */
  ghost predicate WalkError(base: Files, o: OverlaySnapshot, directory: Path, depth: nat, seen: set<Path>, code: Code) {
    || (exists d :: Walked(base, o, directory, d) && Unreadable(base, o, d))
    || (code == Unsupported
        && (TooDeep(base, o, directory, depth) || |seen + ReachedSet(base, o, directory)| > MAX_NODES))
  }

  lemma NameBelowChild(p: Path, directory: Path, name: Name)
    requires p == Child(directory, name) || Under(p, Child(directory, name))
    ensures |p| > |directory| && p[|directory|] == name
  {
  }

  lemma ViaStep(base: Files, o: OverlaySnapshot, directory: Path, names: set<Name>, name: Name, kind: Kind)
    requires Entry(base, o, Child(directory, name)) == Some(kind) && name !in names
    ensures var child := Child(directory, name);
      && Via(base, o, directory, names + {name}) == Via(base, o, directory, names) + {child}
           + (if kind == Directory then ReachedSet(base, o, child) else {})
      && child !in Via(base, o, directory, names)
      && forall p | p in Via(base, o, directory, names) :: !Under(p, child)
  {
    var child := Child(directory, name);
    forall p
      ensures p in Via(base, o, directory, {name}) <==>
        p == child || (kind == Directory && p in ReachedSet(base, o, child))
    {
      if p in Via(base, o, directory, {name}) {
        assert p[..|directory| + 1] == child;
        ReachedFromChild(base, o, directory, p);
      } else if p == child || (kind == Directory && Reached(base, o, child, p)) {
        assert p[..|directory| + 1] == child;
        ReachedFromChild(base, o, directory, p);
      }
    }
    forall p | p in Via(base, o, directory, names)
      ensures p != child && !Under(p, child)
    {
      if p == child || Under(p, child) {
        NameBelowChild(p, directory, name);
      }
    }
    assert Via(base, o, directory, names + {name}) == Via(base, o, directory, names) + Via(base, o, directory, {name});
  }

  lemma ListsConcat(a: seq<Path>, b: seq<Path>, all: set<Path>, more: set<Path>)
    requires Lists(a, all) && Lists(b, more) && all !! more
    ensures Lists(a + b, all + more)
  {
    var c := a + b;
    forall i, j | 0 <= i < j < |c|
      ensures c[i] != c[j]
    {
      if i < |a| <= j {
        assert a[i] in a && b[j - |a|] in b;
      }
    }
  }

  lemma SubsetSize(a: set<Path>, b: set<Path>)
    requires a <= b
    ensures |a| <= |b|
  {
    assert b == a + (b - a);
  }

  /** What is walked below a child directory is walked below the directory. */
  lemma WalkedBelowChild(base: Files, o: OverlaySnapshot, directory: Path, child: Path, d: Path)
    requires child != ROOT && Parent(child) == directory && Entry(base, o, child) == Some(Directory)
    requires Walked(base, o, child, d)
    ensures ReachedAs(base, o, directory, d, Directory)
  {
    assert child == Child(directory, BaseName(child));
    assert d[..|directory| + 1] == child;
    ReachedFromChild(base, o, directory, d);
  }

  lemma ChildFailure(base: Files, o: OverlaySnapshot, directory: Path, child: Path, depth: nat,
                     before: set<Path>, seen: set<Path>, code: Code)
    requires child != ROOT && Parent(child) == directory && Entry(base, o, child) == Some(Directory)
    requires before <= seen + ReachedSet(base, o, directory)
    requires WalkError(base, o, child, depth + 1, before, code)
    ensures WalkError(base, o, directory, depth, seen, code)
  {
    forall d | Walked(base, o, child, d)
      ensures Walked(base, o, directory, d)
    {
      WalkedBelowChild(base, o, directory, child, d);
    }
    assert child == Child(directory, BaseName(child));
    ViaStep(base, o, directory, {}, BaseName(child), Directory);
    assert ReachedSet(base, o, child) <= ReachedSet(base, o, directory);
    SubsetSize(before + ReachedSet(base, o, child), seen + ReachedSet(base, o, directory));
  }

  lemma ReachedHasEntry(base: Files, o: OverlaySnapshot, directory: Path, p: Path)
    requires Reached(base, o, directory, p)
    ensures Entry(base, o, Child(directory, p[|directory|])).Some?
  {
    ReachedFromChild(base, o, directory, p);
    assert p[..|directory| + 1] == Child(directory, p[|directory|]);
  }

  lemma ViaAll(base: Files, o: OverlaySnapshot, directory: Path, entries: map<Name, Kind>)
    requires EntriesOf(base, o, directory, entries)
    ensures Via(base, o, directory, entries.Keys) == ReachedSet(base, o, directory)
  {
    forall p | p in ReachedSet(base, o, directory)
      ensures p in Via(base, o, directory, entries.Keys)
    {
      ReachedHasEntry(base, o, directory, p);
    }
  }

  /** A listing of some files and directories; everything seen so far has been counted. */
  ghost predicate Holds(l: Listing, files: set<Path>, directories: set<Path>, all: set<Path>) {
    && Lists(l.files, files) && Lists(l.directories, directories)
    && l.visited == |all| <= MAX_NODES
  }

  lemma HoldsOneMore(l: Listing, files: set<Path>, directories: set<Path>, all: set<Path>, child: Path)
    requires Holds(l, files, directories, all) && l.visited < MAX_NODES
    requires child !in files && child !in all
    ensures Holds(l.(files := l.files + [child], visited := l.visited + 1), files + {child}, directories, all + {child})
  {
    ListsConcat(l.files, [child], files, {child});
  }

  lemma HoldsSubtree(l: Listing, files: set<Path>, directories: set<Path>, all: set<Path>, child: Path, below: Listing,
                     files': set<Path>, directories': set<Path>, all': set<Path>)
    requires Holds(l, files, directories, all) && Holds(below, files', directories', all')
    requires files !! files' && directories !! directories' && child !in directories && child !in directories'
    ensures Holds(Listing(l.files + below.files, l.directories + [child] + below.directories, below.visited),
                  files + files', directories + {child} + directories', all')
  {
    ListsConcat(l.files, below.files, files, files');
    ListsConcat(l.directories, [child], directories, {child});
    ListsConcat(l.directories + [child], below.directories, directories + {child}, directories');
  }

  ghost function ViaFiles(base: Files, o: OverlaySnapshot, directory: Path, names: set<Name>): set<Path> {
    OfKind(base, o, Via(base, o, directory, names), File)
  }

  ghost function ViaDirectories(base: Files, o: OverlaySnapshot, directory: Path, names: set<Name>): set<Path> {
    OfKind(base, o, Via(base, o, directory, names), Directory)
  }

  ghost function ReachedDirectories(base: Files, o: OverlaySnapshot, directory: Path): set<Path> {
    OfKind(base, o, ReachedSet(base, o, directory), Directory)
  }

  /** The entries with some names have been visited. */
  ghost predicate Progress(
      base: Files, o: OverlaySnapshot, directory: Path, l: Listing, names: set<Name>, seen: set<Path>)
  {
    && (forall p | p in seen :: !Under(p, directory))
    && Holds(l, ViaFiles(base, o, directory, names), ViaDirectories(base, o, directory, names),
             seen + Via(base, o, directory, names))
  }

  lemma ViaFile(base: Files, o: OverlaySnapshot, directory: Path, names: set<Name>, name: Name)
    requires Entry(base, o, Child(directory, name)) == Some(File) && name !in names
    ensures var child := Child(directory, name);
      && Via(base, o, directory, names + {name}) == Via(base, o, directory, names) + {child}
      && ViaFiles(base, o, directory, names + {name}) == ViaFiles(base, o, directory, names) + {child}
      && ViaDirectories(base, o, directory, names + {name}) == ViaDirectories(base, o, directory, names)
      && child !in Via(base, o, directory, names) && child !in ViaFiles(base, o, directory, names)
  {
    ViaStep(base, o, directory, names, name, File);
  }

  lemma ViaDirectory(base: Files, o: OverlaySnapshot, directory: Path, names: set<Name>, name: Name)
    requires Entry(base, o, Child(directory, name)) == Some(Directory) && name !in names
    ensures var child := Child(directory, name);
      && Via(base, o, directory, names + {name}) ==
           Via(base, o, directory, names) + {child} + ReachedSet(base, o, child)
      && ViaFiles(base, o, directory, names + {name}) ==
           ViaFiles(base, o, directory, names) + ReachedFiles(base, o, child)
      && ViaDirectories(base, o, directory, names + {name}) ==
           ViaDirectories(base, o, directory, names) + {child} + ReachedDirectories(base, o, child)
      && ViaFiles(base, o, directory, names) !! ReachedFiles(base, o, child)
      && ViaDirectories(base, o, directory, names) !! ReachedDirectories(base, o, child)
      && child !in ViaDirectories(base, o, directory, names) && child !in ReachedDirectories(base, o, child)
  {
    var child := Child(directory, name);
    ViaStep(base, o, directory, names, name, Directory);
    assert child !in ReachedSet(base, o, child);
    assert Via(base, o, directory, names) !! ReachedSet(base, o, child);
  }

  lemma ProgressFile(
      base: Files, o: OverlaySnapshot, directory: Path, l: Listing, names: set<Name>, seen: set<Path>, name: Name)
    requires Progress(base, o, directory, l, names, seen) && l.visited < MAX_NODES
    requires Entry(base, o, Child(directory, name)) == Some(File) && name !in names
    ensures var child := Child(directory, name);
      Progress(base, o, directory, l.(files := l.files + [child], visited := l.visited + 1), names + {name}, seen)
  {
    hide Holds, Via, ViaFiles, ViaDirectories, Entry;
    var child := Child(directory, name);
    ViaFile(base, o, directory, names, name);
    assert child !in seen by {
      assert Under(child, directory);
    }
    HoldsOneMore(l, ViaFiles(base, o, directory, names), ViaDirectories(base, o, directory, names),
                 seen + Via(base, o, directory, names), child);
    assert seen + Via(base, o, directory, names + {name}) == seen + Via(base, o, directory, names) + {child};
  }

  lemma ProgressDirectory(
      base: Files, o: OverlaySnapshot, directory: Path, l: Listing, names: set<Name>, seen: set<Path>,
                          name: Name, below: Listing)
    requires Progress(base, o, directory, l, names, seen)
    requires Entry(base, o, Child(directory, name)) == Some(Directory) && name !in names
    requires var child := Child(directory, name);
      Holds(below, ReachedFiles(base, o, child), ReachedDirectories(base, o, child),
            seen + Via(base, o, directory, names) + {child} + ReachedSet(base, o, child))
    ensures Progress(base, o, directory,
      Listing(l.files + below.files, l.directories + [Child(directory, name)] + below.directories, below.visited),
      names + {name}, seen)
  {
    hide Holds, Via, ViaFiles, ViaDirectories, ReachedSet, ReachedFiles, ReachedDirectories, Entry, Child;
    var child := Child(directory, name);
    ViaDirectory(base, o, directory, names, name);
    var all' := seen + Via(base, o, directory, names) + {child} + ReachedSet(base, o, child);
    HoldsSubtree(l, ViaFiles(base, o, directory, names), ViaDirectories(base, o, directory, names),
                 seen + Via(base, o, directory, names), child, below,
                 ReachedFiles(base, o, child), ReachedDirectories(base, o, child), all');
    assert seen + Via(base, o, directory, names + {name}) == all';
  }

  /** The state in which a child directory is entered. */
  lemma EnterChild(
      base: Files, o: OverlaySnapshot, directory: Path, l: Listing, names: set<Name>, seen: set<Path>, name: Name,
      kind: Kind)
    requires Progress(base, o, directory, l, names, seen)
    requires Entry(base, o, Child(directory, name)) == Some(kind) && name !in names
    ensures var child := Child(directory, name);
      var before := seen + Via(base, o, directory, names) + {child};
      && |before| == l.visited + 1
      && before <= seen + ReachedSet(base, o, directory)
      && (forall p | p in before :: !Under(p, child))
      && Parent(child) == directory
      && (l.visited + 1 > MAX_NODES ==> |seen + ReachedSet(base, o, directory)| > MAX_NODES)
  {
    var child := Child(directory, name);
    var so := seen + Via(base, o, directory, names);
    ViaStep(base, o, directory, names, name, kind);
    assert child in Via(base, o, directory, names + {name});
    assert child !in seen && forall p | p in seen :: !Under(p, child);
    CountOneMore(so, child, seen + ReachedSet(base, o, directory));
  }

  lemma CountOneMore(so: set<Path>, child: Path, all: set<Path>)
    requires child !in so && so + {child} <= all
    ensures |so + {child}| == |so| + 1 <= |all|
  {
    SubsetSize(so + {child}, all);
  }

  /** One entry of the loop: the child itself and, for a directory, everything below it. */
  method Visit(base: Files, o: OverlaySnapshot, directory: Path, depth: nat, name: Name, kind: Kind, before: Listing,
               ghost names: set<Name>, ghost seen: set<Path>)
    returns (r: Result<Listing>)
    requires TreeShaped(base) && depth <= MAX_DEPTH
    requires Entry(base, o, Child(directory, name)) == Some(kind) && name !in names
    requires Progress(base, o, directory, before, names, seen)
    ensures r.Ok? ==> Progress(base, o, directory, r.value, names + {name}, seen)
    ensures r.Ok? ==> Shallow(base, o, directory, depth, {name})
    ensures r.Err? ==> WalkError(base, o, directory, depth, seen, r.code)
    decreases MAX_DEPTH + 1 - depth, 0
  {
    var child := Child(directory, name);
    ghost var all := seen + Via(base, o, directory, names) + {child};
    EnterChild(base, o, directory, before, names, seen, name, kind);
    if before.visited + 1 > MAX_NODES {
      return Err(Unsupported);
    }
    if kind == File {
      ProgressFile(base, o, directory, before, names, seen, name);
      return Ok(before.(files := before.files + [child], visited := before.visited + 1));
    }
    r := Walk(base, o, child, depth + 1, before.visited + 1, all);
    if r.Err? {
      ChildFailure(base, o, directory, child, depth, all, seen, r.code);
      return;
    }
    ProgressDirectory(base, o, directory, before, names, seen, name, r.value);
    r := Ok(Listing(before.files + r.value.files,
                    before.directories + [child] + r.value.directories,
                    r.value.visited));
  }

  /** The recursive walk that `listVisibleFiles` and `listVisibleDirectories` share. */
  method Walk(base: Files, o: OverlaySnapshot, directory: Path, depth: nat, visited: nat, ghost seen: set<Path>)
    returns (r: Result<Listing>)
    requires TreeShaped(base) && depth <= MAX_DEPTH + 1
    requires visited == |seen| <= MAX_NODES && forall p | p in seen :: !Under(p, directory)
    ensures r.Ok? ==> Holds(r.value, ReachedFiles(base, o, directory), ReachedDirectories(base, o, directory),
                            seen + ReachedSet(base, o, directory))
    ensures r.Ok? ==> !TooDeep(base, o, directory, depth) && ViewStat(base, o, directory) == Ok(Directory)
    ensures r.Err? ==> WalkError(base, o, directory, depth, seen, r.code)
    decreases MAX_DEPTH + 1 - depth, 2
  {
    if depth > MAX_DEPTH {
      assert Walked(base, o, directory, directory);
      return Err(Unsupported);
    }
    var entries := ReadDirectory(base, o, directory);
    if entries.Err? {
      assert Walked(base, o, directory, directory);
      return Err(entries.code);
    }
    r := WalkEntries(base, o, directory, depth, visited, entries.value, seen);
    if r.Ok? {
      ProgressEnd(base, o, directory, r.value, entries.value, seen);
      DepthOfAll(base, o, directory, depth, entries.value);
    }
  }

  /** The loop of one directory over its entries. */
  method WalkEntries(
      base: Files, o: OverlaySnapshot, directory: Path, depth: nat, visited: nat, entries: map<Name, Kind>,
                     ghost seen: set<Path>)
    returns (r: Result<Listing>)
    requires TreeShaped(base) && depth <= MAX_DEPTH
    requires forall n | n in entries :: Entry(base, o, Child(directory, n)) == Some(entries[n])
    requires visited == |seen| <= MAX_NODES && forall p | p in seen :: !Under(p, directory)
    ensures r.Ok? ==> Progress(base, o, directory, r.value, entries.Keys, seen)
    ensures r.Ok? ==> Shallow(base, o, directory, depth, entries.Keys)
    ensures r.Err? ==> WalkError(base, o, directory, depth, seen, r.code)
    decreases MAX_DEPTH + 1 - depth, 1
  {
    hide Progress, TooDeep, Entry;
    var l := Listing([], [], visited);
    var pending := entries.Keys;
    ghost var done := {};
    ProgressStart(base, o, directory, l, seen);
    while pending != {}
      invariant done + pending == entries.Keys && done !! pending
      invariant Progress(base, o, directory, l, done, seen)
      invariant Shallow(base, o, directory, depth, done)
      decreases |pending|
    {
      var name :| name in pending;
      r := Visit(base, o, directory, depth, name, entries[name], l, done, seen);
      if r.Err? {
        return;
      }
      l := r.value;
      pending, done := pending - {name}, done + {name};
    }
    assert done == entries.Keys;
    r := Ok(l);
  }

  /** No child directory with one of the names is too deep or has anything too deep below it. */
  ghost predicate Shallow(base: Files, o: OverlaySnapshot, directory: Path, depth: nat, names: set<Name>) {
    forall n | n in names && Entry(base, o, Child(directory, n)) == Some(Directory) ::
      !TooDeep(base, o, Child(directory, n), depth + 1)
  }

  lemma ProgressStart(base: Files, o: OverlaySnapshot, directory: Path, l: Listing, seen: set<Path>)
    requires l.files == [] && l.directories == [] && l.visited == |seen| <= MAX_NODES
    requires forall p | p in seen :: !Under(p, directory)
    ensures Progress(base, o, directory, l, {}, seen)
  {
    assert Via(base, o, directory, {}) == {};
    assert seen + Via(base, o, directory, {}) == seen;
  }

  lemma ProgressEnd(
      base: Files, o: OverlaySnapshot, directory: Path, l: Listing, entries: map<Name, Kind>, seen: set<Path>)
    requires EntriesOf(base, o, directory, entries) && Progress(base, o, directory, l, entries.Keys, seen)
    ensures Holds(l, ReachedFiles(base, o, directory), ReachedDirectories(base, o, directory),
                  seen + ReachedSet(base, o, directory))
  {
    ViaAll(base, o, directory, entries);
    assert ViaFiles(base, o, directory, entries.Keys) == ReachedFiles(base, o, directory);
  }

  lemma DepthOfOne(base: Files, o: OverlaySnapshot, directory: Path, depth: nat, entries: map<Name, Kind>, d: Path)
    requires EntriesOf(base, o, directory, entries)
    requires Shallow(base, o, directory, depth, entries.Keys)
    requires ReachedAs(base, o, directory, d, Directory)
    ensures depth + |d| <= MAX_DEPTH + |directory|
  {
    var n := d[|directory|];
    var child := Child(directory, n);
    ReachedHasEntry(base, o, directory, d);
    assert n in entries;
    ReachedFromChild(base, o, directory, d);
    assert d[..|directory| + 1] == child;
    assert Walked(base, o, child, d);
    assert !TooDeep(base, o, child, depth + 1);
  }

  lemma DepthOfAll(base: Files, o: OverlaySnapshot, directory: Path, depth: nat, entries: map<Name, Kind>)
    requires EntriesOf(base, o, directory, entries) && depth <= MAX_DEPTH
    requires Shallow(base, o, directory, depth, entries.Keys)
    ensures !TooDeep(base, o, directory, depth)
  {
    hide EntriesOf, Shallow, Entry;
    forall d | Walked(base, o, directory, d)
      ensures depth + |d| <= MAX_DEPTH + |directory|
    {
      if d != directory {
        DepthOfOne(base, o, directory, depth, entries, d);
      }
    }
  }

  /** The whole directory fits the traversal budget. */
  ghost predicate WithinBudget(base: Files, o: OverlaySnapshot, directory: Path) {
    !TooDeep(base, o, directory, 0) && |ReachedSet(base, o, directory)| <= MAX_NODES
  }

  /** `listVisibleFiles`: a file lists itself. */
  method ListVisibleFiles(base: Files, o: OverlaySnapshot, path: Path) returns (r: Result<seq<Path>>)
    requires TreeShaped(base)
    ensures ViewStat(base, o, path) == Ok(File) ==> r == Ok([path])
    ensures r.Ok? && ViewStat(base, o, path) != Ok(File) ==> Lists(r.value, ReachedFiles(base, o, path))
    ensures KindStable(base, o) && ViewStat(base, o, path) == Ok(Directory) ==>
      if WithinBudget(base, o, path) then r.Ok? else r == Err(Unsupported)
    ensures ViewStat(base, o, path).Err? ==> r == Err(ViewStat(base, o, path).code)
  {
    var stat := ViewStat(base, o, path);
    if stat.Err? {
      return Err(stat.code);
    }
    if stat.value == File {
      return Ok([path]);
    }
    var listing := Walk(base, o, path, 0, 0, {});
    if KindStable(base, o) {
      WalkSucceeds(base, o, path);
    }
    assert {} + ReachedSet(base, o, path) == ReachedSet(base, o, path);
    r := if listing.Ok? then Ok(listing.value.files) else Err(listing.code);
  }

  /** `listVisibleDirectories`: every visible directory below, the starting one not included. */
  method ListVisibleDirectories(base: Files, o: OverlaySnapshot, path: Path) returns (r: Result<seq<Path>>)
    requires TreeShaped(base)
    ensures r.Ok? ==> ViewStat(base, o, path) == Ok(Directory) && Lists(r.value, ReachedDirectories(base, o, path))
    ensures KindStable(base, o) && ViewStat(base, o, path) == Ok(Directory) ==>
      if WithinBudget(base, o, path) then r.Ok? else r == Err(Unsupported)
  {
    var listing := Walk(base, o, path, 0, 0, {});
    if KindStable(base, o) && ViewStat(base, o, path) == Ok(Directory) {
      WalkSucceeds(base, o, path);
    }
    assert {} + ReachedSet(base, o, path) == ReachedSet(base, o, path);
    r := if listing.Ok? then Ok(listing.value.directories) else Err(listing.code);
  }

  /** With stable kinds every directory of a walk can be read. */
  lemma WalkSucceeds(base: Files, o: OverlaySnapshot, path: Path)
    requires KindStable(base, o) && ViewStat(base, o, path) == Ok(Directory)
    ensures forall d | Walked(base, o, path, d) :: !Unreadable(base, o, d)
  {
    forall d | Walked(base, o, path, d)
      ensures !Unreadable(base, o, d)
    {
      if d != ROOT {
        ViewsAgree(base, o, d);
        DirectoryIsStatable(base, o, d);
      }
    }
  }

  lemma DirectoryIsStatable(base: Files, o: OverlaySnapshot, d: Path)
    requires KindStable(base, o) && d != ROOT && (d in o.directories || IsDirectory(base, d))
    ensures TryStat(base, d).Ok?
  {
    BaseIsTree(base, o);
    StatOfTree(base, d);
    if Parent(d) in base {
      FileIsNotAbove(base, o, Parent(d), d);
      assert Under(d, Parent(d));
    }
  }

  /** While every parent is present a listing is all visible files below the directory. */
  lemma ListingIsComplete(base: Files, o: OverlaySnapshot, directory: Path, list: seq<Path>)
    requires WellFormed(base, o) && ParentsPresent(base, o)
    requires Lists(list, ReachedFiles(base, o, directory))
    ensures Lists(list, set p | p in Visible(base, o) && Under(p, directory))
  {
    forall p
      ensures p in ReachedFiles(base, o, directory) <==> p in Visible(base, o) && Under(p, directory)
    {
      ReachedFilesAreVisible(base, o, directory, p);
      if Orphan(base, o, directory, p) && directory != p {
        NoOrphans(base, o, directory, p);
      }
    }
  }
}
