/** The working overlay: files, directory markers, tombstones and rename records. */
module Overlays {
  import opened Wrappers
  import opened Paths
  import opened Repository

  datatype Rename = Rename(from: Path, to: Path)

  /** One overlay as a value: what `snapshot` captures and `restore` puts back. */
  datatype OverlaySnapshot = OverlaySnapshot(
    files: Files,
    directories: set<Path>,
    deleted: set<Path>,
    renames: seq<Rename>)
  {
    /** The path or one of its ancestors carries a tombstone. */
    predicate IsDeleted(path: Path) {
      exists t | t in deleted :: Within(path, t)
    }

    predicate IsEmpty() {
      files == map[] && directories == {} && deleted == {}
    }

    function RemoveOverlayPath(path: Path): OverlaySnapshot {
      OverlaySnapshot(
        map f | f in files && !Within(f, path) :: files[f],
        (set d | d in directories && !Within(d, path)),
        deleted,
        RenamesApartFrom(renames, path))
    }

    function MarkDeleted(path: Path): OverlaySnapshot {
      var kept := RemoveOverlayPath(path);
      kept.(deleted := kept.deleted + {path})
    }

    function UnmarkDeleted(path: Path, includeAncestors: bool): OverlaySnapshot {
      this.(deleted := set t | t in deleted && t != path && !(includeAncestors && Within(path, t)))
    }

    function SetFile(path: Path, content: Bytes): OverlaySnapshot {
      this.(files := files[path := content], directories := directories - {path})
        .UnmarkDeleted(path, true)
    }

    /** Unlike `SetFile` this clears the tombstone of the path alone. */
    function SetDirectory(path: Path): OverlaySnapshot {
      this.(files := files - {path}, directories := directories + {path}, deleted := deleted - {path})
    }

    function AddRename(from: Path, to: Path): OverlaySnapshot {
      this.(renames := renames + [Rename(from, to)])
    }
  }

  const EMPTY: OverlaySnapshot := OverlaySnapshot(map[], {}, {}, [])

  predicate Touches(rename: Rename, path: Path) {
    Within(rename.from, path) || Within(rename.to, path)
  }

  function RenamesApartFrom(renames: seq<Rename>, path: Path): seq<Rename> {
    if renames == [] then []
    else
      var rest := RenamesApartFrom(renames[..|renames| - 1], path);
      var last := renames[|renames| - 1];
      if Touches(last, path) then rest else rest + [last]
  }

  /** Removing a path forgets the records that begin or end at or below it, and no other. */
  lemma {:induction false} RecordsKept(renames: seq<Rename>, path: Path)
    ensures forall r ::
      r in RenamesApartFrom(renames, path) <==> r in renames && !Within(r.from, path) && !Within(r.to, path)
  {
    if renames != [] {
      RecordsKept(renames[..|renames| - 1], path);
      assert renames == renames[..|renames| - 1] + [renames[|renames| - 1]];
    }
  }

  /** The records that are kept stay in order. */
  lemma {:induction false} RecordsStayInOrder(a: seq<Rename>, b: seq<Rename>, path: Path)
    ensures RenamesApartFrom(a + b, path) == RenamesApartFrom(a, path) + RenamesApartFrom(b, path)
  {
    if b == [] {
      assert a + b == a;
    } else {
      var shorter := b[..|b| - 1];
      RecordsStayInOrder(a, shorter, path);
      assert (a + b)[..|a + b| - 1] == a + shorter;
    }
  }

  lemma {:induction false} RenamesAbsorb(renames: seq<Rename>, below: Path, path: Path)
    requires Within(below, path)
    ensures RenamesApartFrom(RenamesApartFrom(renames, below), path) == RenamesApartFrom(renames, path)
  {
    if renames != [] {
      var shorter, last := renames[..|renames| - 1], renames[|renames| - 1];
      RenamesAbsorb(shorter, below, path);
      var rest := RenamesApartFrom(shorter, below);
      if Touches(last, below) {
        assert Touches(last, path);
      } else {
        assert (rest + [last])[..|rest|] == rest;
      }
    }
  }

  /** The position of the first record whose target is the path, if there is one. */
  function FirstRenameTo(renames: seq<Rename>, path: Path): (i: Option<nat>)
    ensures i.None? <==> forall r | r in renames :: r.to != path
    ensures i.Some? ==> i.value < |renames| && renames[i.value].to == path
    ensures i.Some? ==> forall k | 0 <= k < i.value :: renames[k].to != path
  {
    if renames == [] then None
    else if renames[0].to == path then Some(0)
    else
      match FirstRenameTo(renames[1..], path)
      case None => assert forall r | r in renames :: r == renames[0] || r in renames[1..]; None
      case Some(i) => Some(i + 1)
  }

  /** The overlay as the program keeps it: four collections changed in place. */
  class Overlay {
    var files: map<Path, Bytes>
    var directories: set<Path>
    var deletedPaths: set<Path>
    var renames: seq<Rename>

    function Snapshot(): OverlaySnapshot
      reads this
    {
      OverlaySnapshot(files, directories, deletedPaths, renames)
    }

    constructor FromSnapshot(snapshot: OverlaySnapshot)
      ensures Snapshot() == snapshot
    {
      new;
      Restore(snapshot);
    }

    method Restore(snapshot: OverlaySnapshot)
      modifies this
      ensures Snapshot() == snapshot
    {
      Clear();
      RestoreFiles(snapshot.files);
      directories := AddAll({}, snapshot.directories);
      deletedPaths := AddAll({}, snapshot.deleted);
      for i := 0 to |snapshot.renames|
        invariant Snapshot() == snapshot.(renames := snapshot.renames[..i])
      {
        renames := renames + [snapshot.renames[i]];
      }
    }

    method RestoreFiles(saved: map<Path, Bytes>)
      requires files == map[]
      modifies `files
      ensures files == saved
    {
      var pending := saved.Keys;
      while pending != {}
        invariant pending <= saved.Keys && files.Keys == saved.Keys - pending
        invariant forall f | f in files :: files[f] == saved[f]
        decreases |pending|
      {
        var file :| file in pending;
        files := files[file := saved[file]];
        pending := pending - {file};
      }
    }

    method Clear()
      modifies this
      ensures Snapshot() == EMPTY
    {
      files, directories, deletedPaths, renames := map[], {}, {}, [];
    }

    method RemoveFileEntry(path: Path)
      modifies `files
      ensures files == old(files) - {path}
    {
      files := files - {path};
    }

    method RemoveDirectoryMarker(path: Path)
      modifies `directories
      ensures directories == old(directories) - {path}
    {
      directories := directories - {path};
    }

    method SetFile(path: Path, content: Bytes)
      modifies this
      ensures Snapshot() == old(Snapshot()).SetFile(path, content)
    {
      files := files[path := content];
      directories := directories - {path};
      UnmarkDeleted(path, true);
    }

    method SetDirectory(path: Path)
      modifies this
      ensures Snapshot() == old(Snapshot()).SetDirectory(path)
    {
      directories := directories + {path};
      files := files - {path};
      deletedPaths := deletedPaths - {path};
    }

    method RemoveOverlayPath(path: Path)
      modifies this
      ensures Snapshot() == old(Snapshot()).RemoveOverlayPath(path)
    {
      RemoveFilesWithin(path);
      RemoveDirectoriesWithin(path);
      RemoveRenamesTouching(path);
    }

    method RemoveFilesWithin(path: Path)
      modifies `files
      ensures files == map f | f in old(files) && !Within(f, path) :: old(files)[f]
    {
      var pending := files.Keys;
      while pending != {}
        invariant pending <= old(files).Keys
        invariant files.Keys == set f | f in old(files) && (f in pending || !Within(f, path))
        invariant forall f | f in files :: files[f] == old(files)[f]
        decreases |pending|
      {
        var file :| file in pending;
        if Within(file, path) {
          files := files - {file};
        }
        pending := pending - {file};
      }
    }

    method RemoveDirectoriesWithin(path: Path)
      modifies `directories
      ensures directories == set d | d in old(directories) && !Within(d, path)
    {
      var pending := directories;
      while pending != {}
        invariant pending <= old(directories)
        invariant directories == set d | d in old(directories) && (d in pending || !Within(d, path))
        decreases |pending|
      {
        var directory :| directory in pending;
        if Within(directory, path) {
          directories := directories - {directory};
        }
        pending := pending - {directory};
      }
    }

    /** Runs from the last record to the first, as removing by position requires. */
    method RemoveRenamesTouching(path: Path)
      modifies `renames
      ensures renames == RenamesApartFrom(old(renames), path)
    {
      ghost var was := renames;
      var index := |renames| - 1;
      ghost var kept := [];
      assert was[..index + 1] == was;
      while index >= 0
        invariant -1 <= index < |was|
        invariant renames == was[..index + 1] + kept
        invariant RenamesApartFrom(was, path) == RenamesApartFrom(was[..index + 1], path) + kept
      {
        var rename := renames[index];
        assert was[..index + 1][..index] == was[..index];
        if Touches(rename, path) {
          renames := renames[..index] + renames[index + 1..];
        } else {
          kept := [rename] + kept;
        }
        index := index - 1;
      }
    }

    method MarkDeleted(path: Path)
      modifies this
      ensures Snapshot() == old(Snapshot()).MarkDeleted(path)
    {
      RemoveOverlayPath(path);
      deletedPaths := deletedPaths + {path};
    }

    method UnmarkDeleted(path: Path, includeAncestors: bool)
      modifies `deletedPaths
      ensures deletedPaths == old(Snapshot()).UnmarkDeleted(path, includeAncestors).deleted
    {
      var pending := deletedPaths;
      while pending != {}
        invariant pending <= old(deletedPaths)
        invariant deletedPaths == set t | t in old(deletedPaths) &&
          (t in pending || (t != path && !(includeAncestors && Within(path, t))))
        decreases |pending|
      {
        var tombstone :| tombstone in pending;
        if tombstone == path || (includeAncestors && Within(path, tombstone)) {
          deletedPaths := deletedPaths - {tombstone};
        }
        pending := pending - {tombstone};
      }
    }

    method AddRename(from: Path, to: Path)
      modifies this
      ensures Snapshot() == old(Snapshot()).AddRename(from, to)
    {
      renames := renames + [Rename(from, to)];
    }

    method RemoveRename(rename: Rename)
      modifies `renames
      ensures renames == WithoutFirst(old(renames), rename)
    {
      assert renames[0..] == renames;
      for i := 0 to |renames|
        invariant renames == old(renames)
        invariant WithoutFirst(renames, rename) == renames[..i] + WithoutFirst(renames[i..], rename)
      {
        assert renames[i..][0] == renames[i] && renames[i..][1..] == renames[i + 1..];
        if renames[i] == rename {
          renames := renames[..i] + renames[i + 1..];
          return;
        }
      }
    }

    method RemoveRenameTo(path: Path) returns (removed: Option<Rename>)
      modifies this
      ensures removed == RemovedRename(old(Snapshot()), path).0
      ensures Snapshot() == RemovedRename(old(Snapshot()), path).1
    {
      var index := FirstRenameTo(renames, path);
      if index.None? {
        return None;
      }
      removed := Some(renames[index.value]);
      renames := renames[..index.value] + renames[index.value + 1..];
    }
  }

  /** The records without the first one equal to the given one. */
  function WithoutFirst(renames: seq<Rename>, rename: Rename): seq<Rename> {
    if renames == [] then []
    else if renames[0] == rename then renames[1..]
    else [renames[0]] + WithoutFirst(renames[1..], rename)
  }

  lemma {:induction false} WithoutFirstAt(a: seq<Rename>, rename: Rename, b: seq<Rename>)
    requires rename !in a
    ensures WithoutFirst(a + [rename] + b, rename) == a + b
  {
    var all := a + [rename] + b;
    if a == [] {
      assert all[1..] == b;
    } else {
      WithoutFirstAt(a[1..], rename, b);
      assert all[0] == a[0] && all[1..] == a[1..] + [rename] + b;
      assert WithoutFirst(all, rename) == [a[0]] + (a[1..] + b);
    }
  }

  method AddAll(start: set<Path>, paths: set<Path>) returns (all: set<Path>)
    ensures all == start + paths
  {
    all := start;
    var pending := paths;
    while pending != {}
      invariant pending <= paths && all == start + (paths - pending)
      decreases |pending|
    {
      var path :| path in pending;
      all := all + {path};
      pending := pending - {path};
    }
  }

  function RemovedRename(overlay: OverlaySnapshot, path: Path): (Option<Rename>, OverlaySnapshot) {
    match FirstRenameTo(overlay.renames, path)
    case None => (None, overlay)
    case Some(i) =>
      (Some(overlay.renames[i]), overlay.(renames := overlay.renames[..i] + overlay.renames[i + 1..]))
  }
}
