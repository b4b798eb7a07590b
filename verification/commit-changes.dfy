/** Collecting the changes of a working tree and selecting the part of them to publish. */
module CommitChanges {
  import opened Wrappers
  import opened Paths
  import opened Repository
  import opened Overlays
  import opened TreeView
  import opened Edits
  import opened ChangeSets
  import opened Rebases
  import opened FixtureFiles
  import opened Traversal

  /** What the editor lists for a path. */
  datatype WorkingChange =
    | Renamed(path: Path, original: Path)
    | Added(path: Path)
    | Modified(path: Path)
    | Deleted(path: Path)

  function LastRenameTo(renames: seq<Rename>, path: Path): (r: Option<Rename>)
    ensures r.Some? ==> r.value in renames && r.value.to == path
    ensures r.None? ==> forall rename | rename in renames :: rename.to != path
  {
    if renames == [] then None
    else if renames[|renames| - 1].to == path then Some(renames[|renames| - 1])
    else LastRenameTo(renames[..|renames| - 1], path)
  }

  predicate NoRenameFrom(renames: seq<Rename>, path: Path) {
    forall r | r in renames :: r.from != path
  }

  /** A deletion is shown unless it is the source of a rename; a rename hides the content change of its target. */
  function WorkingChangeFor(base: Files, o: OverlaySnapshot, path: Path): Option<WorkingChange> {
    if IsDeletedBaseFile(base, o, path) && NoRenameFrom(o.renames, path) then Some(Deleted(path))
    else if LastRenameTo(o.renames, path).Some? then Some(Renamed(path, LastRenameTo(o.renames, path).value.from))
    else if path in o.files && path !in base then Some(Added(path))
    else if path in o.files && base[path] != o.files[path] then Some(Modified(path))
    else None
  }

  /** The record is the last one with its target, and no later move has replaced it. */
  predicate IsLastRecordTo(renames: seq<Rename>, path: Path, i: nat) {
    i < |renames| && renames[i].to == path && forall k | i < k < |renames| :: renames[k].to != path
  }

  lemma {:induction false} LastRecordIsShown(renames: seq<Rename>, path: Path, i: nat)
    requires IsLastRecordTo(renames, path, i)
    ensures LastRenameTo(renames, path) == Some(renames[i])
  {
    if i < |renames| - 1 {
      LastRecordIsShown(renames[..|renames| - 1], path, i);
    }
  }

  /** What the editor lists for a path, in terms of what the path shows and of the records. */
  lemma WorkingChangeMeaning(base: Files, o: OverlaySnapshot, path: Path, i: nat)
    requires Sound(base, o)
    ensures var change := WorkingChangeFor(base, o, path);
      && (change == Some(Deleted(path)) <==>
            path in base && path !in Visible(base, o) && forall r | r in o.renames :: r.from != path)
      && (change == Some(Added(path)) <==>
            path !in base && path in Visible(base, o) && forall r | r in o.renames :: r.to != path)
      && (change == Some(Modified(path)) <==>
            && path in base && path in Visible(base, o) && base[path] != Visible(base, o)[path]
            && forall r | r in o.renames :: r.to != path)
      && (IsLastRecordTo(o.renames, path, i) && change != Some(Deleted(path)) ==>
            change == Some(Renamed(path, o.renames[i].from)))
      && (change.Some? && change.value.Renamed? ==> exists r | r in o.renames :: r.to == path)
  {
    ChangeMeaning(base, o, path);
    VisibleShows(base, o, path);
    if IsLastRecordTo(o.renames, path, i) {
      LastRecordIsShown(o.renames, path, i);
    }
  }

  /** What a selection publishes: the selected changes and the sources of the selected renames, and no more. */
  lemma SelectionClosesOverRenames(base: Files, o: OverlaySnapshot, selected: set<Path>, p: Path)
    ensures p in CommitPaths(base, o, selected) <==>
      || (p in selected && WorkingChangeFor(base, o, p).Some?)
      || exists q | q in selected :: WorkingChangeFor(base, o, q) == Some(Renamed(q, p))
  {
    if q :| q in selected && WorkingChangeFor(base, o, q) == Some(Renamed(q, p)) {
      assert WorkingChangeFor(base, o, q).value.original == p;
    }
    if p in CommitPaths(base, o, selected) && !(p in selected && WorkingChangeFor(base, o, p).Some?) {
      var q :| q in selected && WorkingChangeFor(base, o, q).Some? && WorkingChangeFor(base, o, q).value.Renamed?
        && p == WorkingChangeFor(base, o, q).value.original;
      assert WorkingChangeFor(base, o, q) == Some(Renamed(q, p));
    }
  }

  /** The paths whose changes a selection publishes: the selected ones, and the sources of selected renames. */
  function CommitPaths(base: Files, o: OverlaySnapshot, selected: set<Path>): set<Path> {
    (set p | p in selected && WorkingChangeFor(base, o, p).Some?)
    + (set p | p in selected && WorkingChangeFor(base, o, p).Some? && WorkingChangeFor(base, o, p).value.Renamed?
       :: WorkingChangeFor(base, o, p).value.original)
  }

  /** A selected rename is published with both its ends. */
  lemma RenamesAreSelectedWhole(base: Files, o: OverlaySnapshot, selected: set<Path>, from: Path, to: Path)
    requires to in selected && WorkingChangeFor(base, o, to) == Some(Renamed(to, from))
    ensures from in CommitPaths(base, o, selected) && to in CommitPaths(base, o, selected)
  {
    assert WorkingChangeFor(base, o, to).value.original == from;
  }

  /** The deletion that a rename leaves behind is never published without the rename. */
  lemma RenameSourceNeedsTarget(base: Files, o: OverlaySnapshot, selected: set<Path>, rename: Rename)
    requires rename in o.renames && rename.from !in o.files
    requires rename.from in CommitPaths(base, o, selected)
    ensures exists q | q in selected ::
      WorkingChangeFor(base, o, q).Some? && WorkingChangeFor(base, o, q).value.Renamed?
      && (q == rename.from || WorkingChangeFor(base, o, q).value.original == rename.from)
  {
    if !(exists q |
           q in selected && WorkingChangeFor(base, o, q).Some? && WorkingChangeFor(base, o, q).value.Renamed? ::
           WorkingChangeFor(base, o, q).value.original == rename.from) {
      assert WorkingChangeFor(base, o, rename.from).Some?;
    }
  }

  /** `tryReadBase` never fails on the paths of a well-formed overlay. */
  lemma OverlayPathsAreStatable(base: Files, o: OverlaySnapshot, path: Path)
    requires WellFormed(base, o) && (path in o.files || path in o.deleted)
    ensures TryStat(base, path).Ok?
  {
    BaseIsTree(base, o);
    StatOfTree(base, path);
    assert path in o.files || path in base ==> IsEntryPath(base, o, path);
    if path != ROOT && Parent(path) in base {
      assert Under(path, Parent(path));
    }
  }

  /** Tombstoned base directories within the traversal budget of the repository reader. */
  ghost predicate TombstonesWithinBudget(base: Files, o: OverlaySnapshot) {
    forall t | t in o.deleted && Stat(base, t) == Ok(Directory) :: WithinBudget(base, EMPTY, t)
  }

  lemma EmptyIsWellFormed(base: Files)
    requires TreeShaped(base)
    ensures WellFormed(base, EMPTY) && ParentsPresent(base, EMPTY) && Visible(base, EMPTY) == base
  {
    VisibleIs(base, EMPTY, base);
  }

  /** `listFilesRecursively` of a base directory. */
  method ListFilesRecursively(base: Files, directory: Path) returns (r: Result<seq<Path>>)
    requires TreeShaped(base) && Stat(base, directory) == Ok(Directory)
    ensures r.Ok? ==> Lists(r.value, set p | p in base && Under(p, directory))
    ensures r.Ok? <==> WithinBudget(base, EMPTY, directory)
  {
    EmptyIsWellFormed(base);
    r := ListVisibleFiles(base, EMPTY, directory);
    if r.Ok? {
      ListingIsComplete(base, EMPTY, directory, r.value);
    }
  }

  method DeletedBaseFiles(base: Files, o: OverlaySnapshot) returns (r: Result<set<Path>>)
    requires TreeShaped(base)
    ensures r.Ok? ==> forall p :: p in r.value <==> IsDeletedBaseFile(base, o, p)
    ensures WellFormed(base, o) && TombstonesWithinBudget(base, o) ==> r.Ok?
  {
    var result: set<Path> := {};
    var pending := o.deleted;
    while pending != {}
      invariant pending <= o.deleted
      invariant forall p :: p in result <==> exists t | t in o.deleted - pending :: HiddenBy(base, t, p)
      decreases |pending|
    {
      var t :| t in pending;
      var hidden := FilesHiddenBy(base, t);
      if hidden.Err? {
        if WellFormed(base, o) {
          OverlayPathsAreStatable(base, o, t);
        }
        return Err(hidden.code);
      }
      result := result + hidden.value;
      pending := pending - {t};
    }
    assert forall p :: IsDeletedBaseFile(base, o, p) <==> exists t | t in o.deleted :: HiddenBy(base, t, p);
    r := Ok(result);
  }

  /** The base file is deleted by the tombstone. */
  predicate HiddenBy(base: Files, tombstone: Path, path: Path) {
    path in base && (tombstone == path || (Under(path, tombstone) && Stat(base, tombstone) == Ok(Directory)))
  }

  method FilesHiddenBy(base: Files, tombstone: Path) returns (r: Result<set<Path>>)
    requires TreeShaped(base)
    ensures r.Ok? ==> forall p :: p in r.value <==> HiddenBy(base, tombstone, p)
    ensures r.Ok? <==>
      TryStat(base, tombstone).Ok? && (Stat(base, tombstone) == Ok(Directory) ==> WithinBudget(base, EMPTY, tombstone))
  {
    var stat := TryStat(base, tombstone);
    if stat.Err? {
      return Err(stat.code);
    }
    StatOfTree(base, tombstone);
    if stat.value == Some(File) {
      return Ok({tombstone});
    }
    if stat.value == Some(Directory) {
      var files := ListFilesRecursively(base, tombstone);
      if files.Err? {
        return Err(files.code);
      }
      return Ok(set p | p in files.value);
    }
    return Ok({});
  }

  /** The map names exactly the changes of some paths. */
  ghost predicate MapsChanges(base: Files, o: OverlaySnapshot, changes: map<Path, Change>) {
    forall p :: (if p in changes then Some(changes[p]) else None) == ChangeFor(base, o, p)
  }

  method ChangesOfFiles(base: Files, o: OverlaySnapshot) returns (r: Result<map<Path, Change>>)
    requires TreeShaped(base)
    ensures r.Ok? ==> forall p :: p in r.value <==>
      p in o.files && (p !in base || base[p] != o.files[p])
    ensures r.Ok? ==> forall p | p in r.value ::
      r.value[p] == if p in base then Modify(p, o.files[p]) else Add(p, o.files[p])
    ensures WellFormed(base, o) ==> r.Ok?
  {
    var changes: map<Path, Change> := map[];
    var pending := o.files.Keys;
    while pending != {}
      invariant pending <= o.files.Keys
      invariant forall p :: p in changes <==>
        p in o.files.Keys - pending && (p !in base || base[p] != o.files[p])
      invariant forall p | p in changes ::
        changes[p] == if p in base then Modify(p, o.files[p]) else Add(p, o.files[p])
      decreases |pending|
    {
      var file :| file in pending;
      var known := TryReadBase(base, file);
      if known.Err? {
        if WellFormed(base, o) {
          OverlayPathsAreStatable(base, o, file);
        }
        return Err(known.code);
      }
      StatOfTree(base, file);
      if known.value.None? {
        changes := changes[file := Add(file, o.files[file])];
      } else if known.value.value != o.files[file] {
        changes := changes[file := Modify(file, o.files[file])];
      }
      pending := pending - {file};
    }
    r := Ok(changes);
  }

  method BuildAllCommitChanges(base: Files, o: OverlaySnapshot) returns (r: Result<map<Path, Change>>)
    requires TreeShaped(base)
    ensures r.Ok? ==> MapsChanges(base, o, r.value)
    ensures WellFormed(base, o) && TombstonesWithinBudget(base, o) ==> r.Ok?
  {
    var files := ChangesOfFiles(base, o);
    if files.Err? {
      return Err(files.code);
    }
    var deleted := DeletedBaseFiles(base, o);
    if deleted.Err? {
      return Err(deleted.code);
    }
    var changes := files.value;
    var pending := deleted.value;
    while pending != {}
      invariant pending <= deleted.value
      invariant forall p :: p in changes <==> p in files.value || p in deleted.value - pending
      invariant forall p | p in changes ::
        changes[p] == if p in files.value then files.value[p] else DeleteChange(p)
      decreases |pending|
    {
      var path :| path in pending;
      if path !in changes {
        changes := changes[path := DeleteChange(path)];
      }
      pending := pending - {path};
    }
    r := Ok(changes);
  }

  /** `getWorkingTreeChanges`: records first, then files not named by a record, then deletions. */
  method GetWorkingTreeChanges(base: Files, o: OverlaySnapshot) returns (r: Result<map<Path, WorkingChange>>)
    requires TreeShaped(base)
    ensures r.Ok? ==> forall p ::
      (if p in r.value then Some(r.value[p]) else None) == WorkingChangeFor(base, o, p)
    ensures WellFormed(base, o) && TombstonesWithinBudget(base, o) ==> r.Ok?
  {
    var records := ChangesOfRenames(o.renames);
    var files := ChangesOfFiles(base, o);
    if files.Err? {
      return Err(files.code);
    }
    var deleted := DeletedBaseFiles(base, o);
    if deleted.Err? {
      return Err(deleted.code);
    }
    var changes := AddFileChanges(records, files.value);
    changes := AddDeletions(changes, deleted.value, o.renames);
    r := Ok(changes);
  }

  method AddDeletions(before: map<Path, WorkingChange>, deleted: set<Path>, renames: seq<Rename>)
    returns (changes: map<Path, WorkingChange>)
    ensures forall p :: p in changes <==> p in before || (p in deleted && NoRenameFrom(renames, p))
    ensures forall p | p in changes ::
      changes[p] == if p in deleted && NoRenameFrom(renames, p) then Deleted(p) else before[p]
  {
    changes := before;
    var pending := deleted;
    while pending != {}
      invariant pending <= deleted
      invariant forall p :: p in changes <==> p in before || (p in deleted - pending && NoRenameFrom(renames, p))
      invariant forall p | p in changes ::
        changes[p] == if p in deleted - pending && NoRenameFrom(renames, p) then Deleted(p) else before[p]
      decreases |pending|
    {
      var path :| path in pending;
      if NoRenameFrom(renames, path) {
        changes := changes[path := Deleted(path)];
      }
      pending := pending - {path};
    }
  }

  method ChangesOfRenames(renames: seq<Rename>) returns (changes: map<Path, WorkingChange>)
    ensures forall p :: p in changes <==> LastRenameTo(renames, p).Some?
    ensures forall p | p in changes :: changes[p] == Renamed(p, LastRenameTo(renames, p).value.from)
  {
    changes := map[];
    assert renames[..|renames|] == renames;
    for i := 0 to |renames|
      invariant forall p :: p in changes <==> LastRenameTo(renames[..i], p).Some?
      invariant forall p | p in changes :: changes[p] == Renamed(p, LastRenameTo(renames[..i], p).value.from)
    {
      assert renames[..i + 1][..i] == renames[..i];
      changes := changes[renames[i].to := Renamed(renames[i].to, renames[i].from)];
    }
  }

  method AddFileChanges(records: map<Path, WorkingChange>, files: map<Path, Change>)
    returns (changes: map<Path, WorkingChange>)
    ensures forall p :: p in changes <==> p in records || p in files
    ensures forall p | p in changes ::
      changes[p] == if p in records then records[p] else if files[p].Add? then Added(p) else Modified(p)
  {
    changes := records;
    var pending := files.Keys;
    while pending != {}
      invariant pending <= files.Keys
      invariant forall p :: p in changes <==> p in records || p in files.Keys - pending
      invariant forall p | p in changes ::
        changes[p] == if p in records then records[p] else if files[p].Add? then Added(p) else Modified(p)
      decreases |pending|
    {
      var file :| file in pending;
      if file !in changes {
        changes := changes[file := if files[file].Add? then Added(file) else Modified(file)];
      }
      pending := pending - {file};
    }
  }

  /** `buildCommitChanges`: everything, or what the selection closes over. */
  method BuildCommitChanges(base: Files, o: OverlaySnapshot, selected: Option<set<Path>>)
    returns (r: Result<seq<Change>>)
    requires TreeShaped(base)
    ensures r.Ok? ==> ListsChanges(base, o,
      if selected.Some? then CommitPaths(base, o, selected.value) else AllChanges(base, o).Keys, r.value)
    ensures WellFormed(base, o) && TombstonesWithinBudget(base, o) ==> r.Ok?
  {
    var all := BuildAllCommitChanges(base, o);
    if all.Err? {
      return Err(all.code);
    }
    if selected.None? {
      var list := ChangesAt(base, o, all.value, all.value.Keys);
      ChangesAreAll(base, o, all.value, list);
      return Ok(list);
    }
    if selected.value == {} {
      return Ok([]);
    }
    var working := GetWorkingTreeChanges(base, o);
    if working.Err? {
      return Err(working.code);
    }
    var paths := SelectPaths(base, o, selected.value, working.value);
    var list := ChangesAt(base, o, all.value, paths);
    return Ok(list);
  }

  lemma ChangesAreAll(base: Files, o: OverlaySnapshot, changes: map<Path, Change>, list: seq<Change>)
    requires MapsChanges(base, o, changes) && ListsChanges(base, o, changes.Keys, list)
    ensures ListsChanges(base, o, AllChanges(base, o).Keys, list)
  {
    forall p
      ensures p in changes <==> p in AllChanges(base, o)
    {
      ChangeKeys(base, o, p);
    }
  }

  method SelectPaths(base: Files, o: OverlaySnapshot, selected: set<Path>, working: map<Path, WorkingChange>)
    returns (paths: set<Path>)
    requires forall p :: (if p in working then Some(working[p]) else None) == WorkingChangeFor(base, o, p)
    ensures paths == CommitPaths(base, o, selected)
  {
    hide WorkingChangeFor, CommitPaths;
    paths := {};
    var pending := working.Keys;
    while pending != {}
      invariant pending <= working.Keys
      invariant forall p ::
        p in paths <==> exists q | q in working.Keys - pending && q in selected :: Named(working[q], q, p)
      decreases |pending|
    {
      var q :| q in pending;
      if q in selected {
        paths := paths + {q};
        if working[q].Renamed? {
          paths := paths + {working[q].original};
        }
      }
      pending := pending - {q};
    }
    SelectedPaths(base, o, selected, working);
  }

  predicate Named(change: WorkingChange, at: Path, path: Path) {
    path == at || (change.Renamed? && path == change.original)
  }

  lemma SelectedPaths(base: Files, o: OverlaySnapshot, selected: set<Path>, working: map<Path, WorkingChange>)
    requires forall p :: (if p in working then Some(working[p]) else None) == WorkingChangeFor(base, o, p)
    ensures forall p :: p in CommitPaths(base, o, selected) <==>
      exists q | q in working && q in selected :: Named(working[q], q, p)
  {
    hide WorkingChangeFor;
    assert forall q :: q in working <==> WorkingChangeFor(base, o, q).Some?;
    assert forall q | q in working :: working[q] == WorkingChangeFor(base, o, q).value;
  }

  method ChangesAt(base: Files, o: OverlaySnapshot, all: map<Path, Change>, paths: set<Path>)
    returns (list: seq<Change>)
    requires MapsChanges(base, o, all)
    ensures ListsChanges(base, o, paths, list)
  {
    list := [];
    var pending := all.Keys;
    while pending != {}
      invariant pending <= all.Keys
      invariant forall i, j | 0 <= i < j < |list| :: list[i].path != list[j].path
      invariant forall c | c in list ::
        c.path in all.Keys - pending && c.path in paths && ChangeFor(base, o, c.path) == Some(c)
      invariant forall p | p in all.Keys - pending && p in paths :: all[p] in list
      decreases |pending|
    {
      var p :| p in pending;
      if p in paths {
        ChangeNamesPath(base, o, p);
        list := list + [all[p]];
      }
      pending := pending - {p};
    }
  }

  lemma ChangeNamesPath(base: Files, o: OverlaySnapshot, p: Path)
    requires ChangeFor(base, o, p).Some?
    ensures ChangeFor(base, o, p).value.path == p
  {
  }
}
