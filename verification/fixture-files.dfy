/** The remote's side of a publication: `applyChanges` and `diffFiles` of the fixture adapter. */
module FixtureFiles {
  import opened Wrappers
  import opened Paths
  import opened Repository
  import opened Overlays
  import opened TreeView
  import opened ChangeSets
  import opened Rebases

  function ApplyOne(files: Files, change: Change): Files {
    match change
    case DeleteChange(path) => files - {path}
    case Add(path, content) => files[path := content]
    case Modify(path, content) => files[path := content]
  }

  function Applied(files: Files, changes: seq<Change>): Files {
    if changes == [] then files
    else ApplyOne(Applied(files, changes[..|changes| - 1]), changes[|changes| - 1])
  }

  /** The change fits the files it is applied to. */
  predicate Fits(files: Files, change: Change) {
    change.path != ROOT && (change.Add? <==> change.path !in files)
  }

  /** Every change names its own path and fits the files before it. */
  ghost predicate Acceptable(files: Files, changes: seq<Change>) {
    && (forall i | 0 <= i < |changes| :: Fits(Applied(files, changes[..i]), changes[i]))
    && (forall i, j | 0 <= i < j < |changes| :: changes[i].path != changes[j].path)
  }

  /** The remote's last check looks one level up only. */
  predicate NoFileIsParent(files: Files) {
    forall f | f in files && f != ROOT :: Parent(f) == ROOT || Parent(f) !in files
  }

  /** Without duplicates each change can be judged, and its effect read, against the files before all of them. */
  lemma {:induction false} AppliedElsewhere(files: Files, changes: seq<Change>, p: Path)
    requires forall c | c in changes :: c.path != p
    ensures Lookup(Applied(files, changes), p) == Lookup(files, p)
  {
    if changes != [] {
      var shorter, last := changes[..|changes| - 1], changes[|changes| - 1];
      assert last in changes && forall c | c in shorter :: c in changes;
      AppliedElsewhere(files, shorter, p);
    }
  }

  /** What the remote accepts, change by change. */
  lemma AcceptableIff(files: Files, changes: seq<Change>)
    ensures Acceptable(files, changes) <==>
      && (forall i, j | 0 <= i < j < |changes| :: changes[i].path != changes[j].path)
      && (forall c | c in changes :: c.path != ROOT && (c.Add? <==> c.path !in files))
  {
    if forall i, j | 0 <= i < j < |changes| :: changes[i].path != changes[j].path {
      forall i | 0 <= i < |changes|
        ensures Fits(Applied(files, changes[..i]), changes[i]) <==> Fits(files, changes[i])
      {
        assert forall c | c in changes[..i] :: exists k :: 0 <= k < i && changes[k] == c;
        AppliedElsewhere(files, changes[..i], changes[i].path);
      }
      assert forall i | 0 <= i < |changes| :: changes[i] in changes;
    }
  }

  /** What it stores: the new bytes where a change puts some, nothing where one deletes, the rest as it was. */
  lemma {:induction false} StoredIff(files: Files, changes: seq<Change>, i: nat)
    requires i < |changes| && forall j, k | 0 <= j < k < |changes| :: changes[j].path != changes[k].path
    ensures Lookup(Applied(files, changes), changes[i].path) ==
      match changes[i] {
        case Add(_, content) => Some(content)
        case Modify(_, content) => Some(content)
        case DeleteChange(_) => None
      }
  {
    var shorter, last := changes[..|changes| - 1], changes[|changes| - 1];
    if i < |changes| - 1 {
      StoredIff(files, shorter, i);
    }
  }

  method ApplyChanges(files: Files, changes: seq<Change>) returns (r: Result<Files>)
    ensures r.Ok? <==> Acceptable(files, changes) && NoFileIsParent(Applied(files, changes))
    ensures r.Ok? ==> r.value == Applied(files, changes)
    ensures r.Err? ==> r.code == InvalidRequest
  {
    r := ApplyInOrder(files, changes);
    if r.Ok? {
      var ok := CheckParents(r.value);
      if !ok {
        r := Err(InvalidRequest);
      }
    }
  }

  /** The first `i` changes are acceptable, and these are their paths. */
  ghost predicate Accepted(files: Files, changes: seq<Change>, i: nat, seen: set<Path>)
    requires i <= |changes|
  {
    && (forall p :: p in seen <==> exists k :: 0 <= k < i && changes[k].path == p)
    && (forall k | 0 <= k < i :: Fits(Applied(files, changes[..k]), changes[k]))
    && (forall j, k | 0 <= j < k < i :: changes[j].path != changes[k].path)
  }

  lemma AcceptOne(files: Files, changes: seq<Change>, i: nat, seen: set<Path>)
    requires i < |changes| && Accepted(files, changes, i, seen)
    ensures Applied(files, changes[..i + 1]) == ApplyOne(Applied(files, changes[..i]), changes[i])
    ensures changes[i].path !in seen && Fits(Applied(files, changes[..i]), changes[i]) ==>
      Accepted(files, changes, i + 1, seen + {changes[i].path})
    ensures changes[i].path in seen || !Fits(Applied(files, changes[..i]), changes[i]) ==> !Acceptable(files, changes)
  {
    assert changes[..i + 1][..i] == changes[..i];
    if changes[i].path !in seen && Fits(Applied(files, changes[..i]), changes[i]) {
      hide Applied, Fits;
      forall p
        ensures p in seen + {changes[i].path} <==> exists k :: 0 <= k < i + 1 && changes[k].path == p
      {
      }
    }
  }

  method ApplyInOrder(files: Files, changes: seq<Change>) returns (r: Result<Files>)
    ensures r.Ok? <==> Acceptable(files, changes)
    ensures r.Ok? ==> r.value == Applied(files, changes)
    ensures r.Err? ==> r.code == InvalidRequest
  {
    var current := files;
    var seen: set<Path> := {};
    assert changes[..0] == [] && changes[..|changes|] == changes;
    for i := 0 to |changes|
      invariant current == Applied(files, changes[..i])
      invariant Accepted(files, changes, i, seen)
    {
      var change := changes[i];
      AcceptOne(files, changes, i, seen);
      if change.path == ROOT || change.path in seen {
        return Err(InvalidRequest);
      }
      seen := seen + {change.path};
      if change.DeleteChange? {
        if change.path !in current {
          return Err(InvalidRequest);
        }
        current := current - {change.path};
      } else {
        if change.Add? == (change.path in current) {
          return Err(InvalidRequest);
        }
        current := current[change.path := change.content];
      }
    }
    return Ok(current);
  }

  method CheckParents(files: Files) returns (ok: bool)
    ensures ok <==> NoFileIsParent(files)
  {
    var pending := files.Keys;
    while pending != {}
      invariant pending <= files.Keys
      invariant forall f | f in files && f !in pending && f != ROOT :: Parent(f) == ROOT || Parent(f) !in files
      decreases |pending|
    {
      var file :| file in pending;
      if file != ROOT && Parent(file) != ROOT && Parent(file) in files {
        return false;
      }
      pending := pending - {file};
    }
    return true;
  }

  // ---------------------------------------------------------------- publishing a working tree

  /** The list holds each chosen change of the working tree once, in any order. */
  ghost predicate ListsChanges(base: Files, o: OverlaySnapshot, chosen: set<Path>, changes: seq<Change>) {
    && (forall i, j | 0 <= i < j < |changes| :: changes[i].path != changes[j].path)
    && (forall c | c in changes :: c.path in chosen && ChangeFor(base, o, c.path) == Some(c))
    && (forall p | p in chosen && ChangeFor(base, o, p).Some? :: ChangeFor(base, o, p).value in changes)
  }

  /** The path is named by one of the first changes. */
  ghost predicate Named(changes: seq<Change>, k: nat, p: Path)
    requires k <= |changes|
  {
    exists i :: 0 <= i < k && changes[i].path == p
  }

  lemma ApplyOneAt(files: Files, change: Change, p: Path)
    ensures Lookup(ApplyOne(files, change), p) ==
      if p == change.path then (if change.DeleteChange? then None else Some(change.content)) else Lookup(files, p)
  {
  }

  /** A recorded change puts the bytes that its path shows. */
  lemma ChangeEffect(base: Files, o: OverlaySnapshot, change: Change)
    requires Sound(base, o) && ChangeFor(base, o, change.path) == Some(change)
    ensures (if change.DeleteChange? then None else Some(change.content)) == Shows(base, o, change.path)
  {
    ChangeMeaning(base, o, change.path);
  }

  /** After some of the changes, a path shows the working tree where it was named and the base elsewhere. */
  lemma {:induction false} AppliedAt(
      base: Files, o: OverlaySnapshot, chosen: set<Path>, changes: seq<Change>, k: nat, p: Path)
    requires Sound(base, o) && ListsChanges(base, o, chosen, changes) && k <= |changes|
    ensures Lookup(Applied(base, changes[..k]), p) ==
      if Named(changes, k, p) then Shows(base, o, p) else Lookup(base, p)
  {
    if k > 0 {
      AppliedAt(base, o, chosen, changes, k - 1, p);
      assert changes[..k][..k - 1] == changes[..k - 1];
      var c := changes[k - 1];
      assert c in changes;
      hide ApplyOne, Sound, ChangeFor, Named, Shows, Lookup;
      ChangeEffect(base, o, c);
      ApplyOneAt(Applied(base, changes[..k - 1]), c, p);
      NamedStep(changes, k, p);
    }
  }

  lemma NamedStep(changes: seq<Change>, k: nat, p: Path)
    requires 0 < k <= |changes|
    ensures Named(changes, k, p) <==> Named(changes, k - 1, p) || p == changes[k - 1].path
  {
  }

  lemma NamedIsChosen(base: Files, o: OverlaySnapshot, chosen: set<Path>, changes: seq<Change>, p: Path)
    requires Sound(base, o) && ListsChanges(base, o, chosen, changes)
    ensures Named(changes, |changes|, p) <==> p in chosen && ChangeFor(base, o, p).Some?
  {
    if Named(changes, |changes|, p) {
      var i :| 0 <= i < |changes| && changes[i].path == p;
      assert changes[i] in changes;
    }
    if p in chosen && ChangeFor(base, o, p).Some? {
      var c := ChangeFor(base, o, p).value;
      ChangeMeaning(base, o, p);
      var i :| 0 <= i < |changes| && changes[i] == c;
      assert changes[i].path == p;
    }
  }

  /** Some file of the published revision would have another one as its parent directory. */
  ghost predicate FileBecomesParent(base: Files, o: OverlaySnapshot, chosen: set<Path>) {
    exists p :: p != ROOT && Parent(p) != ROOT
      && BecomesFile(base, o, chosen, p) && BecomesFile(base, o, chosen, Parent(p))
  }

  /**
   Whatever is chosen, in every state that edits reach, the changes fit the base and make it the published
   revision; the remote's last check refuses them exactly when a file would become another's parent.
   */
  lemma PublicationIsAccepted(base: Files, o: OverlaySnapshot, chosen: set<Path>, changes: seq<Change>)
    requires Sound(base, o) && ListsChanges(base, o, chosen, changes)
    ensures Acceptable(base, changes) && Applied(base, changes) == Published(base, o, chosen)
    ensures NoFileIsParent(Applied(base, changes)) <==> !FileBecomesParent(base, o, chosen)
  {
    var revision := Published(base, o, chosen);
    forall p
      ensures Lookup(Applied(base, changes), p) == Lookup(revision, p)
    {
      assert changes[..|changes|] == changes;
      AppliedAt(base, o, chosen, changes, |changes|, p);
      NamedIsChosen(base, o, chosen, changes, p);
      PublishedLookup(base, o, chosen, p);
      ChangeMeaning(base, o, p);
    }
    SameLookups(Applied(base, changes), revision);
    AcceptedIff(base, o, chosen);
    forall i | 0 <= i < |changes|
      ensures Fits(Applied(base, changes[..i]), changes[i])
    {
      var c := changes[i];
      assert c in changes;
      AppliedAt(base, o, chosen, changes, i, c.path);
      ChangeMeaning(base, o, c.path);
      assert !Named(changes, i, c.path);
    }
  }

  lemma AcceptedIff(base: Files, o: OverlaySnapshot, chosen: set<Path>)
    ensures NoFileIsParent(Published(base, o, chosen)) <==> !FileBecomesParent(base, o, chosen)
  {
    forall p
      ensures p in Published(base, o, chosen) <==> BecomesFile(base, o, chosen, p)
    {
      PublishedFiles(base, o, chosen, p);
    }
  }

  /** A tree is accepted; so while kinds are stable every publication is. */
  lemma TreesAreAccepted(base: Files, o: OverlaySnapshot, chosen: set<Path>)
    ensures TreeShaped(Published(base, o, chosen)) ==> !FileBecomesParent(base, o, chosen)
    ensures WellFormed(base, o) ==> TreeShaped(Published(base, o, chosen))
  {
    AcceptedIff(base, o, chosen);
    assert forall p: Path | p != ROOT :: Under(p, Parent(p));
    if WellFormed(base, o) {
      PublishedKinds(base, o, chosen);
    }
  }

  /** Publishing everything and clearing the overlay shows the same files, and is clean when they form a tree. */
  lemma PublishEverything(base: Files, o: OverlaySnapshot, changes: seq<Change>)
    requires Sound(base, o) && ListsChanges(base, o, AllChanges(base, o).Keys, changes)
    ensures Acceptable(base, changes) && Applied(base, changes) == Visible(base, o)
    ensures Visible(Applied(base, changes), EMPTY) == Visible(base, o)
    ensures TreeShaped(Visible(base, o)) ==>
      && NoFileIsParent(Applied(base, changes))
      && WellFormed(Applied(base, changes), EMPTY) && ParentsPresent(Applied(base, changes), EMPTY)
    ensures WellFormed(base, o) ==> TreeShaped(Visible(base, o))
  {
    PublicationIsAccepted(base, o, AllChanges(base, o).Keys, changes);
    TreesAreAccepted(base, o, AllChanges(base, o).Keys);
    PublishAll(base, o);
    VisibleIs(Visible(base, o), EMPTY, Visible(base, o));
    if WellFormed(base, o) {
      VisibleIsTree(base, o);
    }
  }
}
