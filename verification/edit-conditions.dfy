/** When each edit succeeds, in terms of what is visible before it. */
module EditConditions {
  import opened Wrappers
  import opened Paths
  import opened Repository
  import opened Overlays
  import opened TreeView
  import opened Edits
  import opened RenamePaths
  import opened Traversal
  import opened WorkingTrees
  import opened EditRuns
  import Directories

  lemma ParentIsNoBaseFile(t: Tree, path: Path)
    requires t.Valid() && path != ROOT && ShowsDirectory(t.base, t.overlay, Parent(path))
    ensures Parent(path) !in t.base
  {
    StatOfView(t.base, t.overlay, Parent(path));
  }

  /** A file is written below a visible directory, over no directory, and as `create` and `overwrite` allow. */
  lemma WriteSucceedsIff(t: Tree, path: Path, content: Bytes, create: bool, overwrite: bool)
    requires t.Valid()
    ensures (exists t' :: Step(t, Write(path, content, create, overwrite), t')) <==>
      && path != ROOT && ShowsDirectory(t.base, t.overlay, Parent(path)) && !ShowsDirectory(t.base, t.overlay, path)
      && if path in t.Files() then overwrite else create
  {
    var r := WriteFile(t.base, t.overlay, path, content, create, overwrite);
    StatOfView(t.base, t.overlay, path);
    if path != ROOT {
      StatOfView(t.base, t.overlay, Parent(path));
      BaseIsTree(t.base, t.overlay);
      StatOfTree(t.base, path);
      if ShowsDirectory(t.base, t.overlay, Parent(path)) {
        ParentIsNoBaseFile(t, path);
      }
    }
    if r.Ok? {
      assert Step(t, Write(path, content, create, overwrite), t.(overlay := r.value));
    }
  }

  /** What a refused write answers: a missing file or directory is told from a request that cannot be met. */
  lemma WriteRefusal(t: Tree, path: Path, content: Bytes, create: bool, overwrite: bool)
    requires t.Valid()
    ensures WriteFile(t.base, t.overlay, path, content, create, overwrite) == Err(NotFound) <==>
      && path != ROOT && !Occupied(t.base, t.overlay, path)
      && (t.overlay.IsDeleted(path) || Parent(path) !in t.base)
      && (!create || NotThere(t, Parent(path)))
    ensures var r := WriteFile(t.base, t.overlay, path, content, create, overwrite);
      r.Err? ==> r.code in {NotFound, InvalidRequest}
  {
    StatOfView(t.base, t.overlay, path);
    if path != ROOT {
      StatOfView(t.base, t.overlay, Parent(path));
      BaseIsTree(t.base, t.overlay);
      StatOfTree(t.base, path);
    }
  }

  /** Nothing is at the path, and it does not lie directly below a file of the base that could be in the way. */
  predicate NotThere(t: Tree, path: Path) {
    && !Occupied(t.base, t.overlay, path)
    && (path == ROOT || t.overlay.IsDeleted(path) || Parent(path) !in t.base)
  }

  lemma MakeDirectorySucceedsIff(t: Tree, path: Path)
    requires t.Valid()
    ensures (exists t' :: Step(t, MakeDirectory(path), t')) <==>
      path != ROOT && ShowsDirectory(t.base, t.overlay, Parent(path)) && !Occupied(t.base, t.overlay, path)
  {
    var r := CreateDirectory(t.base, t.overlay, path);
    StatOfView(t.base, t.overlay, path);
    if path != ROOT {
      StatOfView(t.base, t.overlay, Parent(path));
      if ShowsDirectory(t.base, t.overlay, Parent(path)) {
        ParentIsNoBaseFile(t, path);
      }
    }
    if r.Ok? {
      assert Step(t, MakeDirectory(path), t.(overlay := r.value));
    }
  }

  lemma RemoveSucceedsIff(t: Tree, path: Path)
    requires t.Valid()
    ensures (exists t' :: Step(t, Remove(path), t')) <==> path != ROOT && Occupied(t.base, t.overlay, path)
  {
    StatOfView(t.base, t.overlay, path);
    if path != ROOT && Occupied(t.base, t.overlay, path) {
      assert Step(t, Remove(path), t.(overlay := Deletes.Delete(t.base, t.overlay, path)));
    }
  }

  /** Without `recursive` a directory is deleted only when nothing is visible below it. */
  lemma DeleteAllowedIff(t: Tree, path: Path, recursive: bool)
    requires t.Valid() && path != ROOT
    ensures DeleteAllowed(t.base, t.overlay, path, recursive) <==>
      && Occupied(t.base, t.overlay, path)
      && (ShowsDirectory(t.base, t.overlay, path) ==>
            && WithinBudget(t.base, t.overlay, path)
            && (recursive || forall p | Under(p, path) :: !Occupied(t.base, t.overlay, p)))
  {
    StatOfView(t.base, t.overlay, path);
    if p :| Under(p, path) && Occupied(t.base, t.overlay, p) {
      Directories.OccupiedIsReached(t.base, t.overlay, path, p);
    }
    if p :| p in ReachedSet(t.base, t.overlay, path) {
      ViewsAgree(t.base, t.overlay, p);
      StatOfView(t.base, t.overlay, p);
    }
  }

  /** A move needs a source, a visible directory to go to, and a target that is free or may be overwritten. */
  lemma MoveSucceedsIff(t: Tree, from: Path, to: Path, overwrite: bool, order: seq<Path>)
    requires t.Valid() && forall i | 0 <= i < |order| :: from <= order[i]
    ensures (exists t' :: Step(t, Move(from, to, overwrite, order), t')) <==>
      && from != ROOT && to != ROOT
      && (from == to ||
           (&& !Within(to, from) && !Within(from, to)
            && Occupied(t.base, t.overlay, from) && ShowsDirectory(t.base, t.overlay, Parent(to))
            && (Occupied(t.base, t.overlay, to) ==> overwrite)))
  {
    StatOfView(t.base, t.overlay, from);
    StatOfView(t.base, t.overlay, to);
    if to != ROOT {
      StatOfView(t.base, t.overlay, Parent(to));
      if ShowsDirectory(t.base, t.overlay, Parent(to)) {
        ParentIsNoBaseFile(t, to);
      }
    }
    if RenameChecks(t.base, t.overlay, from, to, overwrite).Ok? && (from == to || !Within(from, to)) {
      var after := RenamePaths.Rename(t.base, t.overlay, from, to, order);
      assert Step(t, Move(from, to, overwrite, order), t.(overlay := after));
    }
  }

  /** Nothing visible is ever overwritten without being told to. */
  lemma OverwriteIsAsked(t: Tree, e: Edit, t': Tree)
    requires t.Valid() && Step(t, e, t')
    ensures e.Write? && !e.overwrite ==> !Occupied(t.base, t.overlay, e.path)
    ensures e.Write? && !e.create ==> e.path in t.Files()
    ensures e.MakeDirectory? ==> !Occupied(t.base, t.overlay, e.path)
    ensures e.Move? && e.from != e.to && !e.overwrite ==> forall p | Within(p, e.to) :: !Occupied(t.base, t.overlay, p)
  {
    match e
    case Write(path, content, create, overwrite) =>
      WriteSucceedsIff(t, path, content, create, overwrite);
    case MakeDirectory(path) =>
      MakeDirectorySucceedsIff(t, path);
    case Move(from, to, overwrite, order) =>
      if from != to && !overwrite {
        MoveSucceedsIff(t, from, to, overwrite, order);
        forall p | Within(p, to)
          ensures !Occupied(t.base, t.overlay, p)
        {
          NothingBelowNothing(t, to, p);
        }
      }
    case _ =>
  }

  lemma NothingBelowNothing(t: Tree, above: Path, p: Path)
    requires t.Valid() && above != ROOT && !Occupied(t.base, t.overlay, above) && Within(p, above)
    ensures !Occupied(t.base, t.overlay, p)
  {
    StatOfView(t.base, t.overlay, p);
    StatOfView(t.base, t.overlay, above);
    if Occupied(t.base, t.overlay, p) && p != above {
      AboveVisible(t.base, t.overlay, p, above);
    }
  }

  /** The traversal budget in terms of what is visible: how deep directories lie, and how many paths there are. */
  lemma BudgetMeaning(t: Tree, directory: Path, below: set<Path>)
    requires t.Valid() && ShowsDirectory(t.base, t.overlay, directory)
    requires forall p :: p in below <==> Under(p, directory) && Occupied(t.base, t.overlay, p)
    ensures WithinBudget(t.base, t.overlay, directory) <==>
      |below| <= 100_000
      && forall d | d in below && ShowsDirectory(t.base, t.overlay, d) :: |d| - |directory| <= 256
  {
    var base, o := t.base, t.overlay;
    forall p
      ensures p in below <==> Reached(base, o, directory, p)
    {
      if Under(p, directory) {
        Directories.OccupiedIsReached(base, o, directory, p);
      }
    }
    assert below == ReachedSet(base, o, directory);
    forall d | d in below
      ensures Walked(base, o, directory, d) <==> ShowsDirectory(base, o, d)
    {
      ViewsAgree(base, o, d);
      StatOfView(base, o, d);
    }
    assert TooDeep(base, o, directory, 0) <==>
      exists d :: d in below && ShowsDirectory(base, o, d) && |d| - |directory| > 256 by {
      if d :| d in below && ShowsDirectory(base, o, d) && |d| - |directory| > 256 {
        assert Walked(base, o, directory, d);
      }
    }
  }
}
