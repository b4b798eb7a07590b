/** Whole runs of edits and publications on one working tree, against the flat file map. */
module EditRuns {
  import opened Wrappers
  import opened Paths
  import opened Repository
  import opened Overlays
  import opened TreeView
  import opened Edits
  import opened Deletes
  import opened Renames
  import opened RenamePaths
  import opened Reverts
  import opened ChangeSets
  import opened Rebases
  import opened SoundEdits

  datatype Tree = Tree(base: Files, overlay: OverlaySnapshot) {
    function Files(): Files {
      Visible(base, overlay)
    }

    ghost predicate Valid() {
      WellFormed(base, overlay) && ParentsPresent(base, overlay)
    }
  }

  datatype Edit =
    | Write(path: Path, content: Bytes, create: bool, overwrite: bool)
    | MakeDirectory(path: Path)
    | Remove(path: Path)
    | Move(from: Path, to: Path, overwrite: bool, order: seq<Path>)
    | Undo(path: Path)
    | UndoAll
    | Publish(chosen: set<Path>)
    | PublishAll

  /** The successful edits; a failed one is rolled back and is no step. */
  ghost predicate Step(t: Tree, e: Edit, t': Tree) {
    match e
    case Write(path, content, create, overwrite) =>
      t'.base == t.base && WriteFile(t.base, t.overlay, path, content, create, overwrite) == Ok(t'.overlay)
    case MakeDirectory(path) =>
      t'.base == t.base && CreateDirectory(t.base, t.overlay, path) == Ok(t'.overlay)
    case Remove(path) =>
      path != ROOT && ViewStat(t.base, t.overlay, path).Ok? && t' == t.(overlay := Delete(t.base, t.overlay, path))
    case Move(from, to, overwrite, order) =>
      && RenameChecks(t.base, t.overlay, from, to, overwrite).Ok?
      && (from == to || !Within(from, to))
      && (forall i | 0 <= i < |order| :: from <= order[i])
      && t' == t.(overlay := RenamePaths.Rename(t.base, t.overlay, from, to, order))
    case Undo(path) => t' == t.(overlay := Revert(t.overlay, path))
    case UndoAll => t' == t.(overlay := EMPTY)
    case Publish(chosen) =>
      var revision := Published(t.base, t.overlay, chosen);
      TryRebase(revision, t.overlay) == Ok(t'.overlay) && t'.base == revision
    case PublishAll => t' == Tree(Visible(t.base, t.overlay), EMPTY)
  }

  /**
   What a caller can check beforehand: no base path gets another kind, and no entry is left below a
   directory that a publication empties.
   */
  ghost predicate Safe(t: Tree, e: Edit) {
    match e
    case Write(path, _, _, _) => !IsDirectory(t.base, path)
    case MakeDirectory(path) => path !in t.base
    case Move(from, to, _, _) => RenameFits(t.base, t.overlay, from, to)
    case Publish(chosen) => !LeavesOrphan(t.base, t.overlay, chosen)
    case _ => true
  }

  /** When an edit does to the flat map what it means: no deleted base file comes back under a new directory. */
  ghost predicate Exact(t: Tree, e: Edit) {
    match e
    case MakeDirectory(path) => path !in t.base
    case Move(from, to, _, _) => FilesFit(t.base, t.overlay, from, to)
    case _ => true
  }

  /** The meaning of an edit on the flat map of visible files. */
  function Effect(t: Tree, e: Edit, files: Files): Files {
    match e
    case Write(path, content, _, _) => files[path := content]
    case MakeDirectory(_) => files
    case Remove(path) => Without(files, path)
    case Move(from, to, _, _) => if from == to then files else MoveFiles(files, from, to)
    case Undo(path) => RestoreFiles(t.base, files, Dropped(t.overlay, path), Unmarked(t.overlay, path))
    case UndoAll => t.base
    case Publish(_) => files
    case PublishAll => files
  }

  /** Safe or not, every step does to the visible files what it means exactly under `Exact`. */
  lemma StepRefinesIff(t: Tree, e: Edit, t': Tree)
    requires t.Valid() && Step(t, e, t')
    ensures t'.Files() == Effect(t, e, t.Files()) <==> Exact(t, e)
  {
    match e
    case Write(path, content, create, overwrite) =>
      WriteFileRefines(t.base, t.overlay, path, content, create, overwrite);
    case MakeDirectory(path) =>
      CreateDirectoryRefines(t.base, t.overlay, path);
    case Remove(path) =>
      DeleteRefines(t.base, t.overlay, path);
    case Move(from, to, overwrite, order) =>
      if from != to {
        RenameRefines(t.base, t.overlay, from, to, overwrite, order);
      }
    case Undo(path) =>
      RevertRefines(t.base, t.overlay, path);
    case UndoAll =>
      BaseIsTree(t.base, t.overlay);
      RevertAllShowsBase(t.base);
    case Publish(chosen) =>
      WellFormedIsSound(t.base, t.overlay);
      PublishedKinds(t.base, t.overlay, chosen);
      RebaseShowsTheSame(t.base, t.overlay, chosen);
    case PublishAll =>
      VisibleIsTree(t.base, t.overlay);
      RevertAllShowsBase(t'.base);
  }

  /** Every step keeps the invariant exactly when it is safe. */
  lemma StepKeepsIff(t: Tree, e: Edit, t': Tree)
    requires t.Valid() && Step(t, e, t')
    ensures t'.Valid() <==> Safe(t, e)
  {
    match e
    case Write(path, content, create, overwrite) =>
      WriteFileKeeps(t.base, t.overlay, path, content, create, overwrite);
    case MakeDirectory(path) =>
      CreateDirectoryKeeps(t.base, t.overlay, path);
    case Remove(path) =>
      DeleteRefines(t.base, t.overlay, path);
    case Move(from, to, overwrite, order) =>
      if from != to {
        RenameRefines(t.base, t.overlay, from, to, overwrite, order);
      }
    case Undo(path) =>
      RevertRefines(t.base, t.overlay, path);
    case UndoAll =>
      BaseIsTree(t.base, t.overlay);
      RevertAllShowsBase(t.base);
    case Publish(chosen) =>
      RebaseIsWellFormed(t.base, t.overlay, chosen);
      RebaseKeepsParentsIff(t.base, t.overlay, chosen);
    case PublishAll =>
      VisibleIsTree(t.base, t.overlay);
      RevertAllShowsBase(t'.base);
  }

  lemma SafeIsExact(t: Tree, e: Edit)
    requires Safe(t, e)
    ensures Exact(t, e)
  {
  }

  /** Whatever the edits do to the kinds, an accepted publication aside, every step keeps `Sound`. */
  lemma StepIsSound(t: Tree, e: Edit, t': Tree)
    requires Sound(t.base, t.overlay) && Step(t, e, t') && TreeShaped(t'.base)
    ensures Sound(t'.base, t'.overlay)
  {
    match e
    case Write(path, content, create, overwrite) =>
      WriteIsSound(t.base, t.overlay, path, content, create, overwrite);
    case MakeDirectory(path) =>
      ShrinkingIsSound(t.base, t.overlay, t'.overlay);
    case Remove(path) =>
      DeleteIsSound(t.base, t.overlay, path);
    case Move(from, to, overwrite, order) =>
      if from != to {
        RenameIsSound(t.base, t.overlay, from, to, order);
      }
    case Undo(path) =>
      RevertIsSound(t.base, t.overlay, path);
    case UndoAll =>
    case Publish(chosen) =>
      RebaseIsSound(t.base, t.overlay, chosen);
    case PublishAll =>
  }

  // ---------------------------------------------------------------- whole runs

  /** A run from a clean checkout: any edits, safe or not, over a remote whose revisions are trees. */
  ghost predicate Run(states: seq<Tree>, edits: seq<Edit>) {
    && |states| == |edits| + 1 && states[0].overlay == EMPTY
    && (forall i | 0 <= i < |states| :: TreeShaped(states[i].base))
    && (forall i | 0 <= i < |edits| :: Step(states[i], edits[i], states[i + 1]))
  }

  function Effects(states: seq<Tree>, edits: seq<Edit>, n: nat): Files
    requires n <= |edits| < |states|
  {
    if n == 0 then states[0].base else Effect(states[n - 1], edits[n - 1], Effects(states, edits, n - 1))
  }

  /**
   While the edits before the last are safe, each state shows what the edits do to a flat file map, the
   last one exactly when it is exact, and the invariant holds, after the last one exactly when it is safe.
   */
  lemma {:induction false} RunRefines(states: seq<Tree>, edits: seq<Edit>, n: nat)
    requires Run(states, edits) && n <= |edits|
    requires forall i | 0 <= i < n - 1 :: Safe(states[i], edits[i])
    ensures n == 0 ==> states[0].Valid() && states[0].Files() == Effects(states, edits, 0)
    ensures n > 0 ==> states[n - 1].Valid()
    ensures n > 0 ==> (states[n].Valid() <==> Safe(states[n - 1], edits[n - 1]))
    ensures n > 0 ==> (states[n].Files() == Effects(states, edits, n) <==> Exact(states[n - 1], edits[n - 1]))
  {
    RevertAllShowsBase(states[0].base);
    if n > 0 {
      RunRefines(states, edits, n - 1);
      if n > 1 {
        SafeIsExact(states[n - 2], edits[n - 2]);
      }
      StepRefinesIff(states[n - 1], edits[n - 1], states[n]);
      StepKeepsIff(states[n - 1], edits[n - 1], states[n]);
    }
  }

  lemma {:induction false} RunIsSound(states: seq<Tree>, edits: seq<Edit>, n: nat)
    requires Run(states, edits) && n < |states|
    ensures Sound(states[n].base, states[n].overlay)
  {
    hide Step;
    if n > 0 {
      RunIsSound(states, edits, n - 1);
      StepIsSound(states[n - 1], edits[n - 1], states[n]);
    }
  }

  /** In every run no publication changes what is visible, and each leaves exactly the unchosen changes. */
  lemma PublicationsAreInvisible(states: seq<Tree>, edits: seq<Edit>, n: nat)
    requires Run(states, edits) && n < |edits| && (edits[n].Publish? || edits[n].PublishAll?)
    ensures states[n + 1].Files() == states[n].Files()
    ensures AllChanges(states[n + 1].base, states[n + 1].overlay) ==
      if edits[n].Publish? then AllChanges(states[n].base, states[n].overlay) - edits[n].chosen else map[]
  {
    RunIsSound(states, edits, n);
    var t, t' := states[n], states[n + 1];
    match edits[n]
    case Publish(chosen) =>
      RebaseShowsTheSame(t.base, t.overlay, chosen);
      RebaseRestOfChanges(t.base, t.overlay, chosen);
    case PublishAll =>
      RevertAllShowsBase(t'.base);
  }

  /** Where an edit can change what is visible. */
  predicate Touched(t: Tree, e: Edit, p: Path) {
    match e
    case Write(path, _, _, _) => Within(p, path)
    case MakeDirectory(path) => Within(p, path)
    case Remove(path) => Within(p, path)
    case Move(from, to, _, _) => Within(p, from) || Within(p, to)
    case Undo(path) =>
      || Within(p, Dropped(t.overlay, path))
      || exists d | d in t.overlay.deleted :: Within(Unmarked(t.overlay, path), d) && Within(p, d)
    case UndoAll => true
    case _ => false
  }

  /** In every run an edit changes the visible files at and below its paths only, and a written file reads back. */
  lemma EditsStayLocal(states: seq<Tree>, edits: seq<Edit>, n: nat, p: Path)
    requires Run(states, edits) && n < |edits|
    ensures !Touched(states[n], edits[n], p) ==> Lookup(states[n + 1].Files(), p) == Lookup(states[n].Files(), p)
    ensures edits[n].Write? ==> Lookup(states[n + 1].Files(), edits[n].path) == Some(edits[n].content)
  {
    var t, t', e := states[n], states[n + 1], edits[n];
    RunIsSound(states, edits, n);
    if !Touched(t, e, p) {
      hide Step, Touched;
      StepStaysLocal(t, e, t', p);
    }
    if e.Write? {
      WrittenIsRead(t.base, t.overlay, e.path, e.content, e.create, e.overwrite);
    }
  }

  lemma StepStaysLocal(t: Tree, e: Edit, t': Tree, p: Path)
    requires Sound(t.base, t.overlay) && Step(t, e, t') && TreeShaped(t'.base) && !Touched(t, e, p)
    ensures Lookup(t'.Files(), p) == Lookup(t.Files(), p)
  {
    match e
    case Publish(chosen) =>
      RebaseShowsTheSame(t.base, t.overlay, chosen);
    case PublishAll =>
      RevertAllShowsBase(t'.base);
    case _ =>
      VisibleShows(t.base, t.overlay, p);
      VisibleShows(t'.base, t'.overlay, p);
      EditStaysLocal(t, e, t', p);
  }

  lemma EditStaysLocal(t: Tree, e: Edit, t': Tree, p: Path)
    requires Step(t, e, t') && !e.Publish? && !e.PublishAll? && !Touched(t, e, p)
    ensures SameAt(t.overlay, t'.overlay, p)
  {
    match e
    case Write(path, content, create, overwrite) =>
      NothingDeletedAbove(t.base, t.overlay, path);
    case MakeDirectory(path) =>
    case Remove(path) =>
      DeleteStaysLocal(t.base, t.overlay, path, p);
    case Move(from, to, overwrite, order) =>
      if from != to {
        RenameStaysLocal(t.base, t.overlay, from, to, overwrite, order, p);
      }
    case Undo(path) =>
  }

  // ---------------------------------------------------------------- deletions

  /** Which deleted base files an edit names. */
  predicate Names(t: Tree, e: Edit, f: Path) {
    match e
    case Write(path, _, _, _) => f == path
    case MakeDirectory(path) => f == path
    case Move(from, to, _, _) => Within(f, to)
    case Undo(path) => Within(Unmarked(t.overlay, path), f)
    case UndoAll => true
    case _ => false
  }

  /**
   Deletions are not undone by accident, in any run: a deleted base file comes back only when an edit names
   it, or when it was hidden by a directory's tombstone alone. While the edits are safe nothing is.
   */
  lemma DeletionsStay(states: seq<Tree>, edits: seq<Edit>, n: nat, f: Path)
    requires Run(states, edits) && n < |edits|
    requires f in states[n].base && f !in states[n].Files() && f in states[n + 1].Files()
    ensures Names(states[n], edits[n], f) || Loose(states[n].overlay, f)
    ensures (forall i | 0 <= i < n :: Safe(states[i], edits[i])) ==> !Loose(states[n].overlay, f)
  {
    hide Names, Step;
    RunIsSound(states, edits, n);
    DeletionStays(states[n], edits[n], states[n + 1], f);
    if forall i | 0 <= i < n :: Safe(states[i], edits[i]) {
      RunRefines(states, edits, n);
    }
  }

  /** The tombstone of a base file's own goes only with an edit that names the file. */
  lemma TombstoneGoes(t: Tree, e: Edit, t': Tree, f: Path)
    requires Sound(t.base, t.overlay) && Step(t, e, t') && t'.base == t.base
    requires f in t.overlay.deleted && f !in t'.overlay.deleted && !e.Publish? && !e.PublishAll?
    ensures Names(t, e, f)
  {
    match e
    case Write(path, content, create, overwrite) =>
      WriteClears(t.base, t.overlay, path, content, create, overwrite, f);
    case MakeDirectory(path) =>
    case Remove(path) =>
      DeleteClearsNone(t.base, t.overlay, path);
    case Move(from, to, overwrite, order) =>
      RenameClears(t.base, t.overlay, from, to, overwrite, order, f);
    case _ =>
  }

  /**
   Only deleting a directory leaves a base file hidden without a tombstone of its own, and only when a file
   of the overlay stands above it or a marker in its place, so that the listing passes it by.
   */
  lemma LooseComesFrom(t: Tree, e: Edit, t': Tree, f: Path)
    requires Sound(t.base, t.overlay) && Step(t, e, t') && TreeShaped(t'.base)
    requires f in t'.base && !Loose(t.overlay, f) && Loose(t'.overlay, f)
    ensures (e.Remove? || e.Move?) && f in t.Files() && Misfit(t.overlay, f)
  {
    match e
    case Write(path, content, create, overwrite) =>
      ClearingIsNotLoose(t.overlay, path, f);
    case MakeDirectory(path) =>
      NothingDeletedAbove(t.base, t.overlay, path);
    case Remove(path) =>
      LooseByDelete(t.base, t.overlay, path, f);
    case Move(from, to, overwrite, order) =>
      if from != to {
        LooseByRename(t.base, t.overlay, from, to, overwrite, order, f);
      }
    case Undo(path) =>
      ClearingIsNotLoose(t.overlay, Unmarked(t.overlay, path), f);
    case UndoAll =>
    case Publish(chosen) =>
      StatOfTree(t'.base, f);
    case PublishAll =>
  }

  lemma DeletionStays(t: Tree, e: Edit, t': Tree, f: Path)
    requires Sound(t.base, t.overlay) && Step(t, e, t') && TreeShaped(t'.base)
    requires f in t.base && f !in t.Files() && f in t'.Files()
    ensures Names(t, e, f) || Loose(t.overlay, f)
  {
    match e
    case Publish(chosen) =>
      RebaseShowsTheSame(t.base, t.overlay, chosen);
      assert false;
    case PublishAll =>
      RevertAllShowsBase(t'.base);
      assert false;
    case _ =>
      if f in t.overlay.deleted {
        assert Within(f, f);
        TombstoneGoes(t, e, t', f);
      }
  }
}
