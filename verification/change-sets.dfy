/** The change set of a working tree, its publication, and the rebase of what was not published. */
module ChangeSets {
  import opened Wrappers
  import opened Paths
  import opened Repository
  import opened Overlays
  import opened TreeView
  import opened Edits

  datatype Change =
    | Add(path: Path, content: Bytes)
    | Modify(path: Path, content: Bytes)
    | DeleteChange(path: Path)

  /** `deletedBaseFiles`: base files with a tombstone, or below the tombstone of a base directory. */
  predicate IsDeletedBaseFile(base: Files, o: OverlaySnapshot, path: Path) {
    path in base && exists t | t in o.deleted ::
      t == path || (Under(path, t) && Stat(base, t) == Ok(Directory))
  }

  /** The one change that `buildAllCommitChanges` records for a path. */
  function ChangeFor(base: Files, o: OverlaySnapshot, path: Path): Option<Change> {
    if path in o.files && path !in base then Some(Add(path, o.files[path]))
    else if path in o.files && base[path] != o.files[path] then Some(Modify(path, o.files[path]))
    else if IsDeletedBaseFile(base, o, path) then Some(DeleteChange(path))
    else None
  }

  function AllChanges(base: Files, o: OverlaySnapshot): map<Path, Change> {
    map p | p in base.Keys + o.files.Keys && ChangeFor(base, o, p).Some? :: ChangeFor(base, o, p).value
  }

  /** The base with the changes of some paths published. */
  function Published(base: Files, o: OverlaySnapshot, chosen: set<Path>): Files {
    map p | p in base.Keys + o.files.Keys && (if p in chosen then !o.IsDeleted(p) else p in base)
      :: if p in chosen && p in o.files then o.files[p] else base[p]
  }

  lemma PublishedLookup(base: Files, o: OverlaySnapshot, chosen: set<Path>, path: Path)
    ensures Lookup(Published(base, o, chosen), path) ==
      if path in chosen then Shows(base, o, path) else Lookup(base, path)
  {
  }

  /** In every state that edits reach a path has no change exactly when it shows its base bytes. */
  lemma ChangeMeaning(base: Files, o: OverlaySnapshot, path: Path)
    requires Sound(base, o)
    ensures IsDeletedBaseFile(base, o, path) <==> path in base && o.IsDeleted(path)
    ensures ChangeFor(base, o, path) ==
      match (Lookup(base, path), Shows(base, o, path)) {
        case (None, Some(content)) => Some(Add(path, content))
        case (Some(was), Some(content)) => if was == content then None else Some(Modify(path, content))
        case (Some(_), None) => Some(DeleteChange(path))
        case (None, None) => None
      }
  {
    if path in base && o.IsDeleted(path) {
      var t :| t in o.deleted && Within(path, t);
      StatOfTree(base, t);
    }
  }

  /** The path is a file of the revision that publishing the chosen changes gives. */
  predicate BecomesFile(base: Files, o: OverlaySnapshot, chosen: set<Path>, path: Path) {
    if path in chosen then IsFilePath(base, o, path) && !o.IsDeleted(path) else path in base
  }

  lemma PublishedFiles(base: Files, o: OverlaySnapshot, chosen: set<Path>, path: Path)
    ensures path in Published(base, o, chosen) <==> BecomesFile(base, o, chosen, path)
  {
  }

  /** A chosen overlay file stands above or below another file of the revision. */
  ghost predicate ClashesOnPublication(base: Files, o: OverlaySnapshot, chosen: set<Path>) {
    exists f, g :: Under(g, f) && BecomesFile(base, o, chosen, f) && BecomesFile(base, o, chosen, g)
      && ((f in chosen && f in o.files) || (g in chosen && g in o.files))
  }

  /** The revision is a tree exactly when no chosen overlay file clashes with another file of it. */
  lemma PublishedIsTreeIff(base: Files, o: OverlaySnapshot, chosen: set<Path>)
    requires Sound(base, o)
    ensures TreeShaped(Published(base, o, chosen)) <==> !ClashesOnPublication(base, o, chosen)
  {
    var revision := Published(base, o, chosen);
    forall p
      ensures p in revision <==> BecomesFile(base, o, chosen, p)
    {
      PublishedFiles(base, o, chosen, p);
    }
    if f, g :| f in revision && g in revision && Under(g, f) {
      assert ClashesOnPublication(base, o, chosen);
    }
  }

  lemma PublishAll(base: Files, o: OverlaySnapshot)
    requires Sound(base, o)
    ensures Published(base, o, AllChanges(base, o).Keys) == Visible(base, o)
  {
    forall p
      ensures Shows(base, o, p) == Lookup(Published(base, o, AllChanges(base, o).Keys), p)
    {
      ChangeMeaning(base, o, p);
      PublishedLookup(base, o, AllChanges(base, o).Keys, p);
    }
    VisibleIs(base, o, Published(base, o, AllChanges(base, o).Keys));
  }
}
