/**
 Immutable revisions. A revision is the map of its files; its directories are the proper ancestors
 of its files, as in the fixture adapter.
 */
module Repository {
  import opened Wrappers
  import opened Paths

  newtype Byte = x: int | 0 <= x < 256
  type Bytes = seq<Byte>
  type Files = map<Path, Bytes>

  /** Revisions are opaque to the program; it only compares them. */
  type RevisionId = nat

  datatype Kind = File | Directory

  predicate IsDirectory(files: Files, path: Path) {
    exists f | f in files :: Under(f, path)
  }

  /** No file has a file above it, and the root is not a file. */
  predicate TreeShaped(files: Files) {
    ROOT !in files && forall f, g | f in files && g in files :: !Under(g, f)
  }

  /**
   `RepositoryReader.stat`: it reads the parent directory and looks for the name, so a path whose
   parent is a file is an invalid request and not a missing path.
   */
  function Stat(files: Files, path: Path): Result<Kind> {
    if path == ROOT then Ok(Directory)
    else if Parent(path) != ROOT && Parent(path) in files then Err(InvalidRequest)
    else if Parent(path) != ROOT && !IsDirectory(files, Parent(path)) then Err(NotFound)
    else if path in files then Ok(File)
    else if IsDirectory(files, path) then Ok(Directory)
    else Err(NotFound)
  }

  /** `tryStat`: only a missing path becomes `None`; every other error is passed on. */
  function TryStat(files: Files, path: Path): Result<Option<Kind>> {
    Missing(Stat(files, path))
  }

  function Missing(stat: Result<Kind>): Result<Option<Kind>> {
    match stat
    case Ok(kind) => Ok(Some(kind))
    case Err(NotFound) => Ok(None)
    case Err(code) => Err(code)
  }

  /** On a tree, what `stat` answers in terms of the files alone. */
  lemma StatOfTree(files: Files, path: Path)
    requires TreeShaped(files)
    ensures Stat(files, path) == Ok(File) <==> path in files
    ensures Stat(files, path) == Ok(Directory) <==> path == ROOT || IsDirectory(files, path)
    ensures Stat(files, path) == Err(InvalidRequest) <==> path != ROOT && Parent(path) in files
  {
    if path != ROOT {
      if path in files {
        assert Under(path, Parent(path));
      }
      if f :| f in files && Under(f, path) {
        assert Under(f, Parent(path));
      }
    }
  }
}
