/**
 Repository paths.

 A canonical repository path is modelled as the sequence of its segments, the root being the empty
 sequence. The string functions of the program are in `PathText`, which proves that on canonical
 strings they are the segment functions declared here.
 */
module Paths {
  type Name = string
  type Path = seq<Name>

  const ROOT: Path := []

  /** Strictly below; the root has everything below it. */
  predicate Under(path: Path, directory: Path) {
    directory < path
  }

  /** `isSameOrChild`. The root is a quirk of the string test: only the root is within the root. */
  predicate Within(path: Path, parent: Path) {
    path == parent || (parent != ROOT && Under(path, parent))
  }

  /** `parentPath` of a path that is not the root. */
  function Parent(path: Path): Path
    requires path != ROOT
  {
    path[..|path| - 1]
  }

  function BaseName(path: Path): Name
    requires path != ROOT
  {
    path[|path| - 1]
  }

  function Child(directory: Path, name: Name): Path {
    directory + [name]
  }

  /** The path that `from + suffix` has after `from` moved to `to`. */
  function Moved(path: Path, from: Path, to: Path): Path
    requires from <= path
  {
    to + path[|from|..]
  }

  lemma WithinTransitive(a: Path, b: Path, c: Path)
    requires Within(a, b) && Within(b, c)
    ensures Within(a, c)
  {
  }

  /** The ancestors of one path form a chain. */
  lemma AncestorsAreChain(path: Path, a: Path, b: Path)
    requires Within(path, a) && Within(path, b)
    ensures Within(a, b) || Within(b, a)
  {
    if |a| <= |b| {
      assert a <= b;
    } else {
      assert b <= a;
    }
  }

  lemma ParentIsLargestAncestor(path: Path, ancestor: Path)
    requires path != ROOT && Under(path, ancestor)
    ensures ancestor == Parent(path) || Under(Parent(path), ancestor)
    ensures Under(path, Parent(path))
  {
    assert ancestor <= Parent(path);
    if |ancestor| == |Parent(path)| {
      assert ancestor == Parent(path);
    }
  }

  /** Moving is a bijection between the two subtrees. */
  lemma MovedBack(path: Path, from: Path, to: Path)
    requires from <= path
    ensures to <= Moved(path, from, to)
    ensures Moved(Moved(path, from, to), to, from) == path
    ensures path == from <==> Moved(path, from, to) == to
  {
    var there := Moved(path, from, to);
    assert there[|to|..] == path[|from|..];
    assert from + path[|from|..] == path;
    if there == to {
      assert |path[|from|..]| == 0;
    }
  }

  lemma MovedKeepsOrder(path: Path, ancestor: Path, from: Path, to: Path)
    requires from <= ancestor && from <= path
    ensures Under(path, ancestor) <==> Under(Moved(path, from, to), Moved(ancestor, from, to))
  {
    var p, a := Moved(path, from, to), Moved(ancestor, from, to);
    if Under(path, ancestor) {
      assert forall k | 0 <= k < |a| :: p[k] == a[k];
    }
    if Under(p, a) {
      forall k | 0 <= k < |ancestor|
        ensures path[k] == ancestor[k]
      {
        if |from| <= k {
          assert p[|to| + k - |from|] == a[|to| + k - |from|];
        }
      }
    }
  }
}
