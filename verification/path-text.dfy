/**
 Paths as the program's strings: normalization, and the proof that on canonical strings the string
 functions are the segment functions of `Paths`.
 */
module PathText {
  import opened Wrappers
  import opened Paths

  function ReplaceBackslashes(s: string): (r: string)
    ensures |r| == |s| && forall i | 0 <= i < |s| :: r[i] == if s[i] == '\\' then '/' else s[i]
    ensures '\\' !in r
  {
    seq(|s|, i requires 0 <= i < |s| => if s[i] == '\\' then '/' else s[i])
  }

  function TrimLeft(s: string): string {
    if s != "" && s[0] == '/' then TrimLeft(s[1..]) else s
  }

  function TrimRight(s: string): string {
    if s != "" && s[|s| - 1] == '/' then TrimRight(s[..|s| - 1]) else s
  }

  function Split(s: string): (parts: seq<string>)
    ensures parts != []
  {
    if s == "" then [""]
    else
      var rest := Split(s[1..]);
      if s[0] == '/' then [""] + rest else [[s[0]] + rest[0]] + rest[1..]
  }

  function Join(parts: seq<string>): string {
    if parts == [] then "" else if |parts| == 1 then parts[0] else parts[0] + "/" + Join(parts[1..])
  }

  predicate BadSegment(part: string) {
    part == "" || part == "." || part == ".."
  }

  /** `normalizeRepoPath`. */
  function NormalizeRepoPath(path: string): Result<string> {
    var normalized := TrimRight(TrimLeft(ReplaceBackslashes(path)));
    var parts := if normalized == "" then [] else Split(normalized);
    if exists part | part in parts :: BadSegment(part) then Err(InvalidRequest) else Ok(Join(parts))
  }

  predicate Canonical(path: string) {
    NormalizeRepoPath(path) == Ok(path)
  }

  function Segments(path: string): Path {
    if path == "" then ROOT else Split(path)
  }

  // ---------------------------------------------------------------- splitting and joining

  lemma {:induction false} JoinSplit(s: string)
    ensures Join(Split(s)) == s
  {
    if s != "" {
      JoinSplit(s[1..]);
      var rest := Split(s[1..]);
      assert Split(s)[1..] == if s[0] == '/' then rest else rest[1..];
    }
  }

  /** One character put in front of an already split text. */
  function Consed(c: char, rest: seq<string>): seq<string>
    requires rest != []
  {
    if c == '/' then [""] + rest else [[c] + rest[0]] + rest[1..]
  }

  lemma ConsedConcat(c: char, a: seq<string>, b: seq<string>)
    requires a != []
    ensures Consed(c, a + b) == Consed(c, a) + b
  {
    if c != '/' {
      assert (a + b)[1..] == a[1..] + b;
    }
  }

  lemma {:induction false} SplitConcat(a: string, b: string)
    ensures Split(a + "/" + b) == Split(a) + Split(b)
  {
    hide Consed;
    var s := a + "/" + b;
    if a == "" {
      assert s[1..] == b;
      SplitSlash(b);
    } else {
      SplitConcat(a[1..], b);
      assert s[1..] == a[1..] + "/" + b && s[0] == a[0];
      SplitCons(s);
      SplitCons(a);
      ConsedConcat(a[0], Split(a[1..]), Split(b));
    }
  }

  lemma SplitSlash(b: string)
    ensures Split("/" + b) == Split("") + Split(b)
  {
    assert ("/" + b)[1..] == b;
  }

  lemma SplitCons(s: string)
    requires s != ""
    ensures Split(s) == Consed(s[0], Split(s[1..]))
  {
  }

  lemma {:induction false} SplitWhole(s: string)
    requires '/' !in s
    ensures Split(s) == [s]
  {
    if s != "" {
      SplitWhole(s[1..]);
      assert [s[0]] + s[1..] == s;
    }
  }

  lemma {:induction false} SplitParts(s: string, i: nat)
    requires i < |Split(s)|
    ensures '/' !in Split(s)[i]
    ensures forall c | c in Split(s)[i] :: c in s
  {
    if s != "" {
      var rest := Split(s[1..]);
      if s[0] == '/' {
        if i > 0 {
          SplitParts(s[1..], i - 1);
        }
      } else {
        SplitParts(s[1..], i);
      }
    }
  }

  lemma {:induction false} SplitJoin(parts: seq<string>)
    requires parts != [] && forall part | part in parts :: '/' !in part
    ensures Split(Join(parts)) == parts
  {
    SplitWhole(parts[0]);
    if |parts| > 1 {
      SplitJoin(parts[1..]);
      SplitConcat(parts[0], Join(parts[1..]));
      assert [parts[0]] + parts[1..] == parts;
    }
  }

  lemma {:induction false} JoinConcat(a: seq<string>, b: seq<string>)
    requires a != [] && b != []
    ensures Join(a + b) == Join(a) + "/" + Join(b)
  {
    if |a| == 1 {
      assert (a + b)[1..] == b;
    } else {
      JoinConcat(a[1..], b);
      assert (a + b)[1..] == a[1..] + b;
    }
  }

  // ---------------------------------------------------------------- normalization

  lemma {:induction false} TrimLeftFacts(s: string)
    ensures TrimLeft(s) == "" || TrimLeft(s)[0] != '/'
    ensures forall c | c in TrimLeft(s) :: c in s
  {
    if s != "" && s[0] == '/' {
      TrimLeftFacts(s[1..]);
    }
  }

  lemma {:induction false} TrimRightFacts(s: string)
    ensures TrimRight(s) == "" || TrimRight(s)[|TrimRight(s)| - 1] != '/'
    ensures TrimRight(s) <= s
  {
    if s != "" && s[|s| - 1] == '/' {
      TrimRightFacts(s[..|s| - 1]);
    }
  }

  /** What normalization accepts it returns in canonical form, and canonical paths stay as they are. */
  lemma NormalizeIsIdempotent(path: string)
    requires NormalizeRepoPath(path).Ok?
    ensures Canonical(NormalizeRepoPath(path).value)
    ensures '\\' !in NormalizeRepoPath(path).value
  {
    var left := TrimLeft(ReplaceBackslashes(path));
    var t := TrimRight(left);
    TrimLeftFacts(ReplaceBackslashes(path));
    TrimRightFacts(left);
    JoinSplit(t);
    assert NormalizeRepoPath(path).value == t;
    assert forall c | c in t :: c in left;
    assert ReplaceBackslashes(t) == t;
    assert TrimLeft(t) == t && TrimRight(t) == t;
  }

  /** Canonical strings are exactly the joined lists of good segments, and no two lists join to one string. */
  lemma SegmentsOfCanonical(path: string)
    requires Canonical(path)
    ensures Join(Segments(path)) == path
    ensures forall part | part in Segments(path) :: !BadSegment(part) && '/' !in part && '\\' !in part
  {
    NormalizeIsIdempotent(path);
    JoinSplit(path);
    var t := TrimRight(TrimLeft(ReplaceBackslashes(path)));
    JoinSplit(t);
    assert t == path;
    forall part | part in Segments(path)
      ensures !BadSegment(part) && '/' !in part && '\\' !in part
    {
      var i :| 0 <= i < |Segments(path)| && Segments(path)[i] == part;
      SplitParts(path, i);
    }
  }

  lemma CanonicalOfSegments(parts: Path)
    requires forall part | part in parts :: !BadSegment(part) && '/' !in part && '\\' !in part
    ensures Canonical(Join(parts)) && Segments(Join(parts)) == parts
  {
    if parts != [] {
      var s := Join(parts);
      SplitJoin(parts);
      JoinEnds(parts);
      NoBackslash(parts);
      assert ReplaceBackslashes(s) == s;
      assert TrimLeft(s) == s && TrimRight(s) == s;
    }
  }

  lemma {:induction false} JoinEnds(parts: seq<string>)
    requires parts != [] && forall part | part in parts :: part != "" && '/' !in part
    ensures Join(parts) != "" && Join(parts)[0] != '/' && Join(parts)[|Join(parts)| - 1] != '/'
  {
    assert parts[0] in parts;
    if |parts| > 1 {
      assert forall part | part in parts[1..] :: part in parts;
      JoinEnds(parts[1..]);
    }
  }

  lemma {:induction false} NoBackslash(parts: seq<string>)
    requires forall part | part in parts :: '\\' !in part
    ensures '\\' !in Join(parts)
  {
    if |parts| > 1 {
      NoBackslash(parts[1..]);
    }
  }

  // ---------------------------------------------------------------- the string functions

  /** `isSameOrChild` on normalized strings. */
  predicate IsSameOrChild(path: string, parent: string) {
    path == parent || parent + "/" <= path
  }

  function LastSlash(s: string): (i: int)
    ensures -1 <= i < |s|
    ensures i >= 0 ==> s[i] == '/'
    ensures forall k | i < k < |s| :: s[k] != '/'
  {
    if s == "" then -1 else if s[|s| - 1] == '/' then |s| - 1 else LastSlash(s[..|s| - 1])
  }

  function ParentPath(path: string): Option<string> {
    if path == "" then None
    else if LastSlash(path) < 0 then Some("") else Some(path[..LastSlash(path)])
  }

  function BaseNameOf(path: string): string {
    if LastSlash(path) < 0 then path else path[LastSlash(path) + 1..]
  }

  predicate IsDirectChild(path: string, parent: string) {
    ParentPath(path) == Some(parent)
  }

  lemma IsSameOrChildIsWithin(path: string, parent: string)
    requires Canonical(path) && Canonical(parent)
    ensures IsSameOrChild(path, parent) <==> Within(Segments(path), Segments(parent))
  {
    SegmentsOfCanonical(path);
    SegmentsOfCanonical(parent);
    var p, q := Segments(path), Segments(parent);
    if parent + "/" <= path {
      ChildExtends(path, parent);
    }
    if q != ROOT && q < p {
      assert p == q + p[|q|..];
      JoinConcat(q, p[|q|..]);
    }
  }

  lemma ChildExtends(path: string, parent: string)
    requires Canonical(path) && Canonical(parent) && parent + "/" <= path
    ensures parent != "" && Segments(parent) < Segments(path)
  {
    hide Canonical;
    SegmentsOfCanonical(path);
    var rest := path[|parent| + 1..];
    assert path == parent + "/" + rest;
    SplitConcat(parent, rest);
    assert Split(path)[0] in Segments(path);
  }

  /** The last slash separates the last segment from the parent. */
  lemma ParentPathIsParent(path: string)
    requires Canonical(path) && path != ""
    ensures ParentPath(path) == Some(Join(Parent(Segments(path))))
    ensures Canonical(ParentPath(path).value)
    ensures BaseNameOf(path) == BaseName(Segments(path))
  {
    hide Canonical, Split;
    SegmentsOfCanonical(path);
    var p := Segments(path);
    var last := p[|p| - 1];
    assert last in p;
    assert p == Parent(p) + [last];
    CanonicalOfSegments(Parent(p));
    if |p| == 1 {
      assert path == last;
    } else {
      JoinConcat(Parent(p), [last]);
      CutAtLastSlash(Join(Parent(p)), last);
    }
  }

  lemma CutAtLastSlash(front: string, last: string)
    requires '/' !in last
    ensures
      var s := front + "/" + last;
      LastSlash(s) == |front| && s[..|front|] == front && s[|front| + 1..] == last
  {
    var s := front + "/" + last;
    assert forall k | |front| < k < |s| :: s[k] == last[k - |front| - 1];
    assert s[|front|] == '/';
  }

  lemma IsDirectChildIsParent(path: string, parent: string)
    requires Canonical(path) && Canonical(parent)
    ensures IsDirectChild(path, parent) <==> path != "" && Parent(Segments(path)) == Segments(parent)
  {
    if path != "" {
      ParentPathIsParent(path);
      SegmentsOfCanonical(path);
      SegmentsOfCanonical(parent);
      CanonicalOfSegments(Parent(Segments(path)));
    }
  }

  /** A rename's `to + path.slice(from.length)` is the move of the segments, and canonical again. */
  lemma SuffixIsMoved(path: string, from: string, to: string)
    requires Canonical(path) && Canonical(from) && Canonical(to) && from != "" && to != ""
    requires IsSameOrChild(path, from)
    ensures Within(Segments(path), Segments(from))
    ensures Canonical(to + path[|from|..])
    ensures Segments(to + path[|from|..]) == Moved(Segments(path), Segments(from), Segments(to))
  {
    hide Join, Split, Canonical;
    IsSameOrChildIsWithin(path, from);
    SegmentsOfCanonical(path);
    SegmentsOfCanonical(from);
    SegmentsOfCanonical(to);
    var p, f, t := Segments(path), Segments(from), Segments(to);
    if path == from {
      assert to + path[|from|..] == to && Moved(p, f, t) == t;
    } else {
      MovedText(p, f, t);
      assert path[|from|..] == "/" + Join(p[|f|..]);
      assert to + path[|from|..] == Join(Moved(p, f, t));
      CanonicalOfSegments(Moved(p, f, t));
    }
  }

  lemma MovedText(p: Path, f: Path, t: Path)
    requires f != ROOT && t != ROOT && f < p
    ensures Join(p) == Join(f) + "/" + Join(p[|f|..])
    ensures Join(Moved(p, f, t)) == Join(t) + "/" + Join(p[|f|..])
    ensures forall part | part in Moved(p, f, t) :: part in t || part in p
  {
    hide Join;
    var rest := p[|f|..];
    assert p == f + rest;
    JoinConcat(f, rest);
    JoinConcat(t, rest);
  }
}
