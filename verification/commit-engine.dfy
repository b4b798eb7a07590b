/** The reference remote: commits are compare-and-swap on a branch head. */
module CommitEngine {
  import opened Wrappers
  import opened Paths
  import opened Repository
  import opened ChangeSets
  import opened FixtureFiles

  type BranchName = string

  datatype Push = Normal | ForceWithLease(expected: RevisionId)

  datatype CommitRequest = CommitRequest(
    amend: bool,
    branch: BranchName,
    baseRevision: RevisionId,
    message: string,
    changes: seq<Change>,
    push: Push)

  datatype StoredCommit = StoredCommit(parents: seq<RevisionId>, files: Files)

  datatype CommitResult = Success(revision: RevisionId) | RemoteChanged(actual: RevisionId) | Refused(code: Code)

  /** The head a request is a lease on. */
  function ExpectedHead(request: CommitRequest): RevisionId {
    match request.push
    case Normal => request.baseRevision
    case ForceWithLease(expected) => expected
  }

  function Trim(s: string): string {
    if s == "" then s
    else if s[0] in " \t\n\r" then Trim(s[1..])
    else if s[|s| - 1] in " \t\n\r" then Trim(s[..|s| - 1])
    else s
  }

  predicate Blank(s: string) {
    forall c | c in s :: c in " \t\n\r"
  }

  lemma {:induction false} BlankIffTrimmedAway(s: string)
    ensures Trim(s) == "" <==> Blank(s)
  {
    if s != "" {
      if s[0] in " \t\n\r" {
        BlankIffTrimmedAway(s[1..]);
        assert s == [s[0]] + s[1..];
      } else if s[|s| - 1] in " \t\n\r" {
        BlankIffTrimmedAway(s[..|s| - 1]);
        assert s == s[..|s| - 1] + [s[|s| - 1]];
      }
    }
  }

  /** Exactly the blanks at both ends are cut off. */
  lemma {:induction false} TrimMeaning(s: string) returns (before: string, after: string)
    ensures s == before + Trim(s) + after && Blank(before) && Blank(after)
    ensures var t := Trim(s); t != "" ==> t[0] !in " \t\n\r" && t[|t| - 1] !in " \t\n\r"
    decreases |s|
  {
    hide Blank;
    before, after := "", "";
    BlankGrows("", "");
    if s != "" {
      if s[0] in " \t\n\r" {
        before, after := TrimMeaning(s[1..]);
        BlankGrows([s[0]], before);
        assert s == [s[0]] + s[1..];
        before := [s[0]] + before;
      } else if s[|s| - 1] in " \t\n\r" {
        before, after := TrimMeaning(s[..|s| - 1]);
        BlankGrows(after, [s[|s| - 1]]);
        assert s == s[..|s| - 1] + [s[|s| - 1]];
        after := after + [s[|s| - 1]];
      }
    }
  }

  lemma BlankGrows(a: string, b: string)
    ensures Blank("") && (Blank(a + b) <==> Blank(a) && Blank(b))
    ensures |a| == 1 ==> (Blank(a) <==> a[0] in " \t\n\r")
    ensures |b| == 1 ==> (Blank(b) <==> b[0] in " \t\n\r")
  {
    assert forall c :: c in a + b <==> c in a || c in b;
  }

  /** The checks before the head is compared. */
  function Check(commits: map<RevisionId, StoredCommit>, branches: map<BranchName, RevisionId>, request: CommitRequest)
    : Result<()>
  {
    if Trim(request.message) == "" then Err(InvalidRequest)
    else if request.changes == [] && !request.amend then Err(InvalidRequest)
    else if request.branch !in branches then Err(NotFound)
    else if request.baseRevision !in commits then Err(NotFound)
    else Ok(())
  }

  /** An amend must be a lease on the very revision it replaces. */
  predicate AmendsBase(request: CommitRequest) {
    request.amend && request.push.ForceWithLease? ==> request.push.expected == request.baseRevision
  }

  class FixtureCommitEngine {
    var commits: map<RevisionId, StoredCommit>
    var branches: map<BranchName, RevisionId>
    var sequence: nat

    /** Every head is stored and the next identifier is unused. */
    ghost predicate Valid()
      reads this
    {
      && (forall r | r in commits :: r < sequence)
      && (forall b | b in branches :: branches[b] in commits)
    }

    constructor (files: Files, branch: BranchName)
      ensures Valid() && branches == map[branch := 0] && commits == map[0 := StoredCommit([], files)]
    {
      commits, branches, sequence := map[0 := StoredCommit([], files)], map[branch := 0], 1;
    }

    /**
     A request succeeds exactly when its checks pass, the head is the expected one and the changes
     apply; it then stores one new revision and moves that one head. Otherwise nothing changes.
     */
    method Execute(request: CommitRequest) returns (result: CommitResult)
      requires Valid()
      modifies this
      ensures Valid()
      ensures result.Success? <==>
        && !Blank(request.message) && (request.changes != [] || request.amend)
        && request.branch in old(branches) && request.baseRevision in old(commits)
        && (request.push.Normal? ==> old(branches)[request.branch] == request.baseRevision)
        && (request.push.ForceWithLease? ==>
              && old(branches)[request.branch] == request.push.expected
              && (request.amend ==> request.push.expected == request.baseRevision))
        && Acceptable(old(commits)[request.baseRevision].files, request.changes)
        && NoFileIsParent(Applied(old(commits)[request.baseRevision].files, request.changes))
      ensures result.RemoteChanged? ==>
        request.branch in old(branches)
        && result.actual == old(branches)[request.branch] && result.actual != ExpectedHead(request)
      ensures result.Refused? && Check(old(commits), old(branches), request).Ok? ==>
        old(branches)[request.branch] == ExpectedHead(request)
      ensures result.Success? ==>
        && result.revision !in old(commits)
        && branches == old(branches)[request.branch := result.revision]
        && commits == old(commits)[result.revision := StoredCommit(
             if request.amend && request.push.ForceWithLease? then old(commits)[request.baseRevision].parents
             else [request.baseRevision],
             Applied(old(commits)[request.baseRevision].files, request.changes))]
      ensures !result.Success? ==> commits == old(commits) && branches == old(branches)
    {
      BlankIffTrimmedAway(request.message);
      var checked := Check(commits, branches, request);
      if checked.Err? {
        return Refused(checked.code);
      }
      var actualHead := branches[request.branch];
      if request.push.Normal? {
        if actualHead != request.baseRevision {
          return RemoteChanged(actualHead);
        }
        result := Publish(request.branch, request.baseRevision, [request.baseRevision], request.changes);
        return;
      }
      if actualHead != request.push.expected {
        return RemoteChanged(actualHead);
      }
      if request.amend {
        if request.push.expected != request.baseRevision {
          return Refused(InvalidRequest);
        }
        result := Publish(request.branch, request.baseRevision, commits[request.baseRevision].parents, request.changes);
        return;
      }
      result := Publish(request.branch, request.baseRevision, [request.baseRevision], request.changes);
    }

    method Publish(branch: BranchName, from: RevisionId, parents: seq<RevisionId>, changes: seq<Change>)
      returns (result: CommitResult)
      requires Valid() && from in commits && branch in branches
      modifies this
      ensures Valid() && !result.RemoteChanged?
      ensures result.Success? <==>
        Acceptable(old(commits)[from].files, changes) && NoFileIsParent(Applied(old(commits)[from].files, changes))
      ensures result.Success? ==>
        && result.revision !in old(commits)
        && branches == old(branches)[branch := result.revision]
        && commits == old(commits)[result.revision := StoredCommit(parents, Applied(old(commits)[from].files, changes))]
      ensures !result.Success? ==> commits == old(commits) && branches == old(branches)
    {
      var files := ApplyChanges(commits[from].files, changes);
      if files.Err? {
        return Refused(files.code);
      }
      var revision := sequence;
      sequence := sequence + 1;
      commits := commits[revision := StoredCommit(parents, files.value)];
      branches := branches[branch := revision];
      return Success(revision);
    }
  }
}
