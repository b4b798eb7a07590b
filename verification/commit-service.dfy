/** A commit from end to end: the changes of the tree, the request, and what the remote stores. */
module CommitService {
  import opened Wrappers
  import opened Paths
  import opened Repository
  import opened Overlays
  import opened TreeView
  import opened ChangeSets
  import opened CommitChanges
  import opened FixtureFiles
  import opened CommitEngine

  datatype Operation = NormalCommit | ForceCommit(expected: RevisionId) | AmendCommit

  /** The request that `execute` builds for each kind of commit. */
  function RequestFor(
      branch: BranchName, base: RevisionId, message: string, changes: seq<Change>, operation: Operation): CommitRequest
  {
    match operation
    case NormalCommit => CommitRequest(false, branch, base, message, changes, Normal)
    case ForceCommit(expected) => CommitRequest(false, branch, base, message, changes, ForceWithLease(expected))
    case AmendCommit => CommitRequest(true, branch, base, message, changes, ForceWithLease(base))
  }

  /** The paths whose changes a commit carries. */
  function Carried(base: Files, o: OverlaySnapshot, selected: Option<set<Path>>): set<Path> {
    if selected.Some? then CommitPaths(base, o, selected.value) else AllChanges(base, o).Keys
  }

  /**
   `CommitService.execute` up to the remote's answer. A success moves the head from the expected revision to
   a new one that holds the base with the carried changes published, as `Journal.Lands` has it; the remote
   refuses the changes themselves only when a file would become another's parent.
   */
  method Execute(
      engine: FixtureCommitEngine, branch: BranchName, base: RevisionId, o: OverlaySnapshot, message: string,
      operation: Operation, selected: Option<set<Path>>)
    returns (r: Result<CommitResult>)
    requires engine.Valid() && base in engine.commits && Sound(engine.commits[base].files, o)
    modifies engine
    ensures engine.Valid()
    ensures r.Ok? && r.value.Success? ==>
      var files := old(engine.commits)[base].files;
      && r.value.revision !in old(engine.commits) && branch in old(engine.branches)
      && old(engine.branches)[branch] == (if operation.ForceCommit? then operation.expected else base)
      && engine.branches == old(engine.branches)[branch := r.value.revision]
      && engine.commits.Keys == old(engine.commits).Keys + {r.value.revision}
      && engine.commits[r.value.revision].files == Published(files, o, Carried(files, o, selected))
      && engine.commits[r.value.revision].parents ==
           if operation.AmendCommit? then old(engine.commits)[base].parents else [base]
    ensures !(r.Ok? && r.value.Success?) ==>
      engine.commits == old(engine.commits) && engine.branches == old(engine.branches)
    ensures r.Ok? && r.value.Refused? ==>
      var files := old(engine.commits)[base].files;
      branch !in old(engine.branches) || FileBecomesParent(files, o, Carried(files, o, selected))
    ensures r.Ok? && r.value.RemoteChanged? ==>
      branch in old(engine.branches)
      && old(engine.branches)[branch] != (if operation.ForceCommit? then operation.expected else base)
    ensures r.Err? ==>
      var files := old(engine.commits)[base].files;
      || Blank(message)
      || (!operation.AmendCommit? && forall p | p in Carried(files, o, selected) :: ChangeFor(files, o, p).None?)
      || !(WellFormed(files, o) && TombstonesWithinBudget(files, o))
  {
    var trimmed := Trim(message);
    BlankIffTrimmedAway(message);
    if trimmed == "" {
      return Err(InvalidRequest);
    }
    ghost var files := engine.commits[base].files;
    var changes := BuildCommitChanges(engine.commits[base].files, o, selected);
    if changes.Err? {
      return Err(changes.code);
    }
    if changes.value == [] && !operation.AmendCommit? {
      return Err(InvalidRequest);
    }
    PublicationIsAccepted(files, o, Carried(files, o, selected), changes.value);
    RequestPasses(engine.commits, engine.branches, branch, base, message, changes.value, operation);
    hide Sound, Check, RequestFor, ExpectedHead, AmendsBase, Trim, Blank;
    hide FileBecomesParent, ListsChanges, Published, Acceptable, Applied, NoFileIsParent, Carried, Visible, AllChanges;
    var result := engine.Execute(RequestFor(branch, base, trimmed, changes.value, operation));
    return Ok(result);
  }

  /** The remote's first checks have nothing to refuse but a missing branch. */
  lemma RequestPasses(
      commits: map<RevisionId, StoredCommit>, branches: map<BranchName, RevisionId>,
      branch: BranchName, base: RevisionId, message: string, changes: seq<Change>, operation: Operation)
    requires Trim(message) != "" && (changes != [] || operation.AmendCommit?) && base in commits
    ensures var request := RequestFor(branch, base, Trim(message), changes, operation);
      && request.branch == branch && request.baseRevision == base && request.changes == changes
      && ExpectedHead(request) == (if operation.ForceCommit? then operation.expected else base)
      && (request.amend && request.push.ForceWithLease? <==> operation.AmendCommit?)
      && (Check(commits, branches, request).Ok? <==> branch in branches)
      && !Blank(request.message) && (request.changes != [] || request.amend)
      && (request.push.Normal? ==> ExpectedHead(request) == base)
      && (request.push.ForceWithLease? ==>
            ExpectedHead(request) == request.push.expected && (request.amend ==> request.push.expected == base))
  {
    TrimTwice(message);
    BlankIffTrimmedAway(Trim(message));
  }

  lemma {:induction false} TrimTwice(s: string)
    ensures Trim(Trim(s)) == Trim(s)
  {
    if s != "" {
      if s[0] in " \t\n\r" {
        TrimTwice(s[1..]);
      } else if s[|s| - 1] in " \t\n\r" {
        TrimTwice(s[..|s| - 1]);
      }
    }
  }
}
