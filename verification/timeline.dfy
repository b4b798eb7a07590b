/**
 The file timeline: a walk from a pinned revision backwards through the adapter's pages of commits,
 cut into pages of entries that a cursor continues.
 */
module Timeline {
  import opened Wrappers
  import opened Paths
  import opened Repository

  const MAX_SCANNED_COMMITS := 250

  datatype CommitChange =
    | Added(path: Path)
    | Modified(path: Path)
    | Deleted(path: Path)
    | Renamed(path: Path, previousPath: Option<Path>)

  /** A commit with its changes, and its timestamp when that parses. */
  datatype Commit = Commit(revision: RevisionId, timestamp: Option<int>, changes: seq<CommitChange>)

  datatype Entry = Entry(commit: Commit, change: CommitChange, timestamp: int)

  /** The adapter's answers for one revision: page after page, each but the last with a cursor to the next. */
  type Pages = p: seq<seq<Commit>> | p != [] witness [[]]

  datatype State = State(revision: RevisionId, page: nat, offset: nat, trackedPath: Path)

  // ---------------------------------------------------------------- the unbounded scan

  function FindChange(changes: seq<CommitChange>, path: Path): Option<CommitChange> {
    if changes == [] then None
    else if changes[0].path == path then Some(changes[0])
    else FindChange(changes[1..], path)
  }

  /** The path under which a file was known before a change of it. */
  function PathBefore(change: CommitChange, path: Path): Path {
    if change.Renamed? && change.previousPath.Some? then change.previousPath.value else path
  }

  function EntryOf(commit: Commit, change: CommitChange, since: Option<int>): seq<Entry> {
    if commit.timestamp.Some? && (since.Some? ==> commit.timestamp.value >= since.value)
    then [Entry(commit, change, commit.timestamp.value)] else []
  }

  /** All entries of a file in a list of commits, newest first: renames are followed, the adding commit ends it. */
  function Scan(commits: seq<Commit>, path: Path, since: Option<int>): seq<Entry> {
    if commits == [] then []
    else
      match FindChange(commits[0].changes, path)
      case None => Scan(commits[1..], path, since)
      case Some(change) =>
        EntryOf(commits[0], change, since)
        + if change.Added? then [] else Scan(commits[1..], PathBefore(change, path), since)
  }

  /** The commits from a page on. An empty page ends the history. */
  function From(pages: Pages, page: nat): seq<Commit>
    decreases |pages| - page
  {
    if page >= |pages| || pages[page] == [] then [] else pages[page] + From(pages, page + 1)
  }

  function Joined(pages: seq<seq<Commit>>): seq<Commit> {
    if pages == [] then [] else Joined(pages[..|pages| - 1]) + pages[|pages| - 1]
  }

  /** The whole history is the pages before the first empty one, joined. */
  lemma {:induction false} HistoryIsAllPages(pages: Pages, page: nat, end: nat)
    requires page <= end <= |pages| && forall i | page <= i < end :: pages[i] != []
    requires end == |pages| || pages[end] == []
    ensures From(pages, page) == Joined(pages[page..end])
    decreases end - page
  {
    if page < end {
      HistoryIsAllPages(pages, page + 1, end);
      JoinedFromFront(pages[page..end]);
      assert pages[page..end][1..] == pages[page + 1..end];
    }
  }

  lemma {:induction false} JoinedFromFront(pages: seq<seq<Commit>>)
    requires pages != []
    ensures Joined(pages) == pages[0] + Joined(pages[1..])
  {
    if |pages| > 1 {
      var shorter := pages[..|pages| - 1];
      JoinedFromFront(shorter);
      assert pages[1..][..|pages| - 2] == shorter[1..];
    } else {
      assert pages[..0] == [] && Joined(pages[..0]) == [];
    }
  }

  function Remaining(pages: Pages, state: State): seq<Commit>
    requires state.page < |pages|
  {
    var page := pages[state.page];
    if page == [] then []
    else page[if state.offset < |page| then state.offset else |page|..] + From(pages, state.page + 1)
  }

  function Rest(pages: Pages, state: State, since: Option<int>): seq<Entry>
    requires state.page < |pages|
  {
    Scan(Remaining(pages, state), state.trackedPath, since)
  }

  /** The entries still to come after a page that ended with this cursor, or without one. */
  function RestAfter(pages: Pages, next: Option<State>, since: Option<int>): seq<Entry>
    requires next.Some? ==> next.value.page < |pages|
  {
    if next.Some? then Rest(pages, next.value, since) else []
  }

  // ---------------------------------------------------------------- steps of the walk

  lemma NextCommit(pages: Pages, state: State)
    requires state.page < |pages| && state.offset < |pages[state.page]|
    ensures Remaining(pages, state) != []
    ensures Remaining(pages, state)[0] == pages[state.page][state.offset]
    ensures Remaining(pages, state)[1..] == Remaining(pages, state.(offset := state.offset + 1))
  {
  }

  /** One commit of the scan: its entry, if it has one, and the scan of what is left under the earlier name. */
  lemma ScanStep(pages: Pages, state: State, since: Option<int>)
    requires state.page < |pages| && state.offset < |pages[state.page]|
    ensures
      var commit := pages[state.page][state.offset];
      var rest := state.(offset := state.offset + 1);
      && |Remaining(pages, state)| == |Remaining(pages, rest)| + 1
      && match FindChange(commit.changes, state.trackedPath)
         case None => Rest(pages, state, since) == Rest(pages, rest, since)
         case Some(change) =>
           Rest(pages, state, since) ==
             EntryOf(commit, change, since)
             + if change.Added? then []
               else Rest(pages, rest.(trackedPath := PathBefore(change, state.trackedPath)), since)
  {
    hide Remaining, FindChange, EntryOf;
    NextCommit(pages, state);
    SameRemaining(pages, state.(offset := state.offset + 1));
  }

  /** A page that is used up continues with the next one, if there is one. */
  lemma NextPage(pages: Pages, state: State)
    requires state.page < |pages| && pages[state.page] != [] && state.offset >= |pages[state.page]|
    ensures state.page + 1 == |pages| ==> Remaining(pages, state) == []
    ensures state.page + 1 < |pages| ==>
      Remaining(pages, state) == Remaining(pages, state.(page := state.page + 1, offset := 0))
  {
  }

  lemma SameRemaining(pages: Pages, state: State)
    requires state.page < |pages|
    ensures forall path :: Remaining(pages, state) == Remaining(pages, state.(trackedPath := path))
  {
  }

  /** A cursor of another base revision starts a new walk. */
  function DecodeCursor(cursor: Option<State>, revision: RevisionId, path: Path): State {
    if cursor.Some? && cursor.value.revision == revision then cursor.value else State(revision, 0, 0, path)
  }

  function NextCursorForPage(pages: Pages, state: State): (next: Option<State>)
    requires state.page < |pages| && pages[state.page] != []
    ensures next.Some? ==>
      next.value.page < |pages| && next.value.revision == state.revision && next.value.trackedPath == state.trackedPath
    ensures
      if next.Some? then Remaining(pages, next.value) == Remaining(pages, state) else Remaining(pages, state) == []
  {
    if state.offset < |pages[state.page]| then Some(state)
    else
      NextPage(pages, state);
      if state.page + 1 == |pages| then None else Some(state.(page := state.page + 1, offset := 0))
  }

  /** What one page of the timeline promises: a prefix of what was left, and a cursor to the exact remainder. */
  ghost predicate IsPage(
    pages: Pages, state: State, limit: int, since: Option<int>, entries: seq<Entry>, next: Option<State>)
    requires state.page < |pages|
  {
    && (next.Some? ==> next.value.page < |pages| && next.value.revision == state.revision)
    && Rest(pages, state, since) == entries + RestAfter(pages, next, since)
    && |entries| <= limit
    && (next.Some? ==>
          var scanned := |Remaining(pages, state)| - |Remaining(pages, next.value)|;
          0 < scanned <= MAX_SCANNED_COMMITS && (|entries| < limit ==> scanned == MAX_SCANNED_COMMITS))
  }

  /** `load`, uncancelled. A limit below one ends the timeline at once, without a cursor. */
  method Load(pages: Pages, revision: RevisionId, path: Path, cursor: Option<State>, limit: int, since: Option<int>)
    returns (entries: seq<Entry>, next: Option<State>)
    requires cursor.Some? && cursor.value.revision == revision ==> cursor.value.page < |pages|
    ensures limit >= 1 && cursor.Some? && cursor.value.revision == revision ==>
      IsPage(pages, cursor.value, limit, since, entries, next)
    ensures limit >= 1 && (cursor.None? || cursor.value.revision != revision) ==>
      IsPage(pages, State(revision, 0, 0, path), limit, since, entries, next)
    ensures limit < 1 ==> entries == [] && next.None?
  {
    var state := DecodeCursor(cursor, revision, path);
    ghost var start := state;
    entries, next := [], None;
    var scanned: nat := 0;
    while |entries| < limit && scanned < MAX_SCANNED_COMMITS
      invariant state.page < |pages| && state.revision == start.revision
      invariant limit >= 1 ==> |entries| < limit && scanned < MAX_SCANNED_COMMITS
      invariant limit < 1 ==> entries == []
      invariant next.None? && Rest(pages, start, since) == entries + Rest(pages, state, since)
      invariant scanned == |Remaining(pages, start)| - |Remaining(pages, state)|
      decreases |pages| - state.page
    {
      var page := pages[state.page];
      if page == [] {
        return;
      }
      if state.offset < |page| {
        var ended;
        state, entries, scanned, ended := ReadCommits(pages, state, entries, scanned, limit, since, start);
        if ended {
          return;
        }
        if |entries| >= limit || scanned >= MAX_SCANNED_COMMITS {
          next := NextCursorForPage(pages, state);
          return;
        }
      }
      NextPage(pages, state);
      if state.page + 1 == |pages| {
        return;
      }
      state := state.(page := state.page + 1, offset := 0);
    }
  }

  /** The commits of one page, until the adding commit or one of the two bounds. */
  method ReadCommits(
      pages: Pages, from: State, found: seq<Entry>, seen: nat, limit: int, since: Option<int>, ghost start: State)
    returns (state: State, entries: seq<Entry>, scanned: nat, ended: bool)
    requires from.page < |pages| && from.offset < |pages[from.page]| && start.page < |pages|
    requires |found| < limit && seen < MAX_SCANNED_COMMITS
    requires Rest(pages, start, since) == found + Rest(pages, from, since)
    requires seen == |Remaining(pages, start)| - |Remaining(pages, from)|
    ensures state.page == from.page && state.revision == from.revision
    ensures ended ==> Rest(pages, start, since) == entries && |entries| <= limit
    ensures !ended ==> Rest(pages, start, since) == entries + Rest(pages, state, since) && |entries| <= limit
    ensures !ended ==> 0 < scanned == |Remaining(pages, start)| - |Remaining(pages, state)| <= MAX_SCANNED_COMMITS
    ensures !ended && |entries| < limit && scanned < MAX_SCANNED_COMMITS ==> state.offset == |pages[state.page]|
  {
    hide Remaining, Rest, FindChange;
    state, entries, scanned, ended := from, found, seen, false;
    var page := pages[from.page];
    while state.offset < |page|
      invariant state == from.(offset := state.offset, trackedPath := state.trackedPath)
      invariant from.offset <= state.offset <= |page|
      invariant |entries| < limit && scanned < MAX_SCANNED_COMMITS
      invariant Rest(pages, start, since) == entries + Rest(pages, state, since)
      invariant scanned == |Remaining(pages, start)| - |Remaining(pages, state)|
      invariant state.offset > from.offset ==> scanned > 0
      decreases |page| - state.offset
    {
      ScanStep(pages, state, since);
      SameRemaining(pages, state.(offset := state.offset + 1));
      scanned := scanned + 1;
      var commit := page[state.offset];
      var change := FindChange(commit.changes, state.trackedPath);
      state := state.(offset := state.offset + 1);
      if change.Some? {
        entries := entries + EntryOf(commit, change.value, since);
        state := state.(trackedPath := PathBefore(change.value, state.trackedPath));
        if change.value.Added? {
          ended := true;
          return;
        }
        if |entries| >= limit {
          return;
        }
      }
      if scanned >= MAX_SCANNED_COMMITS {
        return;
      }
    }
  }

  // ---------------------------------------------------------------- following cursors

  datatype TimelinePage = TimelinePage(limit: int, entries: seq<Entry>, next: Option<State>)

  /** What `load` promises of one page for one cursor. */
  ghost predicate LoadedPage(
    pages: Pages, revision: RevisionId, path: Path, cursor: Option<State>, since: Option<int>, page: TimelinePage)
  {
    var start := DecodeCursor(cursor, revision, path);
    start.page < |pages| && IsPage(pages, start, page.limit, since, page.entries, page.next)
  }

  /** Pages loaded one after the other, each with the cursor of the one before, to the end. */
  ghost predicate Follows(
    pages: Pages, revision: RevisionId, path: Path, cursor: Option<State>, since: Option<int>,
    loaded: seq<TimelinePage>)
    decreases |loaded|
  {
    && loaded != []
    && loaded[0].limit >= 1
    && LoadedPage(pages, revision, path, cursor, since, loaded[0])
    && (if loaded[0].next.None? then |loaded| == 1
        else Follows(pages, revision, path, loaded[0].next, since, loaded[1..]))
  }

  function Entries(loaded: seq<TimelinePage>): seq<Entry> {
    if loaded == [] then [] else loaded[0].entries + Entries(loaded[1..])
  }

  /**
   Paging is transparent: whatever the limits, the pages that follow a cursor of this revision are together
   the one unbounded scan from there, in order and once each, and no more than commits plus one.
   */
  lemma {:induction false} PagingIsTransparent(
      pages: Pages, revision: RevisionId, path: Path, cursor: State, since: Option<int>, loaded: seq<TimelinePage>)
    requires cursor.revision == revision && cursor.page < |pages|
    requires Follows(pages, revision, path, Some(cursor), since, loaded)
    ensures Entries(loaded) == Rest(pages, cursor, since)
    ensures |loaded| <= |Remaining(pages, cursor)| + 1
    decreases |loaded|
  {
    if loaded[0].next.Some? {
      PagingIsTransparent(pages, revision, path, loaded[0].next.value, since, loaded[1..]);
    } else {
      assert Entries(loaded[1..]) == [];
    }
  }

  /**
   Without a cursor, or with one of another base revision, the pages are the scan of the whole history, up to
   an empty page.
   */
  lemma TimelineIsWholeScan(
      pages: Pages, revision: RevisionId, path: Path, cursor: Option<State>, since: Option<int>,
      loaded: seq<TimelinePage>)
    requires cursor.Some? ==> cursor.value.revision != revision
    requires Follows(pages, revision, path, cursor, since, loaded)
    ensures Entries(loaded) == Scan(From(pages, 0), path, since)
  {
    var start := State(revision, 0, 0, path);
    StartsAtFirstPage(pages, revision, path, cursor, since, loaded);
    PagingIsTransparent(pages, revision, path, start, since, loaded);
    assert Remaining(pages, start) == From(pages, 0);
    hide Follows, Entries;
  }

  lemma StartsAtFirstPage(
      pages: Pages, revision: RevisionId, path: Path, cursor: Option<State>, since: Option<int>,
      loaded: seq<TimelinePage>)
    requires cursor.Some? ==> cursor.value.revision != revision
    requires Follows(pages, revision, path, cursor, since, loaded)
    ensures Follows(pages, revision, path, Some(State(revision, 0, 0, path)), since, loaded)
  {
    hide IsPage;
  }

  // ---------------------------------------------------------------- what a scan contains

  /** The first change of a commit that names the path. */
  predicate Changes(commit: Commit, path: Path, change: CommitChange) {
    exists k :: 0 <= k < |commit.changes| && commit.changes[k] == change && change.path == path
      && forall j | 0 <= j < k :: commit.changes[j].path != path
  }

  /** How a commit renames backwards; a file has no name before the commit that adds it. */
  ghost predicate NameBefore(commit: Commit, name: Option<Path>, before: Option<Path>) {
    match name
    case None => before == None
    case Some(path) =>
      && ((forall c | c in commit.changes :: c.path != path) ==> before == Some(path))
      && forall c | c in commit.changes && Changes(commit, path, c) ::
        before ==
          match c {
            case Added(_) => None
            case Renamed(_, Some(previous)) => Some(previous)
            case _ => Some(path)
          }
  }

  /** The names a file had, from now on backwards: `names[i]` is the one after the commit `i` places from the newest. */
  ghost predicate IsNaming(commits: seq<Commit>, path: Option<Path>, names: seq<Option<Path>>) {
    && |names| == |commits| + 1 && names[0] == path
    && forall i | 0 <= i < |commits| :: NameBefore(commits[i], names[i], names[i + 1])
  }

  /** The entry is of this commit, which changes the file under the name it had then, and is recent enough. */
  predicate Listed(commit: Commit, name: Option<Path>, since: Option<int>, e: Entry) {
    && name.Some? && Changes(commit, name.value, e.change)
    && e.commit == commit && commit.timestamp == Some(e.timestamp)
    && (since.Some? ==> e.timestamp >= since.value)
  }

  /** The entries are those of the commits at these places, in order, and there is no other. */
  ghost predicate InOrder(
    commits: seq<Commit>, names: seq<Option<Path>>, since: Option<int>, entries: seq<Entry>, places: seq<nat>)
    requires |names| == |commits| + 1
  {
    && |places| == |entries|
    && (forall j, k | 0 <= j < k < |places| :: places[j] < places[k])
    && (forall k | 0 <= k < |places| ::
          places[k] < |commits| && Listed(commits[places[k]], names[places[k]], since, entries[k]))
    && (forall i, e | 0 <= i < |commits| && Listed(commits[i], names[i], since, e) ::
          exists k :: 0 <= k < |places| && places[k] == i && entries[k] == e)
  }

  lemma {:induction false} FindChangeMeaning(commit: Commit, changes: seq<CommitChange>, path: Path)
    requires |changes| <= |commit.changes| && commit.changes[|commit.changes| - |changes|..] == changes
    requires forall j | 0 <= j < |commit.changes| - |changes| :: commit.changes[j].path != path
    ensures match FindChange(changes, path)
      case None => forall c | c in commit.changes :: c.path != path
      case Some(c) => c in commit.changes && forall d :: Changes(commit, path, d) <==> d == c
  {
    var n := |commit.changes| - |changes|;
    if changes != [] {
      assert commit.changes[n] == changes[0];
      if changes[0].path == path {
        assert Changes(commit, path, changes[0]);
      } else {
        assert commit.changes[n + 1..] == changes[1..];
        FindChangeMeaning(commit, changes[1..], path);
      }
    } else {
      assert forall c | c in commit.changes :: exists j :: 0 <= j < n && commit.changes[j] == c;
    }
  }

  /** The entry of one commit, and the name before it. */
  lemma EntryListed(commit: Commit, path: Path, before: Option<Path>, since: Option<int>)
    requires NameBefore(commit, Some(path), before)
    ensures var change := FindChange(commit.changes, path);
      && (forall e ::
            Listed(commit, Some(path), since, e) <==> change.Some? && e in EntryOf(commit, change.value, since))
      && before == match change {
           case None => Some(path)
           case Some(c) => if c.Added? then None else Some(PathBefore(c, path))
         }
  {
    FindChangeMeaning(commit, commit.changes, path);
    var change := FindChange(commit.changes, path);
    if change.Some? {
      assert Changes(commit, path, change.value);
    }
  }

  /** The scan lists exactly the commits that change the file under the name it had then, in order and once each. */
  lemma {:induction false} ScanInOrder(commits: seq<Commit>, path: Path, since: Option<int>, names: seq<Option<Path>>)
    returns (places: seq<nat>)
    requires IsNaming(commits, Some(path), names)
    ensures InOrder(commits, names, since, Scan(commits, path, since), places)
    decreases |commits|
  {
    places := [];
    if commits != [] {
      var commit := commits[0];
      var change := FindChange(commit.changes, path);
      assert NameBefore(commit, names[0], names[1]);
      EntryListed(commit, path, names[1], since);
      var entry := if change.Some? then EntryOf(commit, change.value, since) else [];
      var later, entries := [], [];
      if names[1].None? {
        NothingBefore(commits, since, names);
      } else {
        NamingBefore(commits, path, names);
        entries := Scan(commits[1..], names[1].value, since);
        later := ScanInOrder(commits[1..], names[1].value, since, names[1..]);
      }
      assert Scan(commits, path, since) == entry + entries;
      hide InOrder, Listed, Scan, IsNaming, EntryOf, FindChange;
      places := Prepended(commits, names, since, entry, entries, later);
    }
  }

  lemma NamingBefore(commits: seq<Commit>, path: Path, names: seq<Option<Path>>)
    requires IsNaming(commits, Some(path), names) && commits != []
    ensures IsNaming(commits[1..], names[1], names[1..])
  {
    forall i | 0 <= i < |commits[1..]|
      ensures NameBefore(commits[1..][i], names[1..][i], names[1..][i + 1])
    {
      assert NameBefore(commits[i + 1], names[i + 1], names[i + 1 + 1]);
    }
  }

  lemma NothingBefore(commits: seq<Commit>, since: Option<int>, names: seq<Option<Path>>)
    requires commits != [] && |names| == |commits| + 1 && names[1].None?
    requires forall i | 0 <= i < |commits| :: NameBefore(commits[i], names[i], names[i + 1])
    ensures InOrder(commits[1..], names[1..], since, [], [])
  {
    forall i | 0 < i <= |commits|
      ensures names[i].None?
    {
      NamesEnd(commits, names, i);
    }
  }

  lemma {:induction false} NamesEnd(commits: seq<Commit>, names: seq<Option<Path>>, i: nat)
    requires 0 < i <= |commits| && |names| == |commits| + 1 && names[1].None?
    requires forall k | 0 <= k < |commits| :: NameBefore(commits[k], names[k], names[k + 1])
    ensures names[i].None?
  {
    if i > 1 {
      NamesEnd(commits, names, i - 1);
      assert NameBefore(commits[i - 1], names[i - 1], names[i - 1 + 1]);
    }
  }

  lemma Prepended(
      commits: seq<Commit>, names: seq<Option<Path>>, since: Option<int>, entry: seq<Entry>, entries: seq<Entry>,
      later: seq<nat>)
    returns (places: seq<nat>)
    requires commits != [] && |names| == |commits| + 1 && |entry| <= 1
    requires InOrder(commits[1..], names[1..], since, entries, later)
    requires forall e :: Listed(commits[0], names[0], since, e) <==> e in entry
    ensures InOrder(commits, names, since, entry + entries, places)
  {
    hide Listed;
    var n := |entry|;
    places := seq(n + |later|, k requires 0 <= k < n + |later| => if k < n then 0 else later[k - n] + 1);
    hide InOrder;
    assert |later| == |entries| && forall j, k | 0 <= j < k < |places| :: places[j] < places[k] by {
      LaterPlaces(commits, names, since, entries, later);
    }
    forall k | 0 <= k < |places|
      ensures places[k] < |commits| && Listed(commits[places[k]], names[places[k]], since, (entry + entries)[k])
    {
      ListedAt(commits, names, since, entry, entries, later, places, k);
    }
    forall i, e | 0 <= i < |commits| && Listed(commits[i], names[i], since, e)
      ensures exists k :: 0 <= k < |places| && places[k] == i && (entry + entries)[k] == e
    {
      FoundAmong(commits, names, since, entry, entries, later, places, i, e);
    }
    InOrderIs(commits, names, since, entry + entries, places);
  }

  lemma LaterPlaces(
      commits: seq<Commit>, names: seq<Option<Path>>, since: Option<int>, entries: seq<Entry>, later: seq<nat>)
    requires commits != [] && |names| == |commits| + 1 && InOrder(commits[1..], names[1..], since, entries, later)
    ensures |later| == |entries| && forall j, k | 0 <= j < k < |later| :: later[j] < later[k]
  {
  }

  lemma InOrderIs(
      commits: seq<Commit>, names: seq<Option<Path>>, since: Option<int>, entries: seq<Entry>, places: seq<nat>)
    requires |names| == |commits| + 1 && |places| == |entries|
    requires forall j, k | 0 <= j < k < |places| :: places[j] < places[k]
    requires forall k | 0 <= k < |places| ::
      places[k] < |commits| && Listed(commits[places[k]], names[places[k]], since, entries[k])
    requires forall i, e | 0 <= i < |commits| && Listed(commits[i], names[i], since, e) ::
      exists k :: 0 <= k < |places| && places[k] == i && entries[k] == e
    ensures InOrder(commits, names, since, entries, places)
  {
    hide Listed;
  }

  lemma ListedAt(
      commits: seq<Commit>, names: seq<Option<Path>>, since: Option<int>, entry: seq<Entry>, entries: seq<Entry>,
      later: seq<nat>, places: seq<nat>, k: nat)
    requires commits != [] && |names| == |commits| + 1 && |entry| <= 1
    requires InOrder(commits[1..], names[1..], since, entries, later)
    requires forall e :: Listed(commits[0], names[0], since, e) <==> e in entry
    requires k < |places| == |entry| + |later|
    requires places[k] == if k < |entry| then 0 else later[k - |entry|] + 1
    ensures |later| == |entries|
    ensures places[k] < |commits| && Listed(commits[places[k]], names[places[k]], since, (entry + entries)[k])
  {
    hide Listed;
    var n := |entry|;
    if k < n {
      assert entry[0] in entry;
    } else {
      assert Listed(commits[1..][later[k - n]], names[1..][later[k - n]], since, entries[k - n]);
    }
  }

  lemma FoundAmong(
      commits: seq<Commit>, names: seq<Option<Path>>, since: Option<int>, entry: seq<Entry>, entries: seq<Entry>,
      later: seq<nat>, places: seq<nat>, i: nat, e: Entry)
    requires commits != [] && |names| == |commits| + 1 && |entry| <= 1 && i < |commits|
    requires InOrder(commits[1..], names[1..], since, entries, later)
    requires forall e :: Listed(commits[0], names[0], since, e) <==> e in entry
    requires |places| == |entry| + |later|
    requires forall k | 0 <= k < |places| :: places[k] == if k < |entry| then 0 else later[k - |entry|] + 1
    requires Listed(commits[i], names[i], since, e)
    ensures exists k :: 0 <= k < |places| && places[k] == i && (entry + entries)[k] == e
  {
    hide Listed;
    if i == 0 {
      assert e in entry && places[0] == 0 && (entry + entries)[0] == e;
    } else {
      assert Listed(commits[1..][i - 1], names[1..][i - 1], since, e);
      var k :| 0 <= k < |later| && later[k] == i - 1 && entries[k] == e;
      assert places[k + |entry|] == i && (entry + entries)[k + |entry|] == e;
    }
  }

  lemma NameExists(commit: Commit, name: Option<Path>) returns (before: Option<Path>)
    ensures NameBefore(commit, name, before)
  {
    before := name;
    if name.Some? {
      FindChangeMeaning(commit, commit.changes, name.value);
      var change := FindChange(commit.changes, name.value);
      if change.Some? {
        assert Changes(commit, name.value, change.value);
        before := if change.value.Added? then None else Some(PathBefore(change.value, name.value));
      }
    }
  }

  /** Every history has such a naming. */
  lemma {:induction false} NamingExists(commits: seq<Commit>, path: Option<Path>) returns (names: seq<Option<Path>>)
    ensures IsNaming(commits, path, names)
    decreases |commits|
  {
    names := [path];
    if commits != [] {
      var before := NameExists(commits[0], path);
      var rest := NamingExists(commits[1..], before);
      names := [path] + rest;
      hide NameBefore;
      forall i | 0 <= i < |commits|
        ensures NameBefore(commits[i], names[i], names[i + 1])
      {
        if i > 0 {
          assert NameBefore(commits[1..][i - 1], rest[i - 1], rest[i - 1 + 1]);
        }
      }
    }
  }

  /** So an entry is in the scan exactly when some commit lists it under the name the file had then. */
  lemma ScanFindsExactly(commits: seq<Commit>, path: Path, since: Option<int>, names: seq<Option<Path>>, e: Entry)
    requires IsNaming(commits, Some(path), names)
    ensures e in Scan(commits, path, since) <==>
      exists i :: 0 <= i < |commits| && Listed(commits[i], names[i], since, e)
  {
    var places := ScanInOrder(commits, path, since, names);
  }
}
