/**
 The workspace methods as the program runs them: fields changed between saves and remote calls.
 Each method is proved to be a path of the journal machine, so that the machine's whole-run theorems,
 with a crash possible between any two steps, hold of it.
 */
module Workspaces {
  import opened Wrappers
  import opened Paths
  import opened Repository
  import opened Overlays
  import opened TreeView
  import opened ChangeSets
  import opened Rebases
  import opened WorkingTrees
  import opened Journal

  /** The events lead from one world to the other. */
  ghost predicate Leads(w: World, events: seq<Event>, w': World)
    decreases |events|
  {
    if events == [] then w == w' else Enabled(w, events[0]) && Leads(Next(w, events[0]), events[1..], w')
  }

  lemma {:induction false} PathStep(w: World, events: seq<Event>, w': World, e: Event)
    requires Leads(w, events, w') && Enabled(w', e)
    ensures Leads(w, events + [e], Next(w', e))
    decreases |events|
  {
    if events != [] {
      PathStep(Next(w, events[0]), events[1..], w', e);
      assert (events + [e])[1..] == events[1..] + [e];
    } else {
      assert (events + [e])[1..] == [];
    }
  }

  lemma {:induction false} PathKeeps(w: World, events: seq<Event>, w': World)
    requires Invariant(w) && Leads(w, events, w')
    ensures Invariant(w')
    decreases |events|
  {
    if events != [] {
      StepKeeps(w, events[0]);
      PathKeeps(Next(w, events[0]), events[1..], w');
    }
  }

  datatype CommitOutcome = Committed(revision: RevisionId) | Rejected | Blocked | NotCommitted

  datatype Answer = Success(revision: RevisionId) | Rejection | Thrown

  datatype Resolution = NotPublished | PublishedRevision(revision: RevisionId)

  lemma LeadsNowhere(w: World)
    ensures Leads(w, [], w)
  {
  }

  lemma InvariantFacts(w: World)
    requires Invariant(w)
    ensures w.remote.head in w.remote.revisions && w.remote.landing in w.remote.past + {w.remote.head}
    ensures w.session.Open? && w.session.phase.Recorded? ==> w.session.image.pending.PublishedAs?
  {
  }

  class RemotishWorkspace {
    var base: RevisionId
    var overlay: OverlaySnapshot
    var pendingCommitPublication: Pending
    /** What the two pointers name, and the remote as it stands. */
    var disk: Disk
    var remote: Remote
    /** How often the storage or the remote has failed, and how often the remote was asked. */
    ghost var failures: nat
    ghost var requests: nat
    /** The machine this object is a session of. */
    ghost var world: World

    function Current(): Image
      reads this
    {
      Image(base, overlay, pendingCommitPublication)
    }

    /** The object is the machine's open session, in some phase of a publication. */
    ghost predicate At(phase: Phase)
      reads this
    {
      && Invariant(world)
      && world.disk == disk && world.remote == remote
      && world.session == Session.Open(Current(), phase)
    }

    /** Between two operations. */
    ghost predicate Valid()
      reads this
    {
      At(Idle)
    }

    /** A save replaces both pointers, or fails before the first or between the two. */
    method SaveSnapshot() returns (save: Save)
      modifies `disk, `failures
      ensures !save.Crashes() && disk == SavedDisk(old(disk), Current(), save)
      ensures failures == old(failures) + if save.Done? then 0 else 1
    {
      var backup: bool := *;
      if !backup {
        failures := failures + 1;
        return Save.Failed;
      }
      disk := disk.(backup := Some(Current()));
      var primary: bool := *;
      if !primary {
        failures := failures + 1;
        return HalfDone;
      }
      disk := disk.(primary := Some(Current()));
      return Done;
    }

    ghost method Advance(e: Event, start: World, before: seq<Event>) returns (after: seq<Event>)
      requires Leads(start, before, world) && Invariant(world) && Enabled(world, e)
      modifies `world
      ensures world == Next(old(world), e) && Leads(start, after, world) && Invariant(world)
      ensures after == before + [e]
    {
      PathStep(start, before, world, e);
      StepKeeps(world, e);
      world := Next(world, e);
      after := before + [e];
    }

    /** `runLocalMutation`: an edit that fails, or whose save fails, is rolled back in memory. */
    method Mutate(operation: Result<OverlaySnapshot>) returns (r: Result<()>, ghost events: seq<Event>)
      requires Valid()
      requires operation.Ok? ==> Sound(FilesOf(remote, base), operation.value)
      modifies this
      ensures Valid() && Leads(old(world), events, world)
      ensures base == old(base) && pendingCommitPublication == old(pendingCommitPublication) && remote == old(remote)
      ensures r.Ok? ==> old(pendingCommitPublication).NoPending? && operation.Ok? && overlay == operation.value
      ensures r.Ok? ==> disk.Loaded() == Some(Current()) && world.shown == Shown(remote, Current())
      ensures r.Err? ==> overlay == old(overlay)
      ensures r.Err? && old(disk).primary.Some? ==> disk.Loaded() == old(disk).Loaded()
      ensures old(pendingCommitPublication).NoPending? && operation.Ok? ==>
        r.Ok? || (r == Err(Offline) && failures > old(failures))
      ensures old(pendingCommitPublication).NoPending? && operation.Err? ==> r == Err(operation.code)
    {
      events := [];
      LeadsNowhere(world);
      hide Invariant, Leads, Shown, Sound;
      if !pendingCommitPublication.NoPending? {
        return Err(InvalidRequest), events;
      }
      var snapshot := overlay;
      if operation.Err? {
        return Err(operation.code), events;
      }
      overlay := operation.value;
      var save := SaveSnapshot();
      if !save.Done? {
        overlay := snapshot;
      }
      ghost var start := world;
      events := Advance(Edit(operation.value, save), start, events);
      return if save.Done? then Ok(()) else Err(Offline), events;
    }

    /** `refreshRemoteHead`: only a clean tree moves to the head, and back again when it cannot be saved. */
    method RefreshRemoteHead(readable: bool) returns (r: Result<bool>, ghost events: seq<Event>)
      requires Valid()
      modifies this
      ensures Valid() && Leads(old(world), events, world)
      ensures overlay == old(overlay) && pendingCommitPublication == old(pendingCommitPublication)
      ensures remote == old(remote)
      ensures r == Ok(true) ==>
        && overlay.IsEmpty() && base == remote.head && disk.Loaded() == Some(Current())
        && world.shown == Shown(remote, Current())
      ensures r != Ok(true) ==> base == old(base)
      ensures r == Ok(false) ==> disk == old(disk) && (base == remote.head || !overlay.IsEmpty())
      ensures pendingCommitPublication.NoPending? && readable && r.Err? ==>
        overlay.IsEmpty() && base != remote.head && failures > old(failures)
    {
      events := [];
      LeadsNowhere(world);
      hide Invariant, Leads, Shown;
      if !pendingCommitPublication.NoPending? {
        return Err(InvalidRequest), events;
      }
      if !readable {
        return Err(Offline), events;
      }
      if remote.head == base || !overlay.IsEmpty() {
        return Ok(false), events;
      }
      var snapshot := base;
      base := remote.head;
      var save := SaveSnapshot();
      if !save.Done? {
        base := snapshot;
      }
      ghost var start := world;
      events := Advance(Refresh(save), start, events);
      return if save.Done? then Ok(true) else Err(Offline), events;
    }

    /** `persist`: what is in memory is saved, journal and all, even while a publication is pending. */
    method PersistNow() returns (saved: bool, ghost events: seq<Event>)
      requires Valid()
      modifies `disk, `failures, `world
      ensures Valid() && Leads(old(world), events, world)
      ensures saved ==> disk == Disk(Some(Current()), Some(Current()))
      ensures !saved ==> disk.primary == old(disk).primary && failures > old(failures)
    {
      LeadsNowhere(world);
      hide Invariant, Leads;
      var save := SaveSnapshot();
      ghost var start := world;
      events := Advance(Persist(save), start, []);
      return save.Done?, events;
    }

    /** The remote answers, refuses, or fails with the publication landed or not. */
    method Publish(request: Request) returns (answer: Answer, ghost landed: Option<RevisionId>)
      requires remote.head in remote.revisions
      modifies `remote, `failures, `requests
      ensures requests == old(requests) + 1
      ensures failures == old(failures) + if answer.Thrown? then 1 else 0
      ensures answer.Success? ==> landed == Some(answer.revision)
      ensures answer.Rejection? ==> landed.None?
      ensures landed.None? ==> remote == old(remote)
      ensures landed.Some? ==>
        && old(remote).head == request.expected
        && landed.value !in old(remote).revisions && landed.value !in old(remote).past
        && TreeShaped(Publication(old(remote), Current(), request))
        && remote == Land(old(remote), landed.value, Publication(old(remote), Current(), request))
    {
      var revision: RevisionId := *;
      var answered: bool := *;
      var refused: bool := *;
      var files := Publication(remote, Current(), request);
      landed := None;
      requests := requests + 1;
      if || refused || remote.head != request.expected || !TreeShaped(files)
         || revision in remote.revisions || revision in remote.past
      {
        var thrown: bool := *;
        failures := failures + if thrown then 1 else 0;
        return if thrown then Thrown else Rejection, landed;
      }
      remote := Land(remote, revision, files);
      landed := Some(revision);
      failures := failures + if answered then 0 else 1;
      return if answered then Success(revision) else Thrown, landed;
    }

    /** `mutateCommit` around `CommitService.execute`: journal, request, journal, reconciliation, save. */
    method MutateCommit(request: Request, readable: bool) returns (outcome: CommitOutcome, ghost events: seq<Event>)
      requires Valid()
      requires WholeIsAll(remote, Current(), request)
      modifies this
      ensures Valid() && Leads(old(world), events, world)
      ensures old(pendingCommitPublication) != NoPending <==> outcome.Blocked?
      ensures outcome.Blocked? ==> Current() == old(Current()) && disk == old(disk) && remote == old(remote)
      ensures outcome.Committed? ==> remote.landing == outcome.revision && remote.head == outcome.revision
      ensures outcome.Committed? && pendingCommitPublication.NoPending? ==> base == outcome.revision
      ensures outcome.Committed? && request.whole ==> overlay == EMPTY && pendingCommitPublication.NoPending?
      ensures !outcome.Committed? ==> base == old(base) && overlay == old(overlay)
      ensures outcome.Rejected? ==> pendingCommitPublication.NoPending? && remote == old(remote)
      ensures outcome.NotCommitted? ==> failures > old(failures)
      ensures outcome.Rejected? ==> requests > old(requests)
      ensures outcome.Committed? ==>
        (pendingCommitPublication.NoPending? <==>
           request.whole || (readable && Reconcilable(remote, old(overlay), outcome.revision)))
      ensures outcome.Committed? ==>
        disk == Disk(Some(Current()), Some(Current())) || failures > old(failures)
    {
      events := [];
      LeadsNowhere(world);
      hide Invariant, Leads, Reconcilable;
      if pendingCommitPublication != NoPending {
        return Blocked, events;
      }
      var saved;
      saved, events := BeforePublish(request, world, events);
      if !saved {
        return NotCommitted, events;
      }
      outcome, events := RequestPublication(request, old(world), events);
      if outcome.Committed? {
        events := AfterPublish(request, outcome.revision, old(world), events);
        events := Settle(request, outcome.revision, readable, old(world), events);
      }
    }

    /** The journal is durable before the remote is asked. */
    method BeforePublish(request: Request, ghost start: World, ghost before: seq<Event>)
      returns (saved: bool, ghost events: seq<Event>)
      requires Valid() && Leads(start, before, world)
      requires pendingCommitPublication.NoPending? && WholeIsAll(remote, Current(), request)
      modifies this
      ensures Leads(start, events, world)
      ensures base == old(base) && overlay == old(overlay) && remote == old(remote)
      ensures if saved then At(Requesting(request)) else Valid() && Current() == old(Current())
      ensures requests == old(requests) && failures >= old(failures) && (!saved ==> failures > old(failures))
    {
      hide Invariant, Leads;
      pendingCommitPublication := Prepared(request.expected);
      var save := SaveSnapshot();
      saved := save.Done?;
      if !saved {
        pendingCommitPublication := NoPending;
      }
      events := Advance(Begin(request, save), start, before);
    }

    /** A request that throws leaves the journal; a rejected one clears it. */
    method RequestPublication(request: Request, ghost start: World, ghost before: seq<Event>)
      returns (outcome: CommitOutcome, ghost events: seq<Event>)
      requires At(Requesting(request)) && Leads(start, before, world)
      modifies this
      ensures Leads(start, events, world) && !outcome.Blocked?
      ensures base == old(base) && overlay == old(overlay)
      ensures outcome.Committed? ==> At(Answered(request, outcome.revision))
      ensures outcome.Committed? ==> remote.landing == outcome.revision && remote.head == outcome.revision
      ensures !outcome.Committed? ==> Valid()
      ensures outcome.Rejected? ==> pendingCommitPublication.NoPending? && remote == old(remote)
      ensures requests == old(requests) + 1 && failures >= old(failures)
      ensures outcome.NotCommitted? ==> failures > old(failures)
    {
      InvariantFacts(world);
      hide Invariant, Leads, Publication, WholeIsAll;
      var answer, landed := Publish(request);
      if answer.Thrown? {
        events := Advance(if landed.Some? then Lands(landed.value, false) else Throws, start, before);
        return NotCommitted, events;
      }
      if answer.Rejection? {
        var saved;
        saved, events := Withdraw(request, start, before);
        return if saved then Rejected else NotCommitted, events;
      }
      events := Advance(Lands(answer.revision, true), start, before);
      return Committed(answer.revision), events;
    }

    /** A rejected publication is over, in memory whatever the save does. */
    method Withdraw(request: Request, ghost start: World, ghost before: seq<Event>)
      returns (saved: bool, ghost events: seq<Event>)
      requires At(Requesting(request)) && Leads(start, before, world)
      modifies this
      ensures Valid() && Leads(start, events, world) && pendingCommitPublication.NoPending?
      ensures base == old(base) && overlay == old(overlay) && remote == old(remote) && requests == old(requests)
      ensures failures >= old(failures) && (!saved ==> failures > old(failures))
    {
      hide Invariant, Leads, WholeIsAll;
      pendingCommitPublication := NoPending;
      var save := SaveSnapshot();
      events := Advance(Rejects(save), start, before);
      return save.Done?, events;
    }

    /** The exact revision is recorded; failing to save it is ignored. */
    method AfterPublish(request: Request, revision: RevisionId, ghost start: World, ghost before: seq<Event>)
      returns (ghost events: seq<Event>)
      requires At(Answered(request, revision)) && Leads(start, before, world)
      modifies this
      ensures At(Recorded(request, revision)) && Leads(start, events, world)
      ensures base == old(base) && overlay == old(overlay) && remote == old(remote)
      ensures requests == old(requests) && failures >= old(failures)
      ensures disk == Disk(Some(Current()), Some(Current())) || failures > old(failures)
    {
      hide Invariant, Leads;
      pendingCommitPublication := PublishedAs(request.expected, revision);
      var save := SaveSnapshot();
      events := Advance(Record(save), start, before);
    }

    method Settle(request: Request, revision: RevisionId, readable: bool, ghost start: World, ghost before: seq<Event>)
      returns (ghost events: seq<Event>)
      requires At(Recorded(request, revision)) && Leads(start, before, world)
      modifies this
      ensures Valid() && Leads(start, events, world) && remote == old(remote)
      ensures pendingCommitPublication.NoPending? ==> base == revision
      ensures request.whole ==> overlay == EMPTY && pendingCommitPublication.NoPending?
      ensures pendingCommitPublication.NoPending? <==>
        request.whole || (readable && Reconcilable(remote, old(overlay), revision))
      ensures requests == old(requests) && failures >= old(failures)
      ensures disk == Disk(Some(Current()), Some(Current())) || failures > old(failures)
    {
      InvariantFacts(world);
      SettlesIff(world, readable);
      hide Invariant, Leads, Reconcilable, ReconciledImage;
      AdvanceTree(request, revision, readable);
      var save := SaveSnapshot();
      events := Advance(Reconcile(readable, save), start, before);
    }

    lemma SettlesIff(w: World, readable: bool)
      requires Invariant(w) && w.session.Open? && w.session.phase.Recorded?
      ensures var phase := w.session.phase;
        ReconciledImage(w.remote, w.session.image, phase, readable).pending.NoPending? <==>
          phase.request.whole || (readable && Reconcilable(w.remote, w.session.image.overlay, phase.revision))
    {
      ReconciliationClearsIff(w.remote, w.session.image, w.session.phase, readable);
    }

    /** The tree moves to the published revision; the journal is cleared only once it has. */
    method AdvanceTree(request: Request, revision: RevisionId, readable: bool)
      modifies `base, `overlay, `pendingCommitPublication
      ensures Current() == ReconciledImage(remote, old(Current()), Recorded(request, revision), readable)
    {
      if request.whole {
        base, overlay, pendingCommitPublication := revision, EMPTY, NoPending;
        return;
      }
      var accepted := AcceptPublished(revision, readable);
    }

    method AcceptPublished(revision: RevisionId, readable: bool) returns (accepted: bool)
      modifies `base, `overlay, `pendingCommitPublication
      ensures accepted <==> readable && Accepted(remote, old(Current()), revision).Ok?
      ensures Current() == if accepted then Accepted(remote, old(Current()), revision).value else old(Current())
      ensures accepted ==> base == revision && pendingCommitPublication.NoPending?
    {
      var tree := new WorkingTree(base, FilesOf(remote, base), overlay);
      if !readable {
        return false;
      }
      var rebased := tree.AcceptPartiallyPublishedRevision(revision, FilesOf(remote, revision));
      if rebased.Err? {
        return false;
      }
      base, overlay, pendingCommitPublication := tree.baseRevision, tree.overlay.Snapshot(), NoPending;
      return true;
    }

    /** `open`: what is stored becomes the session and its journal is recovered; or else the head is checked out. */
    method Open(readable: bool) returns (available: bool, ghost events: seq<Event>)
      requires Invariant(world) && world.session.Closed? && world.disk == disk && world.remote == remote
      modifies this
      ensures Leads(old(world), events, world) && remote == old(remote)
      ensures available ==> Valid()
      ensures !available <==> old(disk).Loaded().None? && !readable
      ensures available && old(disk).Loaded().None? ==>
        Current() == Image(remote.head, EMPTY, NoPending) && disk == old(disk)
      ensures available && old(disk).primary.Some? ==> Known(old(world), Shown(remote, Current()))
      ensures available && old(disk).Loaded().Some? ==>
        Shown(remote, Current()) == Shown(remote, old(disk).Loaded().value)
      ensures available && !pendingCommitPublication.NoPending? ==>
        Some(Current()) == old(disk).Loaded() && disk == old(disk)
      ensures available && old(disk).Loaded().Some? ==>
        var stored := old(disk).Loaded().value;
        && (pendingCommitPublication.NoPending? <==> Provable(remote, stored, readable))
        && (stored.pending.PublishedAs? && pendingCommitPublication.NoPending? ==>
              base == stored.pending.revision)
        && (Current() == stored || disk == Disk(Some(Current()), Some(Current())) || failures > old(failures))
    {
      events := [];
      LeadsNowhere(world);
      ghost var was := world;
      StoredIsRecovered(was, readable);
      hide Invariant, Leads, Shown, Provable, RecoveredImage, Reconcilable;
      var stored := disk.Loaded();
      if stored.None? {
        if !readable {
          return false, events;
        }
        base, overlay, pendingCommitPublication := remote.head, EMPTY, NoPending;
        events := Advance(Reopen(true, Done), was, events);
        return true, events;
      }
      events := Resume(stored.value, readable);
      return true, events;
    }

    /** The stored snapshot becomes the session; what its recovery changes is saved, at best effort. */
    method Resume(stored: Image, readable: bool) returns (ghost events: seq<Event>)
      requires Invariant(world) && world.session.Closed? && world.disk == disk && world.remote == remote
      requires disk.Loaded() == Some(stored)
      modifies this
      ensures Valid() && Leads(old(world), events, world) && remote == old(remote)
      ensures Current() == RecoveredImage(remote, stored, readable)
      ensures Current() == stored ==> disk == old(disk)
      ensures Current() == stored || disk == Disk(Some(Current()), Some(Current())) || failures > old(failures)
    {
      LeadsNowhere(world);
      hide Invariant, Leads, Shown, RecoveredImage;
      base, overlay, pendingCommitPublication := stored.base, stored.overlay, stored.pending;
      var resolved := RecoverPendingCommitPublication(readable);
      var save := Done;
      if resolved {
        save := SaveSnapshot();
      }
      events := Advance(Reopen(readable, save), world, []);
    }

    lemma StoredIsRecovered(w: World, readable: bool)
      requires Invariant(w)
      ensures w.disk.Loaded().Some? ==>
        var stored := w.disk.Loaded().value;
        var image := RecoveredImage(w.remote, stored, readable);
        && Shown(w.remote, image) == Shown(w.remote, stored)
        && (image == stored || image.pending.NoPending?)
        && (w.disk.primary.Some? ==> Known(w, Shown(w.remote, image)))
        && (image.pending.NoPending? <==> Provable(w.remote, stored, readable))
        && (stored.pending.PublishedAs? && image.pending.NoPending? ==> image.base == stored.pending.revision)
    {
      if w.disk.Loaded().Some? {
        RecoveryClearsIff(w.remote, w.disk.Loaded().value, readable);
        RecoveredIsTruthful(w.remote, w.disk.Loaded().value, readable);
      }
    }

    /** Reports whether the journal was cleared, in which case a save follows. */
    method RecoverPendingCommitPublication(readable: bool) returns (resolved: bool)
      modifies `base, `overlay, `pendingCommitPublication
      ensures Current() == RecoveredImage(remote, old(Current()), readable)
      ensures resolved <==> Current() != old(Current())
    {
      match pendingCommitPublication
      case NoPending => return false;
      case Prepared(expected) =>
        if !readable || remote.head != expected {
          return false;
        }
        pendingCommitPublication := NoPending;
        return true;
      case PublishedAs(_, revision) =>
        resolved := AcceptPublished(revision, readable);
    }

    /** What the caller of a resolution vouches for: that nothing landed, or what did. */
    ghost predicate Established(resolution: Resolution)
      reads this
    {
      match resolution
      case NotPublished => pendingCommitPublication.Prepared? ==> base in remote.since
      case PublishedRevision(revision) =>
        && (!pendingCommitPublication.NoPending? ==> base !in remote.since)
        && (pendingCommitPublication.Prepared? ==> revision == remote.landing)
    }

    /**
     `resolvePendingCommitPublication`. The program takes the caller's word for the outcome; the state stays
     truthful exactly as far as that word is.
     */
    method Resolve(resolution: Resolution, readable: bool) returns (r: Result<()>, ghost events: seq<Event>)
      requires Valid()
      modifies this
      ensures remote == old(remote)
      ensures old(Established(resolution)) ==> Valid() && Leads(old(world), events, world)
      ensures old(Established(resolution)) && r.Ok? ==> base in remote.since
      ensures r.Ok? ==> pendingCommitPublication.NoPending?
      ensures r.Ok? && old(pendingCommitPublication) != NoPending ==> disk == Disk(Some(Current()), Some(Current()))
      ensures r.Ok? && resolution.NotPublished? ==> base == old(base) && overlay == old(overlay)
      ensures r.Ok? && resolution.PublishedRevision? && old(pendingCommitPublication) != NoPending ==>
        Ok(Current()) == Accepted(remote, old(Current()), resolution.revision)
      ensures r.Err? ==> Current() == old(Current()) && disk.primary == old(disk).primary
      ensures r.Err? && r.code != Offline ==> old(pendingCommitPublication).PublishedAs? && disk == old(disk)
      ensures r.Err? && r.code == Offline ==>
        || failures > old(failures)
        || (resolution.PublishedRevision?
            && (!readable || Accepted(remote, old(Current()), resolution.revision).Err?))
      ensures old(pendingCommitPublication).PublishedAs? ==>
        (resolution.NotPublished? || resolution.revision != old(pendingCommitPublication).revision ==> r.Err?)
    {
      hide Leads, Accepted, Shown, ReconciledImage, RecoveredImage;
      events := [];
      assert Leads(world, [], world) by {
        LeadsNowhere(world);
      }
      SettledIsTruthful(world);
      hide Invariant;
      var pending := pendingCommitPublication;
      if pending.NoPending? {
        return Ok(()), events;
      }
      if pending.PublishedAs? && (resolution.NotPublished? || pending.revision != resolution.revision) {
        return Err(InvalidRequest), events;
      }
      ghost var established := Established(resolution);
      var snapshot := overlay;
      var snapshotBase := base;
      if resolution.NotPublished? {
        pendingCommitPublication := NoPending;
      } else {
        var accepted := AcceptPublished(resolution.revision, readable);
        if !accepted {
          return Err(Offline), events;
        }
      }
      var save := SaveSnapshot();
      if !save.Done? {
        base, overlay, pendingCommitPublication := snapshotBase, snapshot, pending;
      }
      if established {
        events := Advance(Resolving(resolution, readable, save), world, events);
      }
      return if save.Done? then Ok(()) else Err(Offline), events;
    }

    ghost function Resolving(resolution: Resolution, readable: bool, save: Save): Event {
      match resolution
      case NotPublished => ResolveNotPublished(save)
      case PublishedRevision(revision) => ResolvePublished(revision, readable, save)
    }

    lemma SettledIsTruthful(w: World)
      requires Invariant(w) && w.session.Open? && w.session.phase.Idle?
      ensures w.session.image.pending.PublishedAs? ==>
        w.session.image.pending.revision == w.remote.landing && w.session.image.base !in w.remote.since
      ensures w.session.image.pending.NoPending? ==> w.session.image.base in w.remote.since
      ensures w.remote.landing in w.remote.since
    {
    }
  }
}
