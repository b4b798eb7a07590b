/**
 The publication journal as a state machine: one workspace branch, its two pointers on disk, a remote
 that compares and swaps the branch head, saves that fail or get half way, ambiguous publications,
 other clients, and a crash between any two steps.
 */
module Journal {
  import opened Wrappers
  import opened Paths
  import opened Repository
  import opened Overlays
  import opened TreeView
  import opened ChangeSets
  import opened Rebases

  datatype Pending =
    | NoPending
    | Prepared(expected: RevisionId)
    | PublishedAs(expected: RevisionId, revision: RevisionId)

  /** What one snapshot holds of the branch: pinned base, overlay, journal. */
  datatype Image = Image(base: RevisionId, overlay: OverlaySnapshot, pending: Pending)

  /** A commit request; `chosen` are the paths whose changes it carries. */
  datatype Request = Request(expected: RevisionId, chosen: set<Path>, whole: bool)

  datatype Phase =
    | Idle
    | Requesting(request: Request)
    | Answered(request: Request, revision: RevisionId)
    | Recorded(request: Request, revision: RevisionId)

  datatype Session = Closed | Open(image: Image, phase: Phase)

  datatype Remote = Remote(
    revisions: map<RevisionId, Files>,
    head: RevisionId,
    past: set<RevisionId>,       // every revision the head has left
    landing: RevisionId,         // the newest revision this workspace has put on the branch, or the first head
    since: set<RevisionId>)      // the landing and every later head

  /** What the two pointers name; the backup is asked only when the primary pointer does not hold. */
  datatype Disk = Disk(primary: Option<Image>, backup: Option<Image>) {
    function Loaded(): Option<Image> {
      if primary.Some? then primary else backup
    }
  }

  datatype World = World(
    remote: Remote,
    disk: Disk,
    session: Session,
    shown: Files,                // visible files of the last acknowledged operation
    inFlight: Option<Files>,     // visible files of an operation cut short by a crash
    half: Option<Files>)         // visible files of the last save that got half way

  /** How a save ends: before any pointer is replaced, between the two, after both; with an error or by a crash. */
  datatype Save = Done | Failed | HalfDone | CrashBefore | CrashHalf | CrashAfter {
    predicate Lands() {
      Done? || CrashAfter?
    }

    predicate StopsHalfWay() {
      HalfDone? || CrashHalf?
    }

    predicate Crashes() {
      CrashBefore? || CrashHalf? || CrashAfter?
    }
  }

  datatype Event =
    | Edit(overlay: OverlaySnapshot, save: Save)
    | Refresh(save: Save)
    | Persist(save: Save)
    | Begin(request: Request, save: Save)
    | Lands(revision: RevisionId, answered: bool)
    | Throws
    | Rejects(save: Save)
    | Record(save: Save)
    | Reconcile(readable: bool, save: Save)
    | LandsLate(request: Request, revision: RevisionId)
    | OtherClient(revision: RevisionId, files: Files)
    | LosePrimary
    | Crash
    | Reopen(readable: bool, save: Save)
    | ResolveNotPublished(save: Save)
    | ResolvePublished(revision: RevisionId, readable: bool, save: Save)

  function FilesOf(r: Remote, revision: RevisionId): Files {
    if revision in r.revisions then r.revisions[revision] else map[]
  }

  function Shown(r: Remote, image: Image): Files {
    Visible(FilesOf(r, image.base), image.overlay)
  }

  /** The files that landing a request makes a revision of. */
  function Publication(r: Remote, image: Image, request: Request): Files {
    Published(FilesOf(r, image.base), image.overlay, request.chosen)
  }

  // ---------------------------------------------------------------- steps

  /** The branch head moves to a revision. */
  function Move(r: Remote, revision: RevisionId, files: Files): Remote {
    r.(revisions := r.revisions[revision := files], head := revision, past := r.past + {r.head},
       since := r.since + {revision})
  }

  /** The head moves to a revision that this workspace published. */
  function Land(r: Remote, revision: RevisionId, files: Files): Remote {
    Move(r, revision, files).(landing := revision, since := {revision})
  }

  function SavedDisk(d: Disk, image: Image, save: Save): Disk {
    if save.Lands() then Disk(Some(image), Some(image))
    else if save.StopsHalfWay() then d.(backup := Some(image))
    else d
  }

  /** A crash ends the session. */
  function Saved(w: World, image: Image, save: Save): World {
    w.(disk := SavedDisk(w.disk, image, save),
       session := if save.Crashes() then Closed else w.session,
       half := if save.Lands() then None else if save.StopsHalfWay() then Some(Shown(w.remote, image)) else w.half)
  }

  function Continue(w: World, image: Image, phase: Phase): World {
    if w.session.Closed? then w else w.(session := Open(image, phase))
  }

  /** `acceptPartiallyPublishedRevision`, when the revision can be read. */
  ghost function Accepted(r: Remote, image: Image, revision: RevisionId): Result<Image> {
    match TryRebase(FilesOf(r, revision), image.overlay)
    case Ok(overlay) => Ok(Image(revision, overlay, NoPending))
    case Err(code) => Err(code)
  }

  predicate Rests(w: World) {
    w.session.Open? && w.session.phase.Idle?
  }

  predicate Edits(w: World) {
    Rests(w) && w.session.image.pending.NoPending?
  }

  /** The image with its prepared journal is what memory holds, if anything, and what the pointers name. */
  predicate StillPending(w: World, image: Image) {
    && Names(w.disk, image) && image.pending == Prepared(w.remote.head)
    && (w.session.Open? ==> w.session == Open(image, Idle))
  }

  ghost predicate Enabled(w: World, e: Event) {
    match e
    case Edit(overlay, _) => Edits(w) && Sound(FilesOf(w.remote, w.session.image.base), overlay)
    case Refresh(_) => Edits(w) && w.session.image.overlay.IsEmpty()
    case Persist(_) => Rests(w)
    case Begin(request, _) => Edits(w) && WholeIsAll(w.remote, w.session.image, request)
    case Lands(revision, _) =>
      && w.session.Open? && w.session.phase.Requesting?
      && w.remote.head == w.session.phase.request.expected
      && revision !in w.remote.revisions && revision !in w.remote.past
      && TreeShaped(Publication(w.remote, w.session.image, w.session.phase.request))
    case Throws => w.session.Open? && w.session.phase.Requesting?
    case Rejects(_) => w.session.Open? && w.session.phase.Requesting?
    case Record(_) => w.session.Open? && w.session.phase.Answered?
    case Reconcile(_, _) => w.session.Open? && w.session.phase.Recorded?
    case LandsLate(request, revision) =>
      // sent before a crash or an answer that got lost, and on its way until now
      && w.disk.backup.Some? && StillPending(w, w.disk.backup.value)
      && w.remote.head == request.expected && WholeIsAll(w.remote, w.disk.backup.value, request)
      && revision !in w.remote.revisions && revision !in w.remote.past
      && TreeShaped(Publication(w.remote, w.disk.backup.value, request))
    case OtherClient(revision, files) =>
      // the head never returns to a revision it has left, and a revision never changes its files
      && revision != w.remote.head && revision !in w.remote.past && TreeShaped(files)
      && (revision in w.remote.revisions ==> w.remote.revisions[revision] == files)
    case LosePrimary => true
    case Crash => true
    case Reopen(_, _) => w.session.Closed?
    case ResolveNotPublished(_) =>
      // allowed once it is established that the request did not land
      Rests(w) && w.session.image.pending.Prepared? && w.session.image.base in w.remote.since
    case ResolvePublished(revision, _, _) =>
      // allowed once the published revision is established
      && Rests(w) && !w.session.image.pending.NoPending?
      && w.session.image.base !in w.remote.since && revision == w.remote.landing
  }

  ghost function Next(w: World, e: Event): World
    requires Enabled(w, e)
  {
    match e
    case Edit(overlay, save) => NextEdit(w, w.session.image.(overlay := overlay), save)
    case Refresh(save) => NextEdit(w, w.session.image.(base := w.remote.head), save)
    case Persist(save) => Saved(w, w.session.image, save)
    case Begin(request, save) =>
      var prepared := w.session.image.(pending := Prepared(request.expected));
      var w' := Saved(w, prepared, save);
      if save.Done? then Continue(w', prepared, Requesting(request)) else w'
    case Lands(revision, answered) =>
      var request, image := w.session.phase.request, w.session.image;
      var w' := w.(remote := Land(w.remote, revision, Publication(w.remote, image, request)));
      Continue(w', image, if answered then Answered(request, revision) else Idle)
    case Throws => Continue(w, w.session.image, Idle)
    case Rejects(save) =>
      var image := w.session.image.(pending := NoPending);
      Continue(Saved(w, image, save), image, Idle)
    case Record(save) =>
      var phase := w.session.phase;
      var image := w.session.image.(pending := PublishedAs(phase.request.expected, phase.revision));
      Continue(Saved(w, image, save), image, Recorded(phase.request, phase.revision))
    case Reconcile(readable, save) =>
      var phase := w.session.phase;
      var image := ReconciledImage(w.remote, w.session.image, phase, readable);
      Continue(Saved(w, image, save), image, Idle)
    case LandsLate(request, revision) =>
      w.(remote := Land(w.remote, revision, Publication(w.remote, w.disk.backup.value, request)))
    case OtherClient(revision, files) => w.(remote := Move(w.remote, revision, files))
    case LosePrimary => w.(disk := w.disk.(primary := None))
    case Crash => w.(session := Closed)
    case Reopen(readable, save) => NextReopen(w, readable, save)
    case ResolveNotPublished(save) => NextResolve(w, w.session.image.(pending := NoPending), save)
    case ResolvePublished(revision, readable, save) =>
      var accepted := Accepted(w.remote, w.session.image, revision);
      if !readable || accepted.Err? then w else NextResolve(w, accepted.value, save)
  }

  /** A local mutation is acknowledged when its save is done; a failed save rolls it back. */
  function NextEdit(w: World, image: Image, save: Save): World
    requires w.session.Open?
  {
    var w' := Saved(w, image, save);
    if save.Done? then Continue(w', image, Idle).(shown := Shown(w.remote, image))
    else if save.Crashes() then Interrupted(w', image)
    else w'
  }

  function NextResolve(w: World, image: Image, save: Save): World {
    var w' := Saved(w, image, save);
    if save.Done? then Continue(w', image, Idle) else w'
  }

  /** `open`: what loads is recovered; with nothing stored, the head is checked out and nothing is saved. */
  ghost function NextReopen(w: World, readable: bool, save: Save): World {
    match w.disk.Loaded()
    case None => if readable then Reopened(w, Image(w.remote.head, EMPTY, NoPending)) else w
    case Some(stored) =>
      var image := RecoveredImage(w.remote, stored, readable);
      if image == stored then Reopened(w, image)
      else if save.Crashes() then Interrupted(Saved(w, image, save), image)
      else Reopened(Saved(w, image, save), image)
  }

  function Interrupted(w: World, image: Image): World {
    w.(inFlight := Some(Shown(w.remote, image)))
  }

  function Reopened(w: World, image: Image): World {
    w.(session := Open(image, Idle), shown := Shown(w.remote, image), inFlight := None)
  }

  /** A whole publication clears the overlay; a part of it is rebased, unless the new revision cannot be read. */
  ghost function ReconciledImage(r: Remote, image: Image, phase: Phase, readable: bool): Image
    requires phase.Recorded?
  {
    if phase.request.whole then Image(phase.revision, EMPTY, NoPending)
    else
      var accepted := Accepted(r, image, phase.revision);
      if readable && accepted.Ok? then accepted.value else image
  }

  /** `recoverPendingCommitPublication`; `readable` says whether the remote could be asked. */
  ghost function RecoveredImage(r: Remote, stored: Image, readable: bool): Image {
    match stored.pending
    case NoPending => stored
    case Prepared(expected) => if readable && r.head == expected then stored.(pending := NoPending) else stored
    case PublishedAs(_, revision) =>
      var accepted := Accepted(r, stored, revision);
      if readable && accepted.Ok? then accepted.value else stored
  }

  // ---------------------------------------------------------------- the invariant

  /** The base has been a head of the branch, and the overlay is what edits can make of it. */
  ghost predicate Consistent(r: Remote, image: Image) {
    && image.base in r.past + {r.head} && image.base in r.revisions
    && Sound(FilesOf(r, image.base), image.overlay)
  }

  /** The newest published revision is the image's base with some of the image's changes. */
  ghost predicate HasLanded(r: Remote, image: Image, chosen: set<Path>) {
    && image.base !in r.since
    && FilesOf(r, r.landing) == Published(FilesOf(r, image.base), image.overlay, chosen)
  }

  /** The journal of an image tells the truth about what has landed. */
  ghost predicate Truthful(r: Remote, image: Image) {
    match image.pending
    case NoPending => image.base in r.since
    case Prepared(expected) =>
      image.base in r.since || (expected in r.past && exists chosen :: HasLanded(r, image, chosen))
    case PublishedAs(expected, revision) =>
      revision == r.landing && expected in r.past && exists chosen :: HasLanded(r, image, chosen)
  }

  ghost predicate ImageOk(r: Remote, image: Image) {
    Consistent(r, image) && Truthful(r, image)
  }

  /** Both pointers, as far as they hold, name the image. */
  predicate Names(d: Disk, image: Image) {
    d.backup == Some(image) && (d.primary.Some? ==> d.primary == Some(image))
  }

  ghost predicate PhaseOk(w: World, image: Image, phase: Phase) {
    match phase
    case Idle => Truthful(w.remote, image)
    case Requesting(request) =>
      && Names(w.disk, image) && image.pending == Prepared(request.expected) && image.base in w.remote.since
      && WholeIsAll(w.remote, image, request)
    case Answered(request, revision) =>
      && Names(w.disk, image) && image.pending == Prepared(request.expected)
      && Landed(w.remote, image, request, revision)
    case Recorded(request, revision) =>
      && image.pending == PublishedAs(request.expected, revision) && Landed(w.remote, image, request, revision)
  }

  ghost predicate Landed(r: Remote, image: Image, request: Request, revision: RevisionId) {
    && request.expected in r.past && revision == r.landing && HasLanded(r, image, request.chosen)
    && WholeIsAll(r, image, request)
  }

  predicate WholeIsAll(r: Remote, image: Image, request: Request) {
    request.whole ==> request.chosen == AllChanges(FilesOf(r, image.base), image.overlay).Keys
  }

  ghost predicate RemoteOk(r: Remote) {
    && r.head in r.revisions && r.head !in r.past && r.past <= r.revisions.Keys
    && r.head in r.since && r.landing in r.since && r.since <= r.past + {r.head}
    && (forall id | id in r.revisions :: TreeShaped(r.revisions[id]))
  }

  predicate Known(w: World, files: Files) {
    files == w.shown || w.inFlight == Some(files)
  }

  /** The pointers name truthful images that show what was acknowledged, cut short, or saved half way. */
  ghost predicate DiskOk(w: World) {
    && (w.disk.primary.Some? ==>
          && ImageOk(w.remote, w.disk.primary.value) && Known(w, Shown(w.remote, w.disk.primary.value))
          && w.disk.backup.Some?
          && (w.disk.backup == w.disk.primary || w.half == Some(Shown(w.remote, w.disk.backup.value))))
    && (w.disk.backup.Some? ==>
          && ImageOk(w.remote, w.disk.backup.value)
          && (Known(w, Shown(w.remote, w.disk.backup.value)) || w.half == Some(Shown(w.remote, w.disk.backup.value))))
  }

  ghost predicate SessionOk(w: World) {
    w.session.Open? ==>
      && w.inFlight.None? && Consistent(w.remote, w.session.image) && PhaseOk(w, w.session.image, w.session.phase)
      && Shown(w.remote, w.session.image) == w.shown
  }

  ghost predicate Invariant(w: World) {
    RemoteOk(w.remote) && DiskOk(w) && SessionOk(w)
  }

  // ---------------------------------------------------------------- every step keeps it

  /** Accepting the newest landing changes the base and nothing that is visible. */
  lemma AcceptedShowsTheSame(r: Remote, image: Image, chosen: set<Path>)
    requires RemoteOk(r) && Consistent(r, image) && HasLanded(r, image, chosen)
    requires Accepted(r, image, r.landing).Ok?
    ensures var image' := Accepted(r, image, r.landing).value;
      ImageOk(r, image') && Shown(r, image') == Shown(r, image)
  {
    RebaseShowsTheSame(FilesOf(r, image.base), image.overlay, chosen);
    RebaseIsSound(FilesOf(r, image.base), image.overlay, chosen);
  }

  lemma ClearedShowsTheSame(r: Remote, image: Image, request: Request)
    requires RemoteOk(r) && Consistent(r, image) && HasLanded(r, image, request.chosen)
    requires request.whole && WholeIsAll(r, image, request)
    ensures var image' := Image(r.landing, EMPTY, NoPending);
      ImageOk(r, image') && Shown(r, image') == Shown(r, image)
  {
    var base := FilesOf(r, image.base);
    PublishAll(base, image.overlay);
    VisibleIs(Visible(base, image.overlay), EMPTY, Visible(base, image.overlay));
  }

  /** Whatever becomes of a save, the disk is in order when what it saves is truthful and known. */
  lemma SavedDiskOk(w: World, image: Image, save: Save, w': World)
    requires RemoteOk(w.remote) && DiskOk(w) && ImageOk(w.remote, image)
    requires w'.remote == w.remote && w'.disk == Saved(w, image, save).disk && w'.half == Saved(w, image, save).half
    requires if save.Lands() then Known(w', Shown(w.remote, image)) else w'.shown == w.shown
    requires !save.Lands() ==> w.inFlight.None? || w'.inFlight == w.inFlight
    ensures DiskOk(w')
  {
    hide ImageOk, Shown;
  }

  /** Replacing the snapshot by an image that shows the same files, and going on with that image. */
  lemma ContinueKeeps(w: World, image: Image, save: Save, phase: Phase)
    requires Invariant(w) && w.session.Open?
    requires ImageOk(w.remote, image) && Shown(w.remote, image) == w.shown
    requires !save.Crashes() ==> PhaseOk(Saved(w, image, save), image, phase)
    ensures Invariant(Continue(Saved(w, image, save), image, phase))
  {
    hide DiskOk, Truthful, Shown, HasLanded;
    SavedDiskOk(w, image, save, Saved(w, image, save));
    DiskOfContinued(Saved(w, image, save), image, phase);
  }

  lemma DiskOfContinued(w: World, image: Image, phase: Phase)
    requires DiskOk(w)
    ensures DiskOk(Continue(w, image, phase))
  {
    hide ImageOk, Shown;
  }

  /** A save that is not done, of an image that shows the same files, leaves the session as it was or ends it. */
  lemma UnsavedKeeps(w: World, image: Image, save: Save)
    requires Invariant(w) && Rests(w) && !save.Done?
    requires ImageOk(w.remote, image) && Shown(w.remote, image) == w.shown
    ensures Invariant(Saved(w, image, save))
  {
    hide DiskOk, Truthful, Shown, Consistent;
    SavedDiskOk(w, image, save, Saved(w, image, save));
  }

  lemma EditKeeps(w: World, image: Image, save: Save)
    requires Invariant(w) && Edits(w) && ImageOk(w.remote, image) && image.pending.NoPending?
    ensures Invariant(NextEdit(w, image, save))
  {
    hide DiskOk, Shown, Consistent;
    SavedDiskOk(w, image, save, NextEdit(w, image, save));
  }

  /** A clean tree fits any revision, and its base is then the newest head. */
  lemma RefreshedIsOk(r: Remote, image: Image)
    requires RemoteOk(r) && image.overlay.IsEmpty() && image.pending.NoPending?
    ensures ImageOk(r, image.(base := r.head))
  {
  }

  lemma BeginKeeps(w: World, request: Request, save: Save)
    requires Invariant(w) && Enabled(w, Begin(request, save))
    ensures Invariant(Next(w, Begin(request, save)))
  {
    var image := w.session.image.(pending := Prepared(request.expected));
    if save.Done? {
      ContinueKeeps(w, image, save, Requesting(request));
    } else {
      UnsavedKeeps(w, image, save);
    }
  }

  lemma RecordKeeps(w: World, save: Save)
    requires Invariant(w) && Enabled(w, Record(save))
    ensures Invariant(Next(w, Record(save)))
  {
    var phase := w.session.phase;
    var image := w.session.image.(pending := PublishedAs(phase.request.expected, phase.revision));
    assert HasLanded(w.remote, image, phase.request.chosen);
    ContinueKeeps(w, image, save, Recorded(phase.request, phase.revision));
  }

  /** The remote moves on; what the images say stays true, and they show the same files. */
  lemma MovedKeepsImage(r: Remote, r': Remote, image: Image)
    requires RemoteOk(r) && ImageOk(r, image)
    requires r'.landing == r.landing && r.past <= r'.past && r.since <= r'.since && r.head in r'.past + {r'.head}
    requires r'.since - r.since !! r.past + {r.head}
    requires forall id | id in r.revisions :: id in r'.revisions && FilesOf(r', id) == FilesOf(r, id)
    ensures ImageOk(r', image) && Shown(r', image) == Shown(r, image)
  {
    if image.base !in r.since {
      var chosen :| HasLanded(r, image, chosen);
      assert HasLanded(r', image, chosen);
    }
  }

  lemma OtherClientKeeps(w: World, revision: RevisionId, files: Files)
    requires Invariant(w) && Enabled(w, OtherClient(revision, files))
    ensures Invariant(Next(w, OtherClient(revision, files)))
  {
    var r' := Move(w.remote, revision, files);
    hide Consistent, Truthful, Shown, HasLanded;
    if w.disk.primary.Some? {
      MovedKeepsImage(w.remote, r', w.disk.primary.value);
    }
    if w.disk.backup.Some? {
      MovedKeepsImage(w.remote, r', w.disk.backup.value);
    }
    if w.session.Open? {
      OtherClientKeepsSession(w, revision, files);
    }
  }

  lemma OtherClientKeepsSession(w: World, revision: RevisionId, files: Files)
    requires Invariant(w) && Enabled(w, OtherClient(revision, files)) && w.session.Open?
    ensures SessionOk(Next(w, OtherClient(revision, files)))
  {
    var r' := Move(w.remote, revision, files);
    PhaseIsTruthful(w);
    MovedKeepsImage(w.remote, r', w.session.image);
  }

  lemma PhaseIsTruthful(w: World)
    requires SessionOk(w) && w.session.Open?
    ensures ImageOk(w.remote, w.session.image)
  {
  }

  lemma LandsKeeps(w: World, revision: RevisionId, answered: bool)
    requires Invariant(w) && Enabled(w, Lands(revision, answered))
    ensures Invariant(Next(w, Lands(revision, answered)))
  {
    var w' := Next(w, Lands(revision, answered));
    var image, request := w.session.image, w.session.phase.request;
    LandedIsOk(w.remote, image, request, revision);
  }

  /** The image of a request that lands: still consistent, its journal true, its files the same. */
  lemma LandedIsOk(r: Remote, image: Image, request: Request, revision: RevisionId)
    requires RemoteOk(r) && Consistent(r, image) && image.pending == Prepared(request.expected)
    requires r.head == request.expected && revision !in r.revisions && WholeIsAll(r, image, request)
    ensures var r' := Land(r, revision, Publication(r, image, request));
      && ImageOk(r', image) && Shown(r', image) == Shown(r, image) && Landed(r', image, request, revision)
  {
    var r' := Land(r, revision, Publication(r, image, request));
    assert FilesOf(r', image.base) == FilesOf(r, image.base);
    assert HasLanded(r', image, request.chosen);
  }

  lemma LandsLateKeeps(w: World, request: Request, revision: RevisionId)
    requires Invariant(w) && Enabled(w, LandsLate(request, revision))
    ensures Invariant(Next(w, LandsLate(request, revision)))
  {
    LandedIsOk(w.remote, w.disk.backup.value, request, revision);
    hide ImageOk, Shown, WholeIsAll, Publication, Landed;
  }

  lemma ReconcileKeeps(w: World, readable: bool, save: Save)
    requires Invariant(w) && Enabled(w, Reconcile(readable, save))
    ensures Invariant(Next(w, Reconcile(readable, save)))
  {
    var phase, image := w.session.phase, w.session.image;
    var image' := ReconciledImage(w.remote, image, phase, readable);
    PhaseIsTruthful(w);
    if phase.request.whole {
      ClearedShowsTheSame(w.remote, image, phase.request);
    } else if image' != image {
      AcceptedShowsTheSame(w.remote, image, phase.request.chosen);
    }
    ContinueKeeps(w, image', save, Idle);
  }

  /** Recovery shows what the stored snapshot shows, and leaves it alone unless the outcome is proven. */
  lemma RecoveredIsTruthful(r: Remote, stored: Image, readable: bool)
    requires RemoteOk(r) && ImageOk(r, stored)
    ensures var image := RecoveredImage(r, stored, readable);
      && ImageOk(r, image) && Shown(r, image) == Shown(r, stored)
      && (image == stored || image.pending.NoPending?)
  {
    match stored.pending
    case NoPending =>
    case Prepared(_) =>
    case PublishedAs(_, _) =>
      if RecoveredImage(r, stored, readable) != stored {
        var chosen :| HasLanded(r, stored, chosen);
        AcceptedShowsTheSame(r, stored, chosen);
      }
  }

  /** Nothing that the rebase onto the revision asks for lies directly below a file of it. */
  ghost predicate Reconcilable(r: Remote, overlay: OverlaySnapshot, revision: RevisionId) {
    forall p | Asked(overlay, p) :: Readable(FilesOf(r, revision), p)
  }

  /** What recovery needs in order to clear the journal of a stored image. */
  ghost predicate Provable(r: Remote, stored: Image, readable: bool) {
    match stored.pending
    case NoPending => true
    case Prepared(expected) => readable && r.head == expected
    case PublishedAs(_, revision) => readable && Reconcilable(r, stored.overlay, revision)
  }

  /**
   Recovery clears the journal exactly when the outcome is proven; a known publication then becomes the
   base. Otherwise the image is what was stored.
   */
  lemma RecoveryClearsIff(r: Remote, stored: Image, readable: bool)
    requires RemoteOk(r) && ImageOk(r, stored)
    ensures var image := RecoveredImage(r, stored, readable);
      && (image.pending.NoPending? <==> Provable(r, stored, readable))
      && (image.pending.NoPending? ==>
            if stored.pending.PublishedAs? then image.base == stored.pending.revision
            else image.base == stored.base && image.overlay == stored.overlay)
      && (!image.pending.NoPending? ==> image == stored)
  {
    if stored.pending.PublishedAs? {
      TryRebaseIff(FilesOf(r, stored.pending.revision), stored.overlay);
    }
  }

  /** Reconciliation after an answered publication moves the base exactly when it was whole or can be accepted. */
  lemma ReconciliationClearsIff(r: Remote, image: Image, phase: Phase, readable: bool)
    requires RemoteOk(r) && phase.Recorded? && Landed(r, image, phase.request, phase.revision)
    requires image.pending.PublishedAs?
    ensures var image' := ReconciledImage(r, image, phase, readable);
      && (image'.pending.NoPending? <==>
            phase.request.whole || (readable && Reconcilable(r, image.overlay, phase.revision)))
      && if image'.pending.NoPending? then image'.base == phase.revision else image' == image
  {
    TryRebaseIff(FilesOf(r, phase.revision), image.overlay);
  }

  lemma ReopenKeeps(w: World, readable: bool, save: Save)
    requires Invariant(w) && Enabled(w, Reopen(readable, save))
    ensures Invariant(NextReopen(w, readable, save))
  {
    match w.disk.Loaded()
    case None => CheckoutIsOk(w.remote);
    case Some(stored) =>
      RecoveredIsTruthful(w.remote, stored, readable);
      ReopenStoredKeeps(w, stored, RecoveredImage(w.remote, stored, readable), save);
  }

  lemma CheckoutIsOk(r: Remote)
    requires RemoteOk(r)
    ensures ImageOk(r, Image(r.head, EMPTY, NoPending))
    ensures Shown(r, Image(r.head, EMPTY, NoPending)) == FilesOf(r, r.head)
  {
    VisibleIs(FilesOf(r, r.head), EMPTY, FilesOf(r, r.head));
  }

  lemma ReopenStoredKeeps(w: World, stored: Image, image: Image, save: Save)
    requires Invariant(w) && w.session.Closed? && w.disk.Loaded() == Some(stored)
    requires ImageOk(w.remote, image) && Shown(w.remote, image) == Shown(w.remote, stored)
    ensures Invariant(Reopened(w, stored))
    ensures Invariant(
      if save.Crashes() then Interrupted(Saved(w, image, save), image) else Reopened(Saved(w, image, save), image))
  {
    hide Consistent, Truthful, Shown;
  }

  lemma ResolveKeeps(w: World, image: Image, save: Save)
    requires Invariant(w) && Rests(w)
    requires ImageOk(w.remote, image) && Shown(w.remote, image) == w.shown
    ensures Invariant(NextResolve(w, image, save))
  {
    if save.Done? {
      ContinueKeeps(w, image, save, Idle);
    } else {
      UnsavedKeeps(w, image, save);
    }
  }

  lemma ResolvePublishedKeeps(w: World, revision: RevisionId, readable: bool, save: Save)
    requires Invariant(w) && Enabled(w, ResolvePublished(revision, readable, save))
    ensures Invariant(Next(w, ResolvePublished(revision, readable, save)))
  {
    var image := w.session.image;
    if readable && Accepted(w.remote, image, revision).Ok? {
      var chosen :| HasLanded(w.remote, image, chosen);
      AcceptedShowsTheSame(w.remote, image, chosen);
      ResolveKeeps(w, Accepted(w.remote, image, revision).value, save);
    }
  }

  lemma PersistKeeps(w: World, save: Save)
    requires Invariant(w) && Rests(w)
    ensures Invariant(Saved(w, w.session.image, save))
  {
    PhaseIsTruthful(w);
    if save.Done? {
      ContinueKeeps(w, w.session.image, save, Idle);
    } else {
      UnsavedKeeps(w, w.session.image, save);
    }
  }

  /** Every step of the machine keeps the invariant. */
  lemma StepKeeps(w: World, e: Event)
    requires Invariant(w) && Enabled(w, e)
    ensures Invariant(Next(w, e))
  {
    match e
    case Edit(overlay, save) => EditKeeps(w, w.session.image.(overlay := overlay), save);
    case Refresh(save) =>
      RefreshedIsOk(w.remote, w.session.image);
      EditKeeps(w, w.session.image.(base := w.remote.head), save);
    case Persist(save) => PersistKeeps(w, save);
    case Begin(request, save) => BeginKeeps(w, request, save);
    case Lands(revision, answered) => LandsKeeps(w, revision, answered);
    case Throws =>
    case Rejects(save) => ContinueKeeps(w, w.session.image.(pending := NoPending), save, Idle);
    case Record(save) => RecordKeeps(w, save);
    case Reconcile(readable, save) => ReconcileKeeps(w, readable, save);
    case LandsLate(request, revision) => LandsLateKeeps(w, request, revision);
    case OtherClient(revision, files) => OtherClientKeeps(w, revision, files);
    case LosePrimary =>
    case Crash =>
    case Reopen(readable, save) => ReopenKeeps(w, readable, save);
    case ResolveNotPublished(save) => ResolveKeeps(w, w.session.image.(pending := NoPending), save);
    case ResolvePublished(revision, readable, save) => ResolvePublishedKeeps(w, revision, readable, save);
  }

  // ---------------------------------------------------------------- whole runs

  /** Nothing has been opened or saved yet. */
  ghost predicate Initial(w: World) {
    && w.remote.head in w.remote.revisions && w.remote.past == {}
    && w.remote.landing == w.remote.head && w.remote.since == {w.remote.head}
    && (forall id | id in w.remote.revisions :: TreeShaped(w.remote.revisions[id]))
    && w.disk == Disk(None, None) && w.session == Closed && w.inFlight.None? && w.half.None?
  }

  ghost predicate Run(worlds: seq<World>, events: seq<Event>) {
    && |worlds| == |events| + 1 && Initial(worlds[0])
    && forall i | 0 <= i < |events| :: Enabled(worlds[i], events[i]) && worlds[i + 1] == Next(worlds[i], events[i])
  }

  lemma {:induction false} RunKeeps(worlds: seq<World>, events: seq<Event>, n: nat)
    requires Run(worlds, events) && n < |worlds|
    ensures Invariant(worlds[n])
  {
    hide Next, Enabled;
    if n > 0 {
      RunKeeps(worlds, events, n - 1);
      StepKeeps(worlds[n - 1], events[n - 1]);
    }
  }

  /** A publication of this workspace lands. */
  predicate IsLanding(e: Event) {
    e.Lands? || e.LandsLate?
  }

  /** A local mutation whose save is done. */
  predicate Acknowledged(e: Event) {
    (e.Edit? || e.Refresh?) && e.save.Done?
  }

  /** The first acknowledged mutation puts a snapshot on disk, and there is one from then on. */
  lemma {:induction false} AcknowledgedIsStored(worlds: seq<World>, events: seq<Event>, i: nat, n: nat)
    requires Run(worlds, events) && i < n < |worlds| && Acknowledged(events[i])
    ensures worlds[n].disk.backup.Some?
  {
    hide Next, Enabled;
    if i < n - 1 {
      AcknowledgedIsStored(worlds, events, i, n - 1);
    }
    BackupStays(worlds[n - 1], events[n - 1]);
  }

  lemma BackupStays(w: World, e: Event)
    requires Enabled(w, e)
    ensures w.disk.backup.Some? || Acknowledged(e) ==> Next(w, e).disk.backup.Some?
  {
  }

  /**
   Crash safety. Reopening shows the files of the last acknowledged operation or those of the operation a
   crash cut short. Two cases escape. While nothing has been acknowledged there may be nothing stored, and
   the current head is checked out. While the primary pointer does not hold, the last save that got half
   way may load. A publication whose outcome is not proven leaves base, overlay and journal alone.
   */
  lemma ReopenShowsLastAcknowledged(worlds: seq<World>, events: seq<Event>, n: nat)
    requires Run(worlds, events) && n < |events| && events[n].Reopen? && worlds[n + 1].session.Open?
    ensures var w, image := worlds[n], worlds[n + 1].session.image;
      match w.disk.Loaded() {
        case None =>
          && image == Image(w.remote.head, EMPTY, NoPending)
          && forall i | 0 <= i < n :: !Acknowledged(events[i])
        case Some(stored) =>
          && Shown(w.remote, image) == Shown(w.remote, stored)
          && (Known(w, Shown(w.remote, image))
              || (w.disk.primary.None? && w.half == Some(Shown(w.remote, image))))
          && (image == stored || image.pending.NoPending?)
      }
  {
    RunKeeps(worlds, events, n);
    var w := worlds[n];
    match w.disk.Loaded()
    case None =>
      forall i | 0 <= i < n ensures !Acknowledged(events[i]) {
        if Acknowledged(events[i]) {
          AcknowledgedIsStored(worlds, events, i, n);
        }
      }
    case Some(stored) =>
      RecoveredIsTruthful(w.remote, stored, events[n].readable);
  }

  /**
   A workspace that comes back with a known publication in its journal has it as base, and can be edited again,
   exactly when the revision can be read and the rebase onto it succeeds.
   */
  lemma ReopenSettlesIff(worlds: seq<World>, events: seq<Event>, n: nat)
    requires Run(worlds, events) && n < |events| && events[n].Reopen? && !events[n].save.Crashes()
    requires worlds[n].disk.Loaded().Some? && worlds[n].disk.Loaded().value.pending.PublishedAs?
    ensures var stored, session := worlds[n].disk.Loaded().value, worlds[n + 1].session;
      && session.Open?
      && (session.image.base == stored.pending.revision && session.image.pending.NoPending? <==>
            events[n].readable && Reconcilable(worlds[n].remote, stored.overlay, stored.pending.revision))
      && (session.image.pending.NoPending? || session.image == stored)
  {
    RunKeeps(worlds, events, n);
    RecoveryClearsIff(worlds[n].remote, worlds[n].disk.Loaded().value, events[n].readable);
  }

  /** A save that got half way is what loads next exactly when the primary pointer did not hold. */
  lemma HalfSaveLoadsIff(w: World, image: Image, save: Save)
    requires save.StopsHalfWay() && w.disk.primary != Some(image)
    ensures Saved(w, image, save).disk.Loaded() == Some(image) <==> w.disk.primary.None?
    ensures w.disk.primary.Some? ==> Saved(w, image, save).disk.Loaded() == w.disk.Loaded()
  {
  }

  /**
   While an outcome is unproven nothing but its resolution changes base, overlay or journal, no request is
   sent, and only the one already sent can land. Saving again may replace the durable journal by the one in memory.
   */
  lemma UnprovenBlocks(worlds: seq<World>, events: seq<Event>, n: nat)
    requires Run(worlds, events) && n < |events|
    requires Rests(worlds[n]) && !worlds[n].session.image.pending.NoPending?
    requires !events[n].ResolveNotPublished? && !events[n].ResolvePublished?
    ensures worlds[n + 1].session == Closed || worlds[n + 1].session == worlds[n].session
    ensures !events[n].LandsLate? ==> worlds[n + 1].remote.landing == worlds[n].remote.landing
    ensures
      || worlds[n + 1].disk == worlds[n].disk
      || (events[n].Persist?
          && worlds[n + 1].disk == SavedDisk(worlds[n].disk, worlds[n].session.image, events[n].save))
      || (events[n].LosePrimary? && worlds[n + 1].disk == Disk(None, worlds[n].disk.backup))
  {
  }

  /** The remote lands or refuses a request, or its answer is lost. */
  predicate ReachesRemote(e: Event) {
    IsLanding(e) || e.Throws? || e.Rejects?
  }

  function RequestOf(w: World, e: Event): Request
    requires Enabled(w, e) && ReachesRemote(e)
  {
    if e.LandsLate? then e.request else w.session.phase.request
  }

  /** Write-ahead: the remote is asked to commit only with the matching journal already durable. */
  lemma RequestsAreJournaled(worlds: seq<World>, events: seq<Event>, n: nat)
    requires Run(worlds, events) && n < |events|
    requires ReachesRemote(events[n])
    ensures var loaded := worlds[n].disk.Loaded();
      loaded.Some? && loaded.value.pending == Prepared(RequestOf(worlds[n], events[n]).expected)
    ensures worlds[n].session.Open? ==> worlds[n].disk.Loaded() == Some(worlds[n].session.image)
  {
    RunKeeps(worlds, events, n);
  }

  /** A request is built on the workspace's last landing or on a later head, never on an earlier tree. */
  lemma RequestsBuildOnTheLastLanding(worlds: seq<World>, events: seq<Event>, n: nat)
    requires Run(worlds, events) && n < |events|
    requires events[n].Begin? || IsLanding(events[n])
    ensures (if events[n].LandsLate? then worlds[n].disk.backup.value else worlds[n].session.image).base
      in worlds[n].remote.since
  {
    RunKeeps(worlds, events, n);
  }

  lemma {:induction false} PastGrows(worlds: seq<World>, events: seq<Event>, i: nat, j: nat)
    requires Run(worlds, events) && i <= j < |worlds|
    ensures worlds[i].remote.past <= worlds[j].remote.past
  {
    hide Next, Enabled;
    if i < j {
      PastGrows(worlds, events, i, j - 1);
      StepLeavesHeads(worlds[j - 1], events[j - 1]);
    }
  }

  lemma StepLeavesHeads(w: World, e: Event)
    requires Enabled(w, e)
    ensures w.remote.past <= Next(w, e).remote.past
    ensures IsLanding(e) ==> w.remote.head in Next(w, e).remote.past
  {
  }

  /** No two publications of the workspace land on the same expected head. */
  lemma LandingsDiffer(worlds: seq<World>, events: seq<Event>, i: nat, j: nat)
    requires Run(worlds, events) && i < j < |events| && IsLanding(events[i]) && IsLanding(events[j])
    ensures RequestOf(worlds[i], events[i]).expected != RequestOf(worlds[j], events[j]).expected
  {
    StepLeavesHeads(worlds[i], events[i]);
    PastGrows(worlds, events, i + 1, j);
    RunKeeps(worlds, events, j);
  }

  /** Every tree the workspace can edit has its last landing, or a later head, as base. */
  lemma LandedIsNeverForgotten(worlds: seq<World>, events: seq<Event>, n: nat)
    requires Run(worlds, events) && n < |worlds|
    requires worlds[n].session.Open? && worlds[n].session.image.pending.NoPending?
    ensures worlds[n].session.image.base in worlds[n].remote.since
  {
    RunKeeps(worlds, events, n);
  }

  /** What `since` holds: the newest landing of the run, or the first head, and exactly the heads after it. */
  lemma {:induction false} SinceIsLandingAndLater(worlds: seq<World>, events: seq<Event>, i: nat, n: nat)
    requires Run(worlds, events) && i <= n < |worlds|
    requires i == 0 || IsLanding(events[i - 1])
    requires forall k | i <= k < n :: !IsLanding(events[k])
    ensures worlds[n].remote.landing == worlds[i].remote.head
    ensures forall id :: id in worlds[n].remote.since <==> exists k :: i <= k <= n && worlds[k].remote.head == id
  {
    hide Next, Enabled;
    if i < n {
      SinceIsLandingAndLater(worlds, events, i, n - 1);
      StepKeepsHeads(worlds[n - 1], events[n - 1]);
      assert worlds[n].remote.since == worlds[n - 1].remote.since + {worlds[n].remote.head};
    } else if i > 0 {
      StepKeepsHeads(worlds[i - 1], events[i - 1]);
    }
  }

  lemma StepKeepsHeads(w: World, e: Event)
    requires Enabled(w, e)
    ensures var r, r' := w.remote, Next(w, e).remote;
      if IsLanding(e) then r'.landing == r'.head && r'.since == {r'.head}
      else r'.landing == r.landing && r'.since == (if e.OtherClient? then r.since + {r'.head} else r.since)
    ensures !IsLanding(e) && !e.OtherClient? ==> Next(w, e).remote == w.remote
  {
  }

  /**
   A request that was still travelling when the workspace was opened again, and lands then, is known to the
   reopened workspace exactly when recovery could not read the head: it takes the expected head as proof
   that nothing will land, and clears the journal.
   */
  lemma LateLandingIsKnownIff(r: Remote, stored: Image, request: Request, revision: RevisionId, readable: bool)
    requires RemoteOk(r) && Consistent(r, stored) && stored.pending == Prepared(request.expected)
    requires r.head == request.expected && revision !in r.revisions && WholeIsAll(r, stored, request)
    ensures var r' := Land(r, revision, Publication(r, stored, request));
      ImageOk(r', RecoveredImage(r, stored, readable)) <==> !readable
  {
    LandedIsOk(r, stored, request, revision);
  }

  // ---------------------------------------------------------------- the two escapes, as runs

  const EMPTY_BRANCH: Remote := Remote(map[0 := map[]], 0, {}, 0, {0})
  const UNOPENED: World := World(EMPTY_BRANCH, Disk(None, None), Closed, map[], None, None)

  function Added(content: Bytes): OverlaySnapshot {
    OverlaySnapshot(map[["a"] := content], {}, {}, [])
  }

  function HalfSavedRun(content: Bytes): (run: (seq<World>, seq<Event>)) {
    var edited := Image(0, Added(content), NoPending);
    var checkedOut := UNOPENED.(session := Open(Image(0, EMPTY, NoPending), Idle));
    var failed := checkedOut.(disk := Disk(None, Some(edited)), half := Some(map[["a"] := content]));
    var closed := failed.(session := Closed);
    var reopened := closed.(session := Open(edited, Idle), shown := map[["a"] := content]);
    ([UNOPENED, checkedOut, failed, closed, reopened],
     [Reopen(true, Done), Edit(Added(content), HalfDone), Crash, Reopen(true, Done)])
  }

  lemma HalfSavedSteps(content: Bytes)
    ensures var (worlds, events) := HalfSavedRun(content);
      && Enabled(worlds[1], events[1]) && worlds[2] == Next(worlds[1], events[1])
      && Enabled(worlds[2], events[2]) && worlds[3] == Next(worlds[2], events[2])
  {
    hide Accepted, Published, ReconciledImage, RecoveredImage, WholeIsAll;
    assert Visible(map[], Added(content)) == map[["a"] := content];
    assert Sound(map[], Added(content));
  }

  lemma CheckoutOpens()
    ensures Enabled(UNOPENED, Reopen(true, Done))
    ensures Next(UNOPENED, Reopen(true, Done)) == UNOPENED.(session := Open(Image(0, EMPTY, NoPending), Idle))
  {
    assert Visible(map[], EMPTY) == map[];
  }

  lemma HalfSavedLoads(content: Bytes)
    ensures var (worlds, events) := HalfSavedRun(content);
      && Enabled(worlds[3], events[3]) && worlds[4] == Next(worlds[3], events[3])
      && Shown(worlds[4].remote, worlds[4].session.image) == map[["a"] := content]
  {
    hide Accepted, Published, ReconciledImage, WholeIsAll;
    assert Visible(map[], Added(content)) == map[["a"] := content];
    var edited := Image(0, Added(content), NoPending);
    assert RecoveredImage(EMPTY_BRANCH, edited, true) == edited;
  }

  /** An edit whose first save failed half way is rolled back in the session and there again after a restart. */
  lemma RolledBackEditReturns(content: Bytes)
    ensures var (worlds, events) := HalfSavedRun(content);
      && Run(worlds, events)
      && worlds[2].session == worlds[1].session && worlds[3].shown == map[]
      && worlds[4].session.Open? && Shown(worlds[4].remote, worlds[4].session.image) == map[["a"] := content]
  {
    hide Next, Enabled, Shown;
    CheckoutOpens();
    HalfSavedSteps(content);
    HalfSavedLoads(content);
  }

  function UnsavedRun(content: Bytes): (run: (seq<World>, seq<Event>)) {
    var files: Files := map[["a"] := content];
    var checkedOut := UNOPENED.(session := Open(Image(0, EMPTY, NoPending), Idle));
    var moved := checkedOut.(remote := Move(EMPTY_BRANCH, 1, files));
    var closed := moved.(session := Closed);
    ([UNOPENED, checkedOut, moved, closed, closed.(session := Open(Image(1, EMPTY, NoPending), Idle), shown := files)],
     [Reopen(true, Done), OtherClient(1, files), Crash, Reopen(true, Done)])
  }

  lemma UnsavedSteps(content: Bytes)
    ensures var (worlds, events) := UnsavedRun(content);
      && Enabled(worlds[1], events[1]) && worlds[2] == Next(worlds[1], events[1])
      && Enabled(worlds[2], events[2]) && worlds[3] == Next(worlds[2], events[2])
      && Enabled(worlds[3], events[3]) && worlds[4] == Next(worlds[3], events[3])
      && Shown(worlds[4].remote, worlds[4].session.image) == map[["a"] := content]
  {
    hide Accepted, Published, ReconciledImage, WholeIsAll;
    assert Visible(map[["a"] := content], EMPTY) == map[["a"] := content];
  }

  /** Before the first save a restart follows the remote head. */
  lemma UnsavedCheckoutMoves(content: Bytes)
    ensures var (worlds, events) := UnsavedRun(content);
      && Run(worlds, events)
      && worlds[3].shown == map[]
      && worlds[4].session.Open? && Shown(worlds[4].remote, worlds[4].session.image) == map[["a"] := content]
  {
    hide Next, Enabled, Shown;
    CheckoutOpens();
    UnsavedSteps(content);
  }
}
