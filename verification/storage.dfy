/**
 Durable workspace snapshots: content-addressed blobs, one manifest for each generation, and two
 pointer files that are replaced by renaming. Every file operation may fail, and the program may
 stop after any of them.
 */
module Storage {
  import opened Wrappers
  import opened Paths
  import opened Repository
  import opened Overlays

  type BranchName = string

  datatype PendingPublication =
    | PreparedFor(branch: BranchName, expected: RevisionId)
    | PublishedOn(branch: BranchName, expected: RevisionId, revision: RevisionId)

  datatype BranchSnapshot = BranchSnapshot(baseRevision: RevisionId, overlay: OverlaySnapshot)

  datatype WorkspaceSnapshot = WorkspaceSnapshot(
    selectedBranch: BranchName,
    branches: map<BranchName, BranchSnapshot>,
    pending: Option<PendingPublication>)

  /** An ideal hash: it is equal for equal content only. */
  datatype BlobId = BlobHash(content: Bytes)

  datatype BlobReference = BlobReference(sha256: BlobId, size: nat)

  datatype StoredBranch = StoredBranch(
    baseRevision: RevisionId,
    files: map<Path, BlobReference>,
    directories: set<Path>,
    deleted: set<Path>,
    renames: seq<Rename>)

  datatype Manifest = Manifest(
    selectedBranch: BranchName,
    branches: map<BranchName, StoredBranch>,
    pending: Option<PendingPublication>)

  datatype Generation = ManifestHash(manifest: Manifest)

  datatype Pointer = Pointer(current: Generation, previous: Option<Generation>)

  datatype PointerFile = Absent | Unreadable | Holds(pointer: Pointer)

  datatype PointerName = Primary | Backup

  datatype Disk = Disk(
    blobs: map<BlobId, Bytes>,
    manifests: map<Generation, Manifest>,
    primary: PointerFile,
    backup: PointerFile,
    temporaries: set<(PointerName, Generation)>)

  // ---------------------------------------------------------------- encoding

  function Reference(content: Bytes): BlobReference {
    BlobReference(BlobHash(content), |content|)
  }

  function EncodeBranch(branch: BranchSnapshot): StoredBranch {
    var o := branch.overlay;
    StoredBranch(
      branch.baseRevision, map p | p in o.files :: Reference(o.files[p]), o.directories, o.deleted, o.renames)
  }

  function Encode(snapshot: WorkspaceSnapshot): Manifest {
    Manifest(
      snapshot.selectedBranch, map b | b in snapshot.branches :: EncodeBranch(snapshot.branches[b]), snapshot.pending)
  }

  function GenerationOf(snapshot: WorkspaceSnapshot): Generation {
    ManifestHash(Encode(snapshot))
  }

  /** The decoder's own conditions on a snapshot, manifest or not. */
  predicate Selects(selected: BranchName, branches: set<BranchName>, pending: Option<PendingPublication>) {
    selected in branches && (pending.Some? ==> pending.value.branch == selected)
  }

  predicate Decodable(manifest: Manifest) {
    Selects(manifest.selectedBranch, manifest.branches.Keys, manifest.pending)
  }

  function References(manifest: Manifest): set<BlobReference> {
    set b, p | b in manifest.branches && p in manifest.branches[b].files :: manifest.branches[b].files[p]
  }

  function ReferencedBlobs(manifest: Manifest): set<BlobId> {
    set r | r in References(manifest) :: r.sha256
  }

  /** The checks on one blob as it is read back. */
  predicate BlobReads(d: Disk, r: BlobReference) {
    r.sha256 in d.blobs && |d.blobs[r.sha256]| == r.size && BlobHash(d.blobs[r.sha256]) == r.sha256
  }

  function DecodeBranch(d: Disk, branch: StoredBranch): BranchSnapshot
    requires forall p | p in branch.files :: BlobReads(d, branch.files[p])
  {
    BranchSnapshot(branch.baseRevision,
      OverlaySnapshot(map p | p in branch.files ::
                        assert BlobReads(d, branch.files[p]); d.blobs[branch.files[p].sha256],
                      branch.directories, branch.deleted, branch.renames))
  }

  /** A generation can be loaded: its manifest is the one its name is the hash of, and all its blobs read. */
  predicate Complete(d: Disk, g: Generation) {
    && g in d.manifests && ManifestHash(d.manifests[g]) == g
    && Decodable(g.manifest)
    && forall r | r in References(g.manifest) :: BlobReads(d, r)
  }

  lemma ReferencesOfBranch(m: Manifest, b: BranchName, p: Path)
    requires b in m.branches && p in m.branches[b].files
    ensures m.branches[b].files[p] in References(m)
  {
  }

  function LoadGeneration(d: Disk, g: Generation): Option<WorkspaceSnapshot> {
    if !Complete(d, g) then None
    else
      var m := g.manifest;
      assert forall b, p | b in m.branches && p in m.branches[b].files :: BlobReads(d, m.branches[b].files[p]) by {
        forall b, p | b in m.branches && p in m.branches[b].files
          ensures BlobReads(d, m.branches[b].files[p])
        {
          ReferencesOfBranch(m, b, p);
        }
      }
      Some(WorkspaceSnapshot(m.selectedBranch, map b | b in m.branches :: DecodeBranch(d, m.branches[b]), m.pending))
  }

  /** What loads under the name of a snapshot's generation is that snapshot, on any disk whatsoever. */
  lemma LoadsExactly(d: Disk, snapshot: WorkspaceSnapshot)
    requires Complete(d, GenerationOf(snapshot))
    ensures LoadGeneration(d, GenerationOf(snapshot)) == Some(snapshot)
  {
    var m := Encode(snapshot);
    var loaded := LoadGeneration(d, GenerationOf(snapshot)).value;
    forall b | b in snapshot.branches
      ensures loaded.branches[b] == snapshot.branches[b]
    {
      var o, stored := snapshot.branches[b].overlay, m.branches[b];
      forall p | p in o.files
        ensures stored.files[p].sha256 in d.blobs && d.blobs[stored.files[p].sha256] == o.files[p]
      {
        ReferencesOfBranch(m, b, p);
        assert BlobReads(d, stored.files[p]);
      }
      assert loaded.branches[b].overlay.files == o.files;
    }
    assert loaded.branches == snapshot.branches;
  }

  // ---------------------------------------------------------------- loading

  /** `readPointer`: the backup is asked only when the primary does not answer. */
  function ReadPointer(d: Disk): Result<Option<Pointer>> {
    if d.primary.Holds? then Ok(Some(d.primary.pointer))
    else if d.backup.Holds? then Ok(Some(d.backup.pointer))
    else if d.primary.Absent? && d.backup.Absent? then Ok(None)
    else Err(InvalidRequest)
  }

  datatype Outcome = Nothing | Restores(generation: Generation) | Broken

  /** Which generation `load` would restore. */
  function LoadsAs(d: Disk): Outcome {
    match ReadPointer(d)
    case Err(_) => Broken
    case Ok(None) => Nothing
    case Ok(Some(pointer)) =>
      if Complete(d, pointer.current) then Restores(pointer.current)
      else if pointer.previous.Some? && Complete(d, pointer.previous.value) then Restores(pointer.previous.value)
      else Broken
  }

  /** Which disk has nothing to load, and which generation loads from the others. */
  lemma LoadsAsIff(d: Disk, g: Generation)
    ensures LoadsAs(d) == Nothing <==> d.primary.Absent? && d.backup.Absent?
    ensures LoadsAs(d) == Restores(g) <==>
      && (d.primary.Holds? || d.backup.Holds?)
      && var pointer := if d.primary.Holds? then d.primary.pointer else d.backup.pointer;
        Complete(d, g) && (pointer.current == g || (pointer.previous == Some(g) && !Complete(d, pointer.current)))
  {
  }

  /** Nothing stored under a hash differs from what the hash stands for. */
  predicate Intact(d: Disk) {
    && (forall b | b in d.blobs :: d.blobs[b] == b.content)
    && (forall g | g in d.manifests :: d.manifests[g] == g.manifest)
  }

  /** Between two operations of the storage. */
  predicate Healthy(d: Disk, lastValid: Option<Generation>) {
    && Intact(d)
    && ReadPointer(d).Ok?
    && (ReadPointer(d).value.Some? ==> Complete(d, ReadPointer(d).value.value.current))
    && (lastValid.Some? ==> Complete(d, lastValid.value))
  }

  /** Blobs and manifests are only added. */
  predicate Grows(d: Disk, d': Disk) {
    && (forall b | b in d.blobs :: b in d'.blobs && d'.blobs[b] == d.blobs[b])
    && (forall g | g in d.manifests :: g in d'.manifests && d'.manifests[g] == d.manifests[g])
  }

  lemma GrowingKeepsComplete(d: Disk, d': Disk, g: Generation)
    requires Grows(d, d') && Complete(d, g)
    ensures Complete(d', g)
  {
  }

  // ---------------------------------------------------------------- saving

  function PointerAt(d: Disk, name: PointerName): PointerFile {
    if name.Primary? then d.primary else d.backup
  }

  function RenamedOver(d: Disk, name: PointerName, pointer: Pointer): Disk {
    var cleared := d.(temporaries := d.temporaries - {(name, pointer.current)});
    if name.Primary? then cleared.(primary := Holds(pointer)) else cleared.(backup := Holds(pointer))
  }

  /** The load falls on one side or the other of the save. */
  predicate Either(d: Disk, old_: Outcome, new_: Outcome) {
    LoadsAs(d) == old_ || LoadsAs(d) == new_
  }

  /** The same pointers, and at least the same generations: the load cannot tell the difference. */
  lemma GrowingKeepsLoad(d: Disk, d': Disk, lastValid: Option<Generation>)
    requires Healthy(d, lastValid) && Grows(d, d') && Intact(d')
    requires d'.primary == d.primary && d'.backup == d.backup
    ensures Healthy(d', lastValid) && LoadsAs(d') == LoadsAs(d)
  {
  }

  lemma PointerKeeps(d: Disk, name: PointerName, pointer: Pointer, lastValid: Option<Generation>)
    requires Healthy(d, lastValid) && Complete(d, pointer.current)
    ensures var d' := RenamedOver(d, name, pointer);
      && Healthy(d', lastValid)
      && (LoadsAs(d') == LoadsAs(d) || LoadsAs(d') == Restores(pointer.current))
      && (name.Primary? ==> LoadsAs(d') == Restores(pointer.current))
  {
    var d' := RenamedOver(d, name, pointer);
    GrowingKeepsComplete(d, d', pointer.current);
    if ReadPointer(d).value.Some? {
      GrowingKeepsComplete(d, d', ReadPointer(d).value.value.current);
    }
    if lastValid.Some? {
      GrowingKeepsComplete(d, d', lastValid.value);
    }
  }

  /** The generation to fall back to is the last one known to load, or else the one on disk. */
  function NextPointer(d: Disk, lastValid: Option<Generation>, generation: Generation): Pointer
    requires ReadPointer(d).Ok?
  {
    var onDisk := ReadPointer(d).value;
    var previous := if lastValid.Some? then lastValid else if onDisk.Some? then Some(onDisk.value.current) else None;
    Pointer(generation, if previous == Some(generation) then None else previous)
  }

  lemma NextPointerIsComplete(d: Disk, lastValid: Option<Generation>, generation: Generation)
    requires Healthy(d, lastValid)
    ensures ReadPointer(d).Ok?
    ensures var previous := NextPointer(d, lastValid, generation).previous;
      && (previous.Some? ==> Complete(d, previous.value))
      && forall g :: previous == Some(g) <==>
           g != generation && (lastValid == Some(g) || (lastValid.None? && LoadsAs(d) == Restores(g)))
  {
  }

  function Retained(pointer: Pointer): set<Generation> {
    {pointer.current} + if pointer.previous.Some? then {pointer.previous.value} else {}
  }

  function RetainedBlobs(pointer: Pointer): set<BlobId> {
    set g, b | g in Retained(pointer) && b in ReferencedBlobs(g.manifest) :: b
  }

  /** Deleting only what is not retained keeps both generations of the pointer. */
  lemma ShrinkKeeps(d: Disk, d': Disk, pointer: Pointer)
    requires Healthy(d, Some(pointer.current)) && d.primary == Holds(pointer) && d.backup == Holds(pointer)
    requires pointer.previous.Some? ==> Complete(d, pointer.previous.value)
    requires d'.primary == d.primary && d'.backup == d.backup
    requires Grows(d', d)
    requires forall g | g in Retained(pointer) && g in d.manifests :: g in d'.manifests
    requires forall b | b in RetainedBlobs(pointer) && b in d.blobs :: b in d'.blobs
    ensures Healthy(d', Some(pointer.current)) && Healthy(d', None) && LoadsAs(d') == Restores(pointer.current)
    ensures pointer.previous.Some? ==> Complete(d', pointer.previous.value)
  {
    forall g | g in Retained(pointer) && Complete(d, g)
      ensures Complete(d', g)
    {
      forall r | r in References(g.manifest)
        ensures BlobReads(d', r)
      {
        assert r.sha256 in ReferencedBlobs(g.manifest);
        assert r.sha256 in RetainedBlobs(pointer);
      }
    }
  }

  /** What is healthy for this session is so for the next one, which remembers nothing. */
  lemma HealthyForNext(d: Disk, lastValid: Option<Generation>)
    requires Healthy(d, lastValid)
    ensures Healthy(d, None)
  {
  }

  /** With the backup alone replaced the new generation loads exactly when the primary pointer does not hold. */
  lemma BackupAloneLoadsIff(d: Disk, lastValid: Option<Generation>, pointer: Pointer)
    requires Healthy(d, lastValid) && Complete(d, pointer.current) && LoadsAs(d) != Restores(pointer.current)
    ensures LoadsAs(RenamedOver(d, Backup, pointer)) == Restores(pointer.current) <==> !d.primary.Holds?
    ensures d.primary.Holds? ==> LoadsAs(RenamedOver(d, Backup, pointer)) == LoadsAs(d)
  {
    var d' := RenamedOver(d, Backup, pointer);
    GrowingKeepsComplete(d, d', pointer.current);
    if d.primary.Holds? {
      GrowingKeepsComplete(d, d', d.primary.pointer.current);
    }
  }

  class StorageUriWorkspaceStorage {
    var disk: Disk
    var lastValidGeneration: Option<Generation>
    /** Every disk a crash could have left behind since the trace was emptied. */
    ghost var trace: seq<Disk>
    /** How many file operations have failed. */
    ghost var failures: nat

    /** One file operation: it takes effect as a whole or fails without one. */
    method FileOperation(next: Disk) returns (done: bool)
      modifies `disk, `trace, `failures
      ensures disk == if done then next else old(disk)
      ensures trace == old(trace) + [disk]
      ensures failures == old(failures) + if done then 0 else 1
    {
      done := *;
      if done {
        disk := next;
      } else {
        failures := failures + 1;
      }
      trace := trace + [disk];
    }

    /** Whatever a crash leaves behind is healthy for the next session and loads old or new. */
    ghost predicate Traced(old_: Outcome, new_: Outcome)
      reads this
    {
      forall d | d in trace :: Healthy(d, None) && Either(d, old_, new_)
    }

    /** `writeFileIfMissing` for a blob; a name that exists is trusted. */
    method WriteBlobIfMissing(content: Bytes, ghost old_: Outcome, ghost new_: Outcome) returns (done: bool)
      requires Healthy(disk, lastValidGeneration) && LoadsAs(disk) == old_ && Traced(old_, new_)
      modifies `disk, `trace, `failures
      ensures failures >= old(failures) && (!done ==> failures > old(failures))
      ensures Healthy(disk, lastValidGeneration) && LoadsAs(disk) == old_ && Traced(old_, new_)
      ensures Grows(old(disk), disk) && disk.primary == old(disk).primary && disk.backup == old(disk).backup
      ensures done ==> BlobHash(content) in disk.blobs
    {
      if BlobHash(content) in disk.blobs {
        return true;
      }
      var next := disk.(blobs := disk.blobs[BlobHash(content) := content]);
      GrowingKeepsLoad(disk, next, lastValidGeneration);
      done := FileOperation(next);
    }

    method WriteManifestIfMissing(manifest: Manifest, ghost old_: Outcome, ghost new_: Outcome) returns (done: bool)
      requires Healthy(disk, lastValidGeneration) && LoadsAs(disk) == old_ && Traced(old_, new_)
      modifies `disk, `trace, `failures
      ensures failures >= old(failures) && (!done ==> failures > old(failures))
      ensures Healthy(disk, lastValidGeneration) && LoadsAs(disk) == old_ && Traced(old_, new_)
      ensures Grows(old(disk), disk) && disk.primary == old(disk).primary && disk.backup == old(disk).backup
      ensures done ==> ManifestHash(manifest) in disk.manifests
    {
      if ManifestHash(manifest) in disk.manifests {
        return true;
      }
      var next := disk.(manifests := disk.manifests[ManifestHash(manifest) := manifest]);
      GrowingKeepsLoad(disk, next, lastValidGeneration);
      done := FileOperation(next);
    }

    /** The blobs of every overlay file, branch by branch. */
    method WriteBlobs(snapshot: WorkspaceSnapshot, ghost old_: Outcome, ghost new_: Outcome) returns (done: bool)
      requires Healthy(disk, lastValidGeneration) && LoadsAs(disk) == old_ && Traced(old_, new_)
      modifies `disk, `trace, `failures
      ensures failures >= old(failures) && (!done ==> failures > old(failures))
      ensures Healthy(disk, lastValidGeneration) && LoadsAs(disk) == old_ && Traced(old_, new_)
      ensures Grows(old(disk), disk) && disk.primary == old(disk).primary && disk.backup == old(disk).backup
      ensures done ==> forall r | r in References(Encode(snapshot)) :: BlobReads(disk, r)
    {
      var pending := Contents(snapshot);
      while pending != {}
        invariant failures >= old(failures)
        invariant pending <= Contents(snapshot)
        invariant Healthy(disk, lastValidGeneration) && LoadsAs(disk) == old_ && Traced(old_, new_)
        invariant Grows(old(disk), disk) && disk.primary == old(disk).primary && disk.backup == old(disk).backup
        invariant forall c | c in Contents(snapshot) - pending :: BlobHash(c) in disk.blobs
        decreases |pending|
      {
        var content :| content in pending;
        done := WriteBlobIfMissing(content, old_, new_);
        if !done {
          return;
        }
        pending := pending - {content};
      }
      ReferencedContents(snapshot);
      return true;
    }

    /** A temporary file is written or deleted; no load looks at it. */
    method SetTemporaries(temporaries: set<(PointerName, Generation)>, ghost old_: Outcome, ghost new_: Outcome)
      returns (done: bool)
      requires Healthy(disk, lastValidGeneration) && Either(disk, old_, new_) && Traced(old_, new_)
      modifies `disk, `trace, `failures
      ensures failures >= old(failures) && (!done ==> failures > old(failures))
      ensures Healthy(disk, lastValidGeneration) && Either(disk, old_, new_) && Traced(old_, new_)
      ensures disk == old(disk).(temporaries := disk.temporaries)
    {
      var next := disk.(temporaries := temporaries);
      GrowingKeepsLoad(disk, next, lastValidGeneration);
      HealthyForNext(next, lastValidGeneration);
      HealthyForNext(disk, lastValidGeneration);
      hide Healthy, LoadsAs, Complete;
      done := FileOperation(next);
    }

    /** The one rename that makes a pointer file name the new generation. */
    method RenameOver(name: PointerName, pointer: Pointer, ghost old_: Outcome, ghost new_: Outcome)
      returns (done: bool)
      requires Healthy(disk, lastValidGeneration) && Either(disk, old_, new_) && Traced(old_, new_)
      requires Complete(disk, pointer.current) && new_ == Restores(pointer.current)
      modifies `disk, `trace, `failures
      ensures failures >= old(failures) && (!done ==> failures > old(failures))
      ensures Healthy(disk, lastValidGeneration) && Either(disk, old_, new_) && Traced(old_, new_)
      ensures disk == if done then RenamedOver(old(disk), name, pointer) else old(disk)
    {
      var next := RenamedOver(disk, name, pointer);
      PointerKeeps(disk, name, pointer, lastValidGeneration);
      HealthyForNext(next, lastValidGeneration);
      HealthyForNext(disk, lastValidGeneration);
      hide Healthy, LoadsAs, Complete;
      done := FileOperation(next);
    }

    /** A temporary file first, then one rename over the target; the temporary is cleaned up at best effort. */
    method WritePointerFile(name: PointerName, pointer: Pointer, ghost old_: Outcome, ghost new_: Outcome)
      returns (done: bool)
      requires Healthy(disk, lastValidGeneration) && Either(disk, old_, new_) && Traced(old_, new_)
      requires Complete(disk, pointer.current) && new_ == Restores(pointer.current)
      modifies `disk, `trace, `failures
      ensures failures >= old(failures) && (!done ==> failures > old(failures))
      ensures Healthy(disk, lastValidGeneration) && Either(disk, old_, new_) && Traced(old_, new_)
      ensures disk.blobs == old(disk).blobs && disk.manifests == old(disk).manifests
      ensures name.Primary? ==> disk.backup == old(disk).backup
      ensures done ==> PointerAt(disk, name) == Holds(pointer)
      ensures !done ==> PointerAt(disk, name) == PointerAt(old(disk), name)
      ensures name.Backup? ==> disk.primary == old(disk).primary
    {
      done := SetTemporaries(disk.temporaries + {(name, pointer.current)}, old_, new_);
      if !done {
        return;
      }
      done := RenameOver(name, pointer, old_, new_);
      if !done {
        var _ := SetTemporaries(disk.temporaries - {(name, pointer.current)}, old_, new_);
      }
    }

    /** The backup pointer is replaced before the primary one. */
    method WritePointer(pointer: Pointer, ghost old_: Outcome, ghost new_: Outcome) returns (done: bool)
      requires Healthy(disk, lastValidGeneration) && Either(disk, old_, new_) && Traced(old_, new_)
      requires Complete(disk, pointer.current) && new_ == Restores(pointer.current)
      modifies `disk, `trace, `failures
      ensures failures >= old(failures) && (!done ==> failures > old(failures))
      ensures Healthy(disk, lastValidGeneration) && Either(disk, old_, new_) && Traced(old_, new_)
      ensures disk.blobs == old(disk).blobs && disk.manifests == old(disk).manifests
      ensures done ==> disk.primary == Holds(pointer) && disk.backup == Holds(pointer) && LoadsAs(disk) == new_
      ensures !done && old(disk).primary.Holds? ==> LoadsAs(disk) == LoadsAs(old(disk))
      ensures !done ==> disk.primary == old(disk).primary && disk.backup in {old(disk).backup, Holds(pointer)}
      ensures !done && !old(disk).primary.Holds? && disk.backup == Holds(pointer) ==> LoadsAs(disk) == new_
      ensures forall g | Complete(old(disk), g) :: Complete(disk, g)
    {
      done := WritePointerFile(Backup, pointer, old_, new_);
      if done {
        done := WritePointerFile(Primary, pointer, old_, new_);
      }
    }

    /** What garbage collection may rely on: the two generations of the pointer are on disk. */
    ghost predicate Settled(pointer: Pointer)
      reads this
    {
      && Healthy(disk, lastValidGeneration) && Complete(disk, pointer.current)
      && (pointer.previous.Some? ==> Complete(disk, pointer.previous.value))
      && disk.primary == Holds(pointer) && disk.backup == Holds(pointer)
      && lastValidGeneration == Some(pointer.current)
    }

    /** One deletion of something that no retained generation needs. */
    method Discard(next: Disk, pointer: Pointer, ghost old_: Outcome) returns (done: bool)
      requires Settled(pointer) && Traced(old_, Restores(pointer.current))
      requires next.primary == disk.primary && next.backup == disk.backup && Grows(next, disk)
      requires forall g | g in Retained(pointer) && g in disk.manifests :: g in next.manifests
      requires forall b | b in RetainedBlobs(pointer) && b in disk.blobs :: b in next.blobs
      modifies `disk, `trace, `failures
      ensures failures >= old(failures) && (!done ==> failures > old(failures))
      ensures Settled(pointer) && Traced(old_, Restores(pointer.current))
      ensures disk == if done then next else old(disk)
    {
      ShrinkKeeps(disk, next, pointer);
      hide Healthy, LoadsAs, Complete, Retained, RetainedBlobs;
      assert LoadsAs(disk) == Restores(pointer.current) && Healthy(disk, None) by {
        SettledLoads(pointer);
      }
      done := FileOperation(next);
    }

    lemma SettledLoads(pointer: Pointer)
      requires Settled(pointer)
      ensures LoadsAs(disk) == Restores(pointer.current) && Healthy(disk, None)
    {
    }

    method DeleteManifests(pointer: Pointer, ghost old_: Outcome) returns (done: bool)
      requires Settled(pointer) && Traced(old_, Restores(pointer.current))
      modifies `disk, `trace, `failures
      ensures failures >= old(failures) && (!done ==> failures > old(failures))
      ensures Settled(pointer) && Traced(old_, Restores(pointer.current))
      ensures done ==> disk.manifests.Keys <= Retained(pointer)
    {
      hide Settled, Traced, RetainedBlobs;
      var pending := disk.manifests.Keys;
      while pending != {}
        invariant failures >= old(failures)
        invariant pending <= disk.manifests.Keys && disk.manifests.Keys - pending <= Retained(pointer)
        invariant Settled(pointer) && Traced(old_, Restores(pointer.current))
        decreases |pending|
      {
        var generation :| generation in pending;
        if generation !in Retained(pointer) {
          var next := disk.(manifests := disk.manifests - {generation});
          done := Discard(next, pointer, old_);
          if !done {
            return;
          }
        }
        pending := pending - {generation};
      }
      return true;
    }

    method DeleteBlobs(pointer: Pointer, retained: set<BlobId>, ghost old_: Outcome) returns (done: bool)
      requires Settled(pointer) && Traced(old_, Restores(pointer.current))
      requires retained == RetainedBlobs(pointer)
      modifies `disk, `trace, `failures
      ensures failures >= old(failures) && (!done ==> failures > old(failures))
      ensures Settled(pointer) && Traced(old_, Restores(pointer.current))
      ensures disk.manifests == old(disk).manifests
      ensures done ==> disk.blobs.Keys <= retained
    {
      hide Settled, Traced, RetainedBlobs;
      var pending := disk.blobs.Keys;
      while pending != {}
        invariant failures >= old(failures)
        invariant pending <= disk.blobs.Keys && disk.blobs.Keys - pending <= retained
        invariant Settled(pointer) && Traced(old_, Restores(pointer.current))
        invariant disk.manifests == old(disk).manifests
        decreases |pending|
      {
        var blob :| blob in pending;
        if blob !in retained {
          var next := disk.(blobs := disk.blobs - {blob});
          done := Discard(next, pointer, old_);
          if !done {
            return;
          }
        }
        pending := pending - {blob};
      }
      return true;
    }

    method DeleteTemporaries(pointer: Pointer, ghost old_: Outcome) returns (done: bool)
      requires Settled(pointer) && Traced(old_, Restores(pointer.current))
      modifies `disk, `trace, `failures
      ensures failures >= old(failures) && (!done ==> failures > old(failures))
      ensures Settled(pointer) && Traced(old_, Restores(pointer.current))
      ensures disk.blobs == old(disk).blobs && disk.manifests == old(disk).manifests
    {
      hide Settled, Traced, RetainedBlobs;
      var pending := disk.temporaries;
      while pending != {}
        invariant failures >= old(failures)
        invariant pending <= disk.temporaries
        invariant Settled(pointer) && Traced(old_, Restores(pointer.current))
        invariant disk.blobs == old(disk).blobs && disk.manifests == old(disk).manifests
        decreases |pending|
      {
        var temporary :| temporary in pending;
        var next := disk.(temporaries := disk.temporaries - {temporary});
        done := Discard(next, pointer, old_);
        if !done {
          return;
        }
        pending := pending - {temporary};
      }
      return true;
    }

    /** Deletes what neither generation of the pointer needs; gives up when the previous one cannot be inspected. */
    method GarbageCollect(pointer: Pointer, ghost old_: Outcome) returns (done: bool)
      requires Settled(pointer) && Traced(old_, Restores(pointer.current))
      modifies `disk, `trace, `failures
      ensures failures >= old(failures) && (!done ==> failures > old(failures))
      ensures Settled(pointer) && Traced(old_, Restores(pointer.current))
      ensures done ==> disk.manifests.Keys <= Retained(pointer) && disk.blobs.Keys <= RetainedBlobs(pointer)
      ensures LoadsAs(disk) == Restores(pointer.current)
    {
      var retained := ReferencedBlobs(pointer.current.manifest);
      if pointer.previous.Some? {
        var readable: bool := *;
        if !readable {
          failures := failures + 1;
          return false;
        }
        retained := retained + ReferencedBlobs(disk.manifests[pointer.previous.value]);
      }
      done := DeleteManifests(pointer, old_);
      if !done {
        return;
      }
      done := DeleteBlobs(pointer, retained, old_);
      if !done {
        return;
      }
      done := DeleteTemporaries(pointer, old_);
    }

    /** `save`: everything the new pointer names is on disk before the pointer is. */
    method Save(snapshot: WorkspaceSnapshot) returns (saved: bool)
      requires Healthy(disk, lastValidGeneration)
      requires Selects(snapshot.selectedBranch, snapshot.branches.Keys, snapshot.pending)
      modifies this
      ensures Healthy(disk, lastValidGeneration)
      ensures Traced(LoadsAs(old(disk)), Restores(GenerationOf(snapshot)))
      ensures saved ==> LoadsAs(disk) == Restores(GenerationOf(snapshot))
      ensures saved ==> lastValidGeneration == Some(GenerationOf(snapshot))
      ensures saved ==> LoadGeneration(disk, GenerationOf(snapshot)) == Some(snapshot)
      ensures saved ==>
        && disk.primary.Holds? && disk.backup == disk.primary
        && disk.primary.pointer.current == GenerationOf(snapshot)
        && forall g | g in Retained(disk.primary.pointer) :: Complete(disk, g)
      ensures saved ==>
        forall g :: disk.primary.pointer.previous == Some(g) <==>
          && g != GenerationOf(snapshot)
          && (old(lastValidGeneration) == Some(g)
              || (old(lastValidGeneration).None? && LoadsAs(old(disk)) == Restores(g)))
      ensures saved ==>
        || failures > old(failures)
        || (&& disk.manifests.Keys <= Retained(disk.primary.pointer)
            && disk.blobs.Keys <= RetainedBlobs(disk.primary.pointer))
      ensures failures >= old(failures) && (!saved ==> failures > old(failures))
      ensures !saved ==> lastValidGeneration == old(lastValidGeneration)
      ensures !saved && old(disk).primary.Holds? ==> LoadsAs(disk) == LoadsAs(old(disk))
      ensures !saved ==> Either(disk, LoadsAs(old(disk)), Restores(GenerationOf(snapshot)))
      ensures !saved ==> disk.primary == old(disk).primary
      ensures !saved && !old(disk).primary.Holds? && disk.backup != old(disk).backup ==>
        LoadsAs(disk) == Restores(GenerationOf(snapshot))
    {
      hide LoadGeneration, Complete, LoadsAs;
      ghost var old_, new_ := LoadsAs(disk), Restores(GenerationOf(snapshot));
      trace := [];
      saved := WriteBlobs(snapshot, old_, new_);
      if !saved {
        return;
      }
      var manifest := Encode(snapshot);
      var generation := ManifestHash(manifest);
      saved := WriteManifest(snapshot, old_, new_);
      if !saved {
        return;
      }
      NextPointerIsComplete(disk, lastValidGeneration, generation);
      var pointer := NextPointer(disk, lastValidGeneration, generation);
      saved := WritePointer(pointer, old_, new_);
      if !saved {
        return;
      }
      lastValidGeneration := Some(generation);
      var _ := GarbageCollect(pointer, old_);
      LoadsExactly(disk, snapshot);
    }

    method WriteManifest(snapshot: WorkspaceSnapshot, ghost old_: Outcome, ghost new_: Outcome) returns (done: bool)
      requires Healthy(disk, lastValidGeneration) && LoadsAs(disk) == old_ && Traced(old_, new_)
      requires Selects(snapshot.selectedBranch, snapshot.branches.Keys, snapshot.pending)
      requires forall r | r in References(Encode(snapshot)) :: BlobReads(disk, r)
      modifies `disk, `trace, `failures
      ensures failures >= old(failures) && (!done ==> failures > old(failures))
      ensures Healthy(disk, lastValidGeneration) && LoadsAs(disk) == old_ && Traced(old_, new_)
      ensures disk.primary == old(disk).primary && disk.backup == old(disk).backup
      ensures done ==> Complete(disk, GenerationOf(snapshot))
    {
      done := WriteManifestIfMissing(Encode(snapshot), old_, new_);
    }

    /** `load`, on any disk: the current generation, or the previous one when the current does not check out. */
    method Load() returns (r: Result<Option<WorkspaceSnapshot>>)
      modifies this
      ensures match LoadsAs(old(disk)) {
          case Nothing => r == Ok(None)
          case Broken => r.Err?
          case Restores(g) => r == Ok(LoadGeneration(old(disk), g)) && r.value.Some? && lastValidGeneration == Some(g)
        }
      ensures !LoadsAs(old(disk)).Restores? ==> lastValidGeneration == old(lastValidGeneration)
      ensures LoadsAs(disk) == LoadsAs(old(disk))
      ensures forall d | d in trace :: LoadsAs(d) == LoadsAs(old(disk))
      ensures Healthy(old(disk), None) ==> disk == old(disk) && !LoadsAs(disk).Broken?
    {
      trace := [];
      var pointer := ReadPointer(disk);
      if pointer.Err? {
        return Err(pointer.code);
      }
      if pointer.value.None? {
        return Ok(None);
      }
      var current, previous := pointer.value.value.current, pointer.value.value.previous;
      var snapshot := LoadGeneration(disk, current);
      if snapshot.Some? {
        lastValidGeneration := Some(current);
        return Ok(snapshot);
      }
      if previous.None? {
        return Err(InvalidRequest);
      }
      snapshot := LoadGeneration(disk, previous.value);
      if snapshot.None? {
        return Err(InvalidRequest);
      }
      lastValidGeneration := previous;
      RepairPointer(previous.value);
      return Ok(snapshot);
    }

    /** The pointer is pointed at the generation that loaded; failing to do so is ignored. */
    method RepairPointer(generation: Generation)
      requires LoadsAs(disk) == Restores(generation) && forall d | d in trace :: LoadsAs(d) == Restores(generation)
      modifies `disk, `trace, `failures
      ensures
        failures > old(failures) || (disk.primary == Holds(Pointer(generation, None)) && disk.backup == disk.primary)
      ensures LoadsAs(disk) == Restores(generation) && forall d | d in trace :: LoadsAs(d) == Restores(generation)
    {
      var done := RepairPointerFile(Backup, generation);
      if done {
        done := RepairPointerFile(Primary, generation);
      }
    }

    method RepairPointerFile(name: PointerName, generation: Generation) returns (done: bool)
      requires LoadsAs(disk) == Restores(generation) && forall d | d in trace :: LoadsAs(d) == Restores(generation)
      modifies `disk, `trace, `failures
      ensures done ==> PointerAt(disk, name) == Holds(Pointer(generation, None))
      ensures name.Primary? ==> disk.backup == old(disk).backup
      ensures failures >= old(failures) && (!done ==> failures > old(failures))
      ensures LoadsAs(disk) == Restores(generation) && forall d | d in trace :: LoadsAs(d) == Restores(generation)
    {
      var pointer := Pointer(generation, None);
      var temporary := disk.(temporaries := disk.temporaries + {(name, generation)});
      LoadIgnoresTemporaries(disk, temporary);
      done := FileOperation(temporary);
      if !done {
        return;
      }
      RepairKeepsLoad(disk, name, generation);
      done := FileOperation(RenamedOver(disk, name, pointer));
      if !done {
        var cleared := disk.(temporaries := disk.temporaries - {(name, generation)});
        LoadIgnoresTemporaries(disk, cleared);
        var _ := FileOperation(cleared);
      }
    }
  }

  lemma LoadIgnoresTemporaries(d: Disk, d': Disk)
    requires d' == d.(temporaries := d'.temporaries)
    ensures LoadsAs(d') == LoadsAs(d)
  {
    forall g
      ensures Complete(d', g) <==> Complete(d, g)
    {
    }
  }

  lemma RepairKeepsLoad(d: Disk, name: PointerName, generation: Generation)
    requires LoadsAs(d) == Restores(generation)
    ensures LoadsAs(RenamedOver(d, name, Pointer(generation, None))) == Restores(generation)
  {
    var d' := RenamedOver(d, name, Pointer(generation, None));
    forall g
      ensures Complete(d', g) <==> Complete(d, g)
    {
    }
  }

  // ---------------------------------------------------------------- what a load returns

  function LoadSnapshot(d: Disk): Option<WorkspaceSnapshot> {
    match LoadsAs(d)
    case Restores(g) => LoadGeneration(d, g)
    case _ => None
  }

  /** The name of a generation determines what it loads. */
  lemma LoadIsDetermined(d: Disk, d': Disk, g: Generation)
    requires Complete(d, g) && Complete(d', g)
    ensures LoadGeneration(d, g) == LoadGeneration(d', g)
  {
    var m := g.manifest;
    forall b | b in m.branches
      ensures LoadGeneration(d, g).value.branches[b] == LoadGeneration(d', g).value.branches[b]
    {
      var a, c := LoadGeneration(d, g).value.branches[b].overlay, LoadGeneration(d', g).value.branches[b].overlay;
      forall p | p in m.branches[b].files
        ensures p in a.files && p in c.files && a.files[p] == c.files[p]
      {
        ReferencesOfBranch(m, b, p);
        assert BlobReads(d, m.branches[b].files[p]) && BlobReads(d', m.branches[b].files[p]);
      }
      assert a.files == c.files;
    }
    assert LoadGeneration(d, g).value.branches == LoadGeneration(d', g).value.branches;
  }

  /** A save interrupted anywhere leaves a disk that loads exactly the old or exactly the new snapshot. */
  lemma InterruptedSaveLoadsOldOrNew(before: Disk, d: Disk, snapshot: WorkspaceSnapshot)
    requires Healthy(before, None) && Healthy(d, None)
    requires Either(d, LoadsAs(before), Restores(GenerationOf(snapshot)))
    ensures LoadSnapshot(d) == LoadSnapshot(before) || LoadSnapshot(d) == Some(snapshot)
    ensures !LoadsAs(d).Broken?
  {
    if LoadsAs(d) == Restores(GenerationOf(snapshot)) {
      LoadsExactly(d, snapshot);
    } else if LoadsAs(before).Restores? {
      LoadIsDetermined(before, d, LoadsAs(before).generation);
    }
  }

  /**
   Whatever happens to the files of the newest generation, as long as those of the previous one are
   intact a load returns exactly one of the two.
   */
  lemma DamageFallsBack(d: Disk, newest: WorkspaceSnapshot, previous: WorkspaceSnapshot)
    requires d.primary == Holds(Pointer(GenerationOf(newest), Some(GenerationOf(previous))))
    requires Complete(d, GenerationOf(previous))
    ensures LoadSnapshot(d) == Some(newest) || LoadSnapshot(d) == Some(previous)
    ensures LoadSnapshot(d) == Some(newest) <==> Complete(d, GenerationOf(newest)) || newest == previous
  {
    LoadsExactly(d, previous);
    if Complete(d, GenerationOf(newest)) {
      LoadsExactly(d, newest);
    }
  }

  /**
   What a save replaces is there again when the files of what it saved are damaged: `before` is the disk on
   which the save found a generation that loads, and `d` any disk whose pointer the save has written.
   */
  lemma DamageBringsBack(before: Disk, d: Disk, snapshot: WorkspaceSnapshot, g: Generation)
    requires LoadsAs(before) == Restores(g) && Complete(d, g) && !Complete(d, GenerationOf(snapshot))
    requires ReadPointer(d) == Ok(Some(Pointer(GenerationOf(snapshot), Some(g))))
    ensures LoadSnapshot(d) == LoadSnapshot(before) && LoadSnapshot(d).Some?
  {
    LoadIsDetermined(before, d, g);
  }

  function Contents(snapshot: WorkspaceSnapshot): set<Bytes> {
    set b, p | b in snapshot.branches && p in snapshot.branches[b].overlay.files ::
      snapshot.branches[b].overlay.files[p]
  }

  lemma ReferencedContents(snapshot: WorkspaceSnapshot)
    ensures forall r | r in References(Encode(snapshot)) ::
      r.sha256.content in Contents(snapshot) && r.size == |r.sha256.content|
  {
  }
}
