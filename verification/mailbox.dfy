/**
 The mailbox between tabs: packets cut into chunks under unique keys of a storage that other tabs read,
 write and clean up between any two accesses. The tabs share one clock, which never goes back.
 */
module Mailboxes {
  import opened Wrappers

  const CHUNK_CHARS := 256 * 1024
  const MAX_PACKET_CHARS := 32 * 1024 * 1024
  const MAX_CHUNKS := 128
  const MAX_MESSAGES := 1024
  const MAX_KEYS := 2048
  const RETENTION_MS := 90_000
  const MAX_STORED_CHARS := 96 * 1024 * 1024

  /** The id carries the time its send began. */
  datatype Id = Id(createdAt: nat, token: nat)

  datatype Manifest = Manifest(count: nat, size: nat) | Malformed

  datatype Name = ChunkName(id: Id, index: nat) | ManifestName(id: Id)

  // ---------------------------------------------------------------- chunking

  function Least(a: nat, b: nat): nat {
    if a < b then a else b
  }

  function ChunkCount(length: nat, chars: nat): nat
    requires chars > 0
  {
    if length == 0 then 1 else (length + chars - 1) / chars
  }

  /** `packet.slice(index * chars, (index + 1) * chars)`, which stops at the end of the packet. */
  function Chunk(packet: string, chars: nat, index: nat): string {
    var from, to := Least(index * chars, |packet|), Least((index + 1) * chars, |packet|);
    assert (index + 1) * chars == index * chars + chars;
    packet[from..to]
  }

  function Joined(packet: string, chars: nat, count: nat): string {
    if count == 0 then "" else Joined(packet, chars, count - 1) + Chunk(packet, chars, count - 1)
  }

  lemma {:induction false} JoinedIsPrefix(packet: string, chars: nat, count: nat)
    ensures Joined(packet, chars, count) == packet[..Least(count * chars, |packet|)]
  {
    if count > 0 {
      JoinedIsPrefix(packet, chars, count - 1);
      assert count * chars == (count - 1) * chars + chars;
    }
  }

  lemma CountCovers(length: nat, chars: nat)
    requires chars > 0
    ensures ChunkCount(length, chars) * chars >= length
    ensures length > 0 ==> (ChunkCount(length, chars) - 1) * chars < length
  {
    var q := (length + chars - 1) / chars;
    assert length + chars - 1 == q * chars + (length + chars - 1) % chars;
    assert (q - 1) * chars == q * chars - chars;
  }

  /** Reassembly is the inverse of chunking, at every length and chunk size. */
  lemma ChunksRejoin(packet: string, chars: nat)
    requires chars > 0
    ensures Joined(packet, chars, ChunkCount(|packet|, chars)) == packet
    ensures forall i :: |Chunk(packet, chars, i)| <= chars
  {
    JoinedIsPrefix(packet, chars, ChunkCount(|packet|, chars));
    CountCovers(|packet|, chars);
    forall i: nat ensures |Chunk(packet, chars, i)| <= chars {
      assert (i + 1) * chars == i * chars + chars;
    }
  }

  lemma ChunkFits(packet: string, index: nat)
    ensures |Chunk(packet, CHUNK_CHARS, index)| <= CHUNK_CHARS
  {
    ChunksRejoin(packet, CHUNK_CHARS);
  }

  function Count(packet: string): nat {
    ChunkCount(|packet|, CHUNK_CHARS)
  }

  /** `isManifest`. */
  predicate IsManifest(manifest: Manifest) {
    manifest.Manifest? && 1 <= manifest.count <= MAX_CHUNKS && manifest.size <= MAX_PACKET_CHARS
  }

  /** Every packet that may be sent has a manifest that is accepted. */
  lemma SentManifestsAreAccepted(packet: string)
    ensures |packet| <= MAX_PACKET_CHARS ==> IsManifest(Manifest(Count(packet), |packet|))
    ensures |packet| > MAX_PACKET_CHARS ==> !IsManifest(Manifest(Count(packet), |packet|))
  {
    CountCovers(|packet|, CHUNK_CHARS);
  }

  // ---------------------------------------------------------------- the shared storage

  datatype StorageState = StorageState(
    chunks: map<(Id, nat), string>, manifests: map<Id, Manifest>, clock: nat, sent: map<Id, string>, posted: set<Id>)

  /** What the storage may become while a tab that sends `mine` waits. */
  predicate Follows(before: StorageState, after: StorageState, mine: set<Id>) {
    && after.clock >= before.clock && before.posted <= after.posted
    && (forall id | id in before.sent :: id in after.sent && after.sent[id] == before.sent[id])
    && (forall id | id in after.manifests && id in before.posted ::
          id in before.manifests && after.manifests[id] == before.manifests[id])
    && (forall k | k in after.chunks && k.0 in before.posted :: k in before.chunks)
    && (forall id | id in mine && id in after.posted :: id in before.posted)
  }

  class GmStorage {
    var chunks: map<(Id, nat), string>
    var manifests: map<Id, Manifest>
    var clock: nat
    /** The packets whose sending has begun, and the ids whose manifest has been written. */
    var sent: map<Id, string>
    var posted: set<Id>

    /** Keys hold what their sender wrote; a manifest may also be damaged, but never names other content. */
    predicate Honest()
      reads this
    {
      && (forall k | k in chunks :: Belongs(k.0, k.1) && chunks[k] == Chunk(sent[k.0], CHUNK_CHARS, k.1))
      && (forall id | id in manifests ::
            id in posted && id in sent && manifests[id] in {Malformed, Manifest(Count(sent[id]), |sent[id]|)})
      && (forall id | id in posted :: id in sent)
      && (forall id | id in sent :: id.createdAt <= clock && |sent[id]| <= MAX_PACKET_CHARS)
    }

    predicate Belongs(id: Id, index: nat)
      reads `sent
    {
      id in sent && index < Count(sent[id])
    }

    /** A chunk of the message is gone. */
    ghost predicate Broken(id: Id)
      reads `sent, `chunks
    {
      exists i: nat :: Belongs(id, i) && (id, i) !in chunks
    }

    /**
     What other tabs may do while this one waits: send new packets and delete anything. A message is
     written once, by its sender; `mine` are the ids this tab is sending.
     */
    method Others(mine: set<Id>)
      requires Honest()
      modifies this
      ensures Honest() && Follows(old(Contents()), Contents(), mine)
    {
      var before := Contents();
      chunks, manifests, clock, sent, posted := *, *, *, *, *;
      if !Honest() || !Follows(before, Contents(), mine) {
        chunks, manifests, clock := before.chunks, before.manifests, before.clock;
        sent, posted := before.sent, before.posted;
      }
    }

    function Contents(): StorageState
      reads this
    {
      StorageState(chunks, manifests, clock, sent, posted)
    }

    method Delete(name: Name)
      requires Honest()
      modifies `chunks, `manifests
      ensures Honest()
      ensures manifests == if name.ManifestName? then old(manifests) - {name.id} else old(manifests)
      ensures chunks == if name.ManifestName? then old(chunks) else old(chunks) - {(name.id, name.index)}
    {
      match name
      case ChunkName(id, index) => chunks := chunks - {(id, index)};
      case ManifestName(id) => manifests := manifests - {id};
    }

    function Names(): set<Name>
      reads this
    {
      (set k | k in chunks :: ChunkName(k.0, k.1)) + (set id | id in manifests :: ManifestName(id))
    }
  }

  // ---------------------------------------------------------------- deliveries

  datatype Delivery = Delivery(id: Id, packet: string)

  /** The id's packet has been delivered, and is not empty. */
  ghost predicate Delivered(log: seq<Delivery>, id: Id) {
    exists d | d in log :: d.id == id && d.packet != ""
  }

  /** Every packet arrives whole, as it was sent, and no packet but an empty one arrives twice. */
  ghost predicate Faithful(log: seq<Delivery>, sent: map<Id, string>, posted: set<Id>) {
    && (forall d | d in log :: d.id in posted && d.id in sent && d.packet == sent[d.id])
    && (forall i, j | 0 <= i < j < |log| && log[i].packet != "" :: log[i].id != log[j].id)
  }

  lemma FaithfulGrows(log: seq<Delivery>, sent: map<Id, string>, posted: set<Id>, d: Delivery)
    requires Faithful(log, sent, posted) && !Delivered(log, d.id)
    requires d.id in posted && d.id in sent && d.packet == sent[d.id]
    ensures Faithful(log + [d], sent, posted)
    ensures forall id | Delivered(log + [d], id) :: Delivered(log, id) || id == d.id
  {
    assert forall e :: e in log + [d] <==> e in log || e == d;
    assert forall i | 0 <= i < |log| :: log[i] in log;
  }

  lemma DeliveredIsPosted(log: seq<Delivery>, sent: map<Id, string>, posted: set<Id>, id: Id)
    requires Faithful(log, sent, posted) && Delivered(log, id)
    ensures id in posted && id in sent && sent[id] != ""
  {
  }

  /** The reading loop of `poll` on chunks that do not change meanwhile. */
  function ReadFrom(chunks: map<(Id, nat), string>, id: Id, index: nat, count: nat, packet: string): string
    decreases count - index
  {
    if index >= count then packet
    else if (id, index) !in chunks || |chunks[(id, index)]| > CHUNK_CHARS then ""
    else ReadFrom(chunks, id, index + 1, count, packet + chunks[(id, index)])
  }

  lemma {:induction false} MissingChunkReadsNothing(
      chunks: map<(Id, nat), string>, id: Id, index: nat, count: nat, packet: string, missing: nat)
    requires index <= missing < count && (id, missing) !in chunks
    ensures ReadFrom(chunks, id, index, count, packet) == ""
    decreases count - index
  {
    if index < missing && (id, index) in chunks && |chunks[(id, index)]| <= CHUNK_CHARS {
      MissingChunkReadsNothing(chunks, id, index + 1, count, packet + chunks[(id, index)], missing);
    }
  }

  /** A message with a chunk gone passes the length check exactly when the packet sent was empty. */
  lemma BrokenPassesIffEmpty(chunks: map<(Id, nat), string>, id: Id, packet: string, missing: nat)
    requires missing < Count(packet) && (id, missing) !in chunks
    ensures |ReadFrom(chunks, id, 0, Count(packet), "")| == |packet| <==> packet == ""
  {
    MissingChunkReadsNothing(chunks, id, 0, Count(packet), "", missing);
  }

  // ---------------------------------------------------------------- the mailbox

  class GmMailbox {
    const storage: GmStorage
    var seen: map<Id, nat>
    /** The ids this tab is sending, and what its receiver was given. */
    var sending: set<Id>
    ghost var delivered: seq<Delivery>
    /** How often the storage has thrown. */
    ghost var failures: nat

    /** Between polls, wherever the last one stopped. */
    ghost predicate Valid()
      reads this, storage
    {
      Polling(None)
    }

    /** `left` are the names that the poll under way still has to look at. */
    ghost predicate Polling(left: Option<set<Name>>)
      reads this, storage
    {
      && storage.Honest() && Faithful(delivered, storage.sent, storage.posted) && Dated() && Remembered(left)
      && (forall name | left.Some? && name in left.value && name.ChunkName? :: storage.Belongs(name.id, name.index))
      && (forall id | id in sending :: id in storage.sent)
    }

    ghost predicate Dated()
      reads this, storage
    {
      forall id | id in seen :: id.createdAt <= seen[id] <= storage.clock
    }

    /**
     What was delivered is remembered for as long as it could be delivered again: until its manifest or
     a chunk is gone, or it is so old that a poll deletes the manifest before it delivers anything.
     */
    ghost predicate Remembered(left: Option<set<Name>>)
      reads this, storage
    {
      forall id | Delivered(delivered, id) :: Safe(id, left)
    }

    ghost predicate Safe(id: Id, left: Option<set<Name>>)
      reads this, storage
    {
      || id in seen || id !in storage.manifests || storage.Broken(id)
      || ((left.Some? ==> ManifestName(id) in left.value) && storage.clock - id.createdAt > RETENTION_MS)
    }

    /** The packets this tab is sending, and which of them have their manifest. */
    ghost function Outgoing(): (map<Id, string>, set<Id>)
      reads this, storage
    {
      (map id | id in sending && id in storage.sent :: storage.sent[id], sending * storage.posted)
    }

    constructor (shared: GmStorage)
      requires shared.Honest()
      ensures Valid() && storage == shared && delivered == [] && sending == {}
    {
      storage, seen, sending, delivered := shared, map[], {}, [];
    }

    /** The tab waits for the storage. */
    method Wait(ghost left: Option<set<Name>>)
      requires Polling(left)
      modifies storage
      ensures Polling(left) && Outgoing() == old(Outgoing())
      ensures storage.clock >= old(storage.clock) && old(storage.posted) <= storage.posted
      ensures forall id | id in old(storage.sent) :: id in storage.sent && storage.sent[id] == old(storage.sent)[id]
      ensures forall id | id in storage.manifests && id in old(storage.posted) ::
        id in old(storage.manifests) && storage.manifests[id] == old(storage.manifests)[id]
      ensures forall id | id in old(storage.posted) && Intact(id) :: old(Intact(id))
      ensures forall k | k in storage.chunks && k.0 in old(storage.posted) :: k in old(storage.chunks)
    {
      storage.Others(sending);
      assert Outgoing().0 == old(Outgoing().0) && Outgoing().1 == old(Outgoing().1);
    }

    /** The message can be read: a sound manifest, and no chunk missing. */
    ghost predicate Intact(id: Id)
      reads storage
    {
      id in storage.manifests && storage.manifests[id] != Malformed && !storage.Broken(id)
    }

    /** The message has been handed to the receiver, or can no longer be. */
    ghost predicate Done(id: Id)
      reads this, storage
    {
      Intact(id) ==> exists d :: d in delivered && d.id == id
    }

    /** An access to the storage may throw. */
    method Access(ghost left: Option<set<Name>>) returns (done: bool)
      requires Polling(left)
      modifies `failures
      ensures Polling(left) && Valid() && Outgoing() == old(Outgoing())
      ensures failures == old(failures) + if done then 0 else 1
    {
      done := *;
      if !done {
        failures := failures + 1;
      }
    }

    /** Reading the clock takes time. */
    method Now(ghost left: Option<set<Name>>) returns (now: nat)
      requires Polling(left)
      modifies storage`clock
      ensures Polling(left) && now == storage.clock >= old(storage.clock)
    {
      var elapsed: int := *;
      if elapsed > 0 {
        storage.clock := storage.clock + elapsed;
      }
      now := storage.clock;
    }

    /**
     `poll`: forgets and deletes what is too old, then delivers every new complete message. Any access to the
     storage may throw, which ends the poll there.
     */
    method Poll() returns (r: Result<()>, ghost listed: set<Id>)
      requires Valid()
      modifies this, storage
      ensures Valid() && old(delivered) <= delivered && Outgoing() == old(Outgoing()) && sending == old(sending)
      ensures listed <= storage.posted
      ensures r.Ok? ==> forall id | id in old(storage.posted) && Intact(id) :: id in listed
      ensures r.Ok? && |listed| <= MAX_MESSAGES ==> forall id | id in listed && id !in old(seen) :: Done(id)
      ensures failures >= old(failures)
      ensures r.Err? ==> failures > old(failures) || (r.code == RateLimited && |storage.Names()| > MAX_KEYS)
    {
      hide Polling, Outgoing, Safe, Done;
      r := CleanUp();
      listed := storage.manifests.Keys;
      ManifestsArePosted();
      if r.Ok? {
        r := DeliverNew();
        StopsAnywhere({});
      }
    }

    lemma ManifestsArePosted()
      requires Valid()
      ensures storage.manifests.Keys <= storage.posted
    {
    }

    /** A poll may stop at any point. */
    lemma StopsAnywhere(left: set<Name>)
      requires Polling(Some(left))
      ensures Valid()
    {
    }

    /** The next poll looks at every manifest. */
    lemma StartsPolling()
      requires Valid()
      ensures Polling(Some(storage.Names()))
    {
    }

    /** Ends before any delivery when the storage fails or the mailbox holds too many keys. */
    method CleanUp() returns (r: Result<()>)
      requires Valid()
      modifies `seen, `failures, storage
      ensures Valid() && Outgoing() == old(Outgoing()) && old(storage.posted) <= storage.posted
      ensures failures >= old(failures)
      ensures r.Err? ==> failures > old(failures) || (r.code == RateLimited && |storage.Names()| > MAX_KEYS)
      ensures seen.Keys <= old(seen).Keys && (r.Ok? ==> Polling(Some({})))
    {
      hide Polling;
      Wait(None);
      var accessed := Access(None);
      if !accessed {
        return Err(Offline);
      }
      var names := storage.Names();
      StartsPolling();
      ForgetOld(names);
      var deleted := DeleteOld(names);
      if !deleted {
        return Err(Offline);
      }
      Wait(Some({}));
      accessed := Access(Some({}));
      return if !accessed then Err(Offline) else if |storage.Names()| > MAX_KEYS then Err(RateLimited) else Ok(());
    }

    /** At most so many messages in one poll; each of them that was not seen before is dealt with. */
    method DeliverNew() returns (r: Result<()>)
      requires Polling(Some({}))
      modifies this, storage
      ensures Polling(Some({})) && old(delivered) <= delivered
      ensures Outgoing() == old(Outgoing()) && sending == old(sending)
      ensures old(storage.posted) <= storage.posted
      ensures forall id | id in old(storage.posted) && Intact(id) :: old(Intact(id))
      ensures r.Ok? && |old(storage.manifests)| <= MAX_MESSAGES ==>
        forall id | id in old(storage.manifests) && id !in old(seen) :: Done(id)
      ensures failures >= old(failures) && (r.Err? ==> failures > old(failures))
    {
      hide Polling, Outgoing, Intact, Done;
      StopsAnywhere({});
      ManifestsArePosted();
      ghost var listed := storage.manifests;
      var left := storage.manifests.Keys;
      var room := MAX_MESSAGES;
      while left != {} && room > 0
        invariant Polling(Some({})) && Outgoing() == old(Outgoing()) && sending == old(sending)
        invariant left <= listed.Keys && listed.Keys <= storage.posted && old(storage.posted) <= storage.posted
        invariant forall id | id in old(storage.posted) && Intact(id) :: old(Intact(id))
        invariant |listed| <= MAX_MESSAGES ==> |left| <= room
        invariant failures >= old(failures)
        invariant Progress(listed.Keys - left, left, old(seen).Keys, old(delivered))
        decreases room
      {
        var id :| id in left;
        if id !in seen {
          label before:
          var done := DeliverOne(id);
          DoneStays@before();
          if !done {
            return Err(Offline);
          }
        }
        left := left - {id};
        room := room - 1;
      }
      return Ok(());
    }

    twostate lemma DoneStays()
      requires old(delivered) <= delivered
      requires forall id | id in old(storage.posted) && Intact(id) :: old(Intact(id))
      ensures forall id | id in old(storage.posted) && old(Done(id)) :: Done(id)
    {
    }

    /** What has been looked at is dealt with, and nothing else has become seen. */
    ghost predicate Progress(looked: set<Id>, left: set<Id>, before: set<Id>, was: seq<Delivery>)
      reads this, storage
    {
      && was <= delivered
      && (forall id | id in looked && id !in before :: Done(id))
      && (forall id | id in left && id in seen :: id in before)
    }

    method ForgetOld(names: set<Name>)
      requires Polling(Some(names)) && names == storage.Names()
      modifies `seen, storage`clock
      ensures Polling(Some(names)) && seen.Keys <= old(seen).Keys
    {
      var left := seen.Keys;
      while left != {}
        invariant left <= seen.Keys <= old(seen).Keys && Polling(Some(names))
      {
        var id :| id in left;
        left := left - {id};
        var now := Now(Some(names));
        if now - seen[id] > RETENTION_MS {
          seen := seen - {id};
        }
      }
    }

    method DeleteOld(names: set<Name>) returns (done: bool)
      requires Polling(Some(names))
      modifies `seen, `failures, storage
      ensures failures >= old(failures) && (!done ==> failures > old(failures))
      ensures Valid() && (done ==> Polling(Some({}))) && Outgoing() == old(Outgoing())
      ensures seen.Keys <= old(seen).Keys && old(storage.posted) <= storage.posted
    {
      hide Polling;
      var left := names;
      StopsAnywhere(names);
      while left != {}
        invariant Polling(Some(left)) && Valid() && Outgoing() == old(Outgoing())
        invariant failures >= old(failures)
        invariant seen.Keys <= old(seen).Keys && old(storage.posted) <= storage.posted
      {
        var name :| name in left;
        done := DeleteIfOld(name, left);
        if !done {
          return false;
        }
        left := left - {name};
        StopsAnywhere(left);
      }
      return true;
    }

    /** When deleting throws, the entry may be gone or not. */
    method DeleteIfOld(name: Name, ghost left: set<Name>) returns (done: bool)
      requires Polling(Some(left)) && name in left
      modifies `seen, `failures, storage
      ensures failures >= old(failures) && (!done ==> failures > old(failures))
      ensures Valid() && (done ==> Polling(Some(left - {name}))) && Outgoing() == old(Outgoing())
      ensures seen.Keys <= old(seen).Keys && old(storage.posted) <= storage.posted
    {
      hide Faithful, Delivered;
      if Delivered(delivered, name.id) {
        DeliveredIsPosted(delivered, storage.sent, storage.posted, name.id);
      }
      var now := Now(Some(left));
      if name.id.createdAt > now + RETENTION_MS || now - name.id.createdAt > RETENTION_MS {
        var accessed := Access(Some(left));
        if !accessed {
          StopsAnywhere(left);
          return false;
        }
        Remove(name, left);
        Wait(Some(left - {name}));
        accessed := Access(Some(left - {name}));
        if !accessed {
          return false;
        }
        Forget(name.id, left - {name});
      }
      StopsAnywhere(left - {name});
      return true;
    }

    method Remove(name: Name, ghost left: set<Name>)
      requires Polling(Some(left)) && name in left
      modifies storage`chunks, storage`manifests
      ensures Polling(Some(left - {name})) && (name.id in storage.manifests ==> storage.Broken(name.id))
    {
      hide Faithful, Delivered;
      storage.Delete(name);
      if name.ChunkName? {
        assert storage.Belongs(name.id, name.index) && (name.id, name.index) !in storage.chunks;
      }
    }

    method Forget(id: Id, ghost left: set<Name>)
      requires Polling(Some(left)) && (Delivered(delivered, id) && id in storage.manifests ==> storage.Broken(id))
      modifies `seen
      ensures Polling(Some(left)) && seen == old(seen) - {id}
    {
      hide Faithful, Delivered;
      seen := seen - {id};
    }

    /** One message: delivered if its manifest and all its chunks are there, and stay until they are read. */
    method DeliverOne(id: Id) returns (done: bool)
      requires Polling(Some({})) && id !in seen && id in storage.posted
      modifies `seen, `delivered, `failures, storage
      ensures failures >= old(failures) && (!done ==> failures > old(failures))
      ensures Polling(Some({})) && old(delivered) <= delivered && Outgoing() == old(Outgoing())
      ensures (done ==> Done(id)) && seen.Keys <= old(seen).Keys + {id}
      ensures old(storage.posted) <= storage.posted
      ensures forall id | id in old(storage.posted) && Intact(id) :: old(Intact(id))
    {
      hide Chunk, ChunkCount, Faithful, Joined;
      Wait(Some({}));
      var accessed := Access(Some({}));
      if !accessed {
        return false;
      }
      var manifest := if id in storage.manifests then storage.manifests[id] else Malformed;
      if !IsManifest(manifest) {
        MarkSeen(id, Some({}));
        SentManifestsAreAccepted(storage.sent[id]);
        return true;
      }
      done := DeliverRead(id, manifest);
    }

    /** The rest of `DeliverOne` once the manifest is read and sound. */
    method DeliverRead(id: Id, manifest: Manifest) returns (done: bool)
      requires Polling(Some({})) && id !in seen && id in storage.posted
      requires IsManifest(manifest) && id in storage.manifests && storage.manifests[id] == manifest
      modifies `seen, `delivered, `failures, storage
      ensures failures >= old(failures) && (!done ==> failures > old(failures))
      ensures Polling(Some({})) && old(delivered) <= delivered && Outgoing() == old(Outgoing())
      ensures (done ==> Done(id)) && seen.Keys <= old(seen).Keys + {id}
      ensures old(storage.posted) <= storage.posted
      ensures forall id | id in old(storage.posted) && Intact(id) :: old(Intact(id))
    {
      hide Chunk, ChunkCount, Faithful, Joined;
      if Delivered(delivered, id) {
        DeliveredIsPosted(delivered, storage.sent, storage.posted, id);
      }
      var packet := ReadChunks(id, manifest.count);
      if packet.Err? {
        return false;
      }
      ChunksRejoin(storage.sent[id], CHUNK_CHARS);
      if |packet.value| != manifest.size {
        return true;
      }
      Deliver(id, packet.value);
      return true;
    }

    method MarkSeen(id: Id, ghost left: Option<set<Name>>)
      requires Polling(left) && id in storage.sent
      modifies `seen, storage`clock
      ensures Polling(left) && seen.Keys == old(seen).Keys + {id}
    {
      var now := Now(left);
      seen := seen[id := now];
    }

    /** The chunks of one message, or nothing when one is missing. */
    method ReadChunks(id: Id, count: nat) returns (r: Result<string>)
      requires Polling(Some({})) && id in storage.posted && id in storage.sent && count == Count(storage.sent[id])
      modifies `failures, storage
      ensures failures >= old(failures) && (r.Err? ==> failures > old(failures))
      ensures Polling(Some({})) && Outgoing() == old(Outgoing())
      ensures id in storage.posted && id in storage.sent && storage.sent[id] == old(storage.sent)[id]
      ensures r.Ok? ==>
        r.value == "" || (r.value == Joined(storage.sent[id], CHUNK_CHARS, count) && !old(storage.Broken(id)))
      ensures r.Ok? ==> storage.Broken(id) || r.value == Joined(storage.sent[id], CHUNK_CHARS, count)
      ensures old(storage.posted) <= storage.posted
      ensures forall id | id in old(storage.posted) && Intact(id) :: old(Intact(id))
      ensures forall id | id in old(storage.sent) :: id in storage.sent
    {
      hide Chunk, ChunkCount, Faithful, Delivered;
      var packet := "";
      for index := 0 to count
        invariant Polling(Some({})) && Outgoing() == old(Outgoing())
        invariant id in storage.posted && id in storage.sent && storage.sent[id] == old(storage.sent)[id]
        invariant packet == Joined(storage.sent[id], CHUNK_CHARS, index)
        invariant failures == old(failures)
        invariant forall i: nat | i < index :: (id, i) in old(storage.chunks)
        invariant old(storage.posted) <= storage.posted
        invariant forall id | id in old(storage.posted) && Intact(id) :: old(Intact(id))
        invariant forall k | k in storage.chunks && k.0 == id :: k in old(storage.chunks)
        invariant forall id | id in old(storage.sent) :: id in storage.sent
      {
        Wait(Some({}));
        var accessed := Access(Some({}));
        if !accessed {
          return Err(Offline);
        }
        ChunkFits(storage.sent[id], index);
        if (id, index) !in storage.chunks || |storage.chunks[(id, index)]| > CHUNK_CHARS {
          assert storage.Belongs(id, index);
          return Ok("");
        }
        packet := packet + storage.chunks[(id, index)];
      }
      return Ok(packet);
    }

    method Deliver(id: Id, packet: string)
      requires Polling(Some({})) && !Delivered(delivered, id)
      requires id in storage.posted && id in storage.sent && packet == storage.sent[id]
      modifies `seen, `delivered, storage`clock
      ensures Polling(Some({})) && delivered == old(delivered) + [Delivery(id, packet)]
      ensures seen.Keys == old(seen).Keys + {id} && Done(id)
    {
      MarkSeen(id, Some({}));
      FaithfulGrows(delivered, storage.sent, storage.posted, Delivery(id, packet));
      delivered := delivered + [Delivery(id, packet)];
      assert delivered[|delivered| - 1].id == id;
    }

    /** `send`: the chunks, then the manifest. Other tabs act, and this tab polls, between any two writes. */
    method Send(packet: string, token: nat) returns (r: Result<Id>)
      requires Valid()
      modifies this, storage
      ensures Valid() && old(delivered) <= delivered
      ensures |packet| > MAX_PACKET_CHARS ==> r == Err(InvalidRequest)
      ensures r.Ok? ==> r.value in storage.posted && r.value in storage.sent && storage.sent[r.value] == packet
      ensures r.Ok? ==> r.value in seen
      ensures r.Err? && r.code == Offline ==> failures > old(failures)
    {
      hide Polling, Outgoing;
      if |packet| > MAX_PACKET_CHARS {
        return Err(InvalidRequest);
      }
      var polled, _ := Poll();
      if polled.Err? {
        return Err(polled.code);
      }
      var accessed := Access(None);
      var full := IsFull(|packet|);
      if !accessed || full {
        return Err(if accessed then RateLimited else Offline);
      }
      var now := Now(None);
      var id := Id(now, token);
      if id in storage.sent {
        return Err(RateLimited);
      }
      Begin(id, packet);
      var transmitted := Transmit(id, packet);
      return if transmitted then Ok(id) else Err(Offline);
    }

    /** Any write may throw, having taken effect or not. */
    method Transmit(id: Id, packet: string) returns (done: bool)
      requires Valid() && Sends(id, packet) && id !in storage.posted
      modifies this, storage
      ensures Valid() && old(delivered) <= delivered && Sends(id, packet)
      ensures done ==> id in storage.posted && id in seen
      ensures failures >= old(failures) && (!done ==> failures > old(failures))
    {
      hide Polling, Outgoing;
      var accessed: bool;
      for index := 0 to Count(packet)
        invariant Valid() && old(delivered) <= delivered && Sends(id, packet) && id !in storage.posted
        invariant failures >= old(failures)
      {
        accessed := Access(None);
        if !accessed {
          return false;
        }
        WriteChunk(id, packet, index);
        PollOrWait(id, packet);
      }
      accessed := Access(None);
      if !accessed {
        return false;
      }
      Post(id, packet);
      PollOrWait(id, packet);
      accessed := Access(None);
      if !accessed {
        return false;
      }
      MarkSeen(id, None);
      return true;
    }

    ghost predicate Sends(id: Id, packet: string)
      reads this, storage
    {
      id in sending && id in storage.sent && storage.sent[id] == packet
    }

    method PollOrWait(id: Id, packet: string)
      requires Valid() && Sends(id, packet)
      modifies this, storage
      ensures Valid() && old(delivered) <= delivered && Sends(id, packet)
      ensures id in storage.posted <==> id in old(storage.posted)
      ensures failures >= old(failures)
    {
      hide Polling;
      assert id in Outgoing().0 && (id in storage.posted <==> id in Outgoing().1);
      var timer: bool := *;
      if timer {
        var polled, _ := Poll();
      } else {
        Wait(None);
      }
      assert id in Outgoing().0 && (id in storage.posted <==> id in Outgoing().1);
    }

    method Begin(id: Id, packet: string)
      requires Valid() && id !in storage.sent && id.createdAt <= storage.clock && |packet| <= MAX_PACKET_CHARS
      modifies `sending, storage`sent
      ensures Valid() && Sends(id, packet) && id !in storage.posted
    {
      storage.sent := storage.sent[id := packet];
      sending := sending + {id};
    }

    method WriteChunk(id: Id, packet: string, index: nat)
      requires Valid() && Sends(id, packet) && id !in storage.posted && index < Count(packet)
      modifies storage`chunks
      ensures Valid() && storage.chunks == old(storage.chunks)[(id, index) := Chunk(packet, CHUNK_CHARS, index)]
    {
      storage.chunks := storage.chunks[(id, index) := Chunk(packet, CHUNK_CHARS, index)];
    }

    method Post(id: Id, packet: string)
      requires Valid() && Sends(id, packet) && id !in storage.posted
      modifies storage`manifests, storage`posted
      ensures Valid() && id in storage.posted
    {
      storage.manifests := storage.manifests[id := Manifest(Count(packet), |packet|)];
      storage.posted := storage.posted + {id};
    }

    method IsFull(length: nat) returns (full: bool)
      ensures |storage.Names()| >= MAX_KEYS ==> full
    {
      var stored := StoredChars();
      full :=
        |storage.Names()| >= MAX_KEYS || |storage.manifests| >= MAX_MESSAGES || stored + length > MAX_STORED_CHARS;
    }

    method StoredChars() returns (stored: nat)
    {
      stored := 0;
      var left := storage.manifests.Keys;
      while left != {}
        invariant left <= storage.manifests.Keys
      {
        var id :| id in left;
        left := left - {id};
        if IsManifest(storage.manifests[id]) {
          stored := stored + storage.manifests[id].size;
        }
      }
    }
  }
}
