/**
 The endpoint side of the cross-tab bridge. Frames are authenticated values that arrive in any order,
 any number of times, or never; every method below is one uninterrupted step of the endpoint, and the
 claims hold of any sequence of them.
 */
module RpcEndpoints {
  import opened Wrappers

  const MAX_ACTIVE_REQUESTS := 32
  const MAX_HOSTS := 32
  const MAX_REQUEST_IDS := 65_536
  const HOST_STALE_MS := 30_000
  const MAX_SAFE_INTEGER := 0x1F_FFFF_FFFF_FFFF

  type HostId = string
  type EndpointId = string

  datatype Key = Key(hostId: HostId, requestId: string)

  datatype Frame =
    | Hello(hostId: HostId)
    | Request(key: Key, endpointId: EndpointId, wellFormed: bool)
    | Cancel(key: Key, endpointId: EndpointId)
    | HostBound

  datatype HostState = HostState(counter: nat, lastSeen: int)

  datatype Progress = Running | Aborted

  /** What the endpoint does, in order. A refusal is a failure reply to a request that did not start. */
  datatype Action =
    | Started(key: Key)
    | CancelHeard(key: Key)
    | Answered(key: Key)
    | Refused(key: Key)
    | Announced(hostId: HostId, counter: nat)

  // ---------------------------------------------------------------- what the order of actions promises

  ghost predicate StartsOnce(log: seq<Action>) {
    forall i, j | 0 <= i < j < |log| && log[i].Started? && log[j].Started? :: log[i].key != log[j].key
  }

  /** Only what started is answered, and once. */
  ghost predicate AnswersOnce(log: seq<Action>) {
    && (forall i, j | 0 <= i < j < |log| && log[i].Answered? && log[j].Answered? :: log[i].key != log[j].key)
    && (forall j | 0 <= j < |log| && log[j].Answered? :: Started(log[j].key) in log[..j])
  }

  /** After a cancellation the handler neither starts nor answers. */
  ghost predicate CancelsHold(log: seq<Action>) {
    forall i, j | 0 <= i < j < |log| && log[i].CancelHeard? ::
      log[j] != Started(log[i].key) && log[j] != Answered(log[i].key)
  }

  ghost predicate Orderly(log: seq<Action>) {
    StartsOnce(log) && AnswersOnce(log) && CancelsHold(log)
  }

  /** When an action may come next. */
  ghost predicate MayFollow(log: seq<Action>, action: Action) {
    match action
    case Started(key) => Started(key) !in log && CancelHeard(key) !in log
    case Answered(key) => Started(key) in log && Answered(key) !in log && CancelHeard(key) !in log
    case _ => true
  }

  /** The three promises together are exactly that every action may follow the ones before it. */
  lemma OrderlyIffStepwise(log: seq<Action>)
    ensures Orderly(log) <==> forall j | 0 <= j < |log| :: MayFollow(log[..j], log[j])
  {
    if Orderly(log) {
      forall j | 0 <= j < |log| ensures MayFollow(log[..j], log[j]) {
        assert forall i | 0 <= i < j :: log[..j][i] == log[i];
      }
    }
    if forall j | 0 <= j < |log| :: MayFollow(log[..j], log[j]) {
      forall i, j | 0 <= i < j < |log| ensures log[i] in log[..j] {
        assert log[..j][i] == log[i];
      }
    }
  }

  lemma OrderlyGrows(log: seq<Action>, action: Action)
    requires Orderly(log) && MayFollow(log, action)
    ensures Orderly(log + [action])
  {
    var longer := log + [action];
    OrderlyIffStepwise(log);
    forall j | 0 <= j < |longer| ensures MayFollow(longer[..j], longer[j]) {
      assert longer[..j] == if j < |log| then log[..j] else log;
    }
    OrderlyIffStepwise(longer);
  }

  // ---------------------------------------------------------------- the endpoint

  /** The hosts that are not stale. */
  function Heard(hosts: map<HostId, HostState>, now: int): map<HostId, HostState> {
    map h | h in hosts && now - hosts[h].lastSeen <= HOST_STALE_MS :: hosts[h]
  }

  class BrowserRpcUserscriptEndpoint {
    const endpointId: EndpointId
    var active: map<Key, Progress>
    var hosts: map<HostId, HostState>
    var seenRequestIds: set<Key>
    var disposed: bool
    ghost var log: seq<Action>

    /** The bounds, the promises about the log, and what the collections remember of it. */
    ghost predicate Valid()
      reads this
    {
      && |active| <= MAX_ACTIVE_REQUESTS && |hosts| <= MAX_HOSTS && |seenRequestIds| <= MAX_REQUEST_IDS
      && Orderly(log)
      && (!disposed ==> Remembers() && Tracks())
    }

    ghost predicate Remembers()
      reads `seenRequestIds, `log
    {
      && (forall key | Started(key) in log :: key in seenRequestIds)
      && (forall key | CancelHeard(key) in log :: key in seenRequestIds || |seenRequestIds| == MAX_REQUEST_IDS)
    }

    ghost predicate Tracks()
      reads `active, `log
    {
      forall key | key in active ::
        && Started(key) in log && Answered(key) !in log
        && (CancelHeard(key) in log ==> active[key].Aborted?)
    }

    constructor (id: EndpointId)
      ensures Valid() && log == [] && endpointId == id && !disposed
    {
      endpointId, active, hosts, seenRequestIds, disposed, log := id, map[], map[], {}, false, [];
    }

    /** Any frame from the mailbox. A request or cancel counts only for this endpoint and from a known host. */
    method Receive(frame: Frame, now: int)
      requires Valid()
      modifies this
      ensures Valid() && disposed == old(disposed)
      ensures old(disposed) ==> log == old(log)
      ensures (frame.Request? || frame.Cancel?) ==> hosts == old(hosts)
      ensures (frame.Request? || frame.Cancel?) && (frame.endpointId != endpointId || frame.key.hostId !in hosts) ==>
        log == old(log) && active == old(active) && seenRequestIds == old(seenRequestIds)
      ensures frame.Cancel? && frame.endpointId == endpointId && frame.key.hostId in hosts && !disposed ==>
        && log == old(log) + [CancelHeard(frame.key)] && active.Keys == old(active).Keys
        && (frame.key in active ==> active[frame.key].Aborted?)
      ensures frame.Request? && frame.endpointId == endpointId && frame.key.hostId in hosts && !disposed ==>
        if frame.key in old(seenRequestIds) then log == old(log) && active == old(active)
        else if |old(seenRequestIds)| < MAX_REQUEST_IDS && |old(active)| < MAX_ACTIVE_REQUESTS && frame.wellFormed
        then log == old(log) + [Started(frame.key)] && active == old(active)[frame.key := Running]
        else log == old(log) + [Refused(frame.key)] && active == old(active)
      ensures frame.Hello? || frame.HostBound? ==> active == old(active) && seenRequestIds == old(seenRequestIds)
    {
      if disposed {
        return;
      }
      match frame
      case Hello(hostId) => Announce(hostId, now);
      case Request(key, endpoint, wellFormed) =>
        if Accepts(key, endpoint) {
          var outcome := HandleRequest(key, wellFormed);
        }
      case Cancel(key, endpoint) =>
        if Accepts(key, endpoint) {
          CancelRequest(key);
        }
      case HostBound =>
    }

    predicate Accepts(key: Key, endpoint: EndpointId)
      reads this
    {
      endpoint == endpointId && key.hostId in hosts
    }

    method SweepHosts(now: int)
      modifies `hosts
      ensures hosts == Heard(old(hosts), now)
      ensures |hosts| <= |old(hosts)|
    {
      hosts := Heard(hosts, now);
      SubsetSize(hosts.Keys, old(hosts).Keys);
    }

    method NextCounter(hostId: HostId, now: int) returns (r: Result<nat>)
      requires hostId in hosts || |hosts| < MAX_HOSTS
      requires |hosts| <= MAX_HOSTS
      modifies `hosts
      ensures |hosts| <= MAX_HOSTS
      ensures r.Ok? ==> r.value == (if hostId in old(hosts) then old(hosts)[hostId].counter else 0) + 1
      ensures r.Err? ==> hosts == old(hosts) && hostId in old(hosts) && old(hosts)[hostId].counter >= MAX_SAFE_INTEGER
      ensures r.Ok? ==>
        var lastSeen := if hostId in old(hosts) then old(hosts)[hostId].lastSeen else now;
        hosts == old(hosts)[hostId := HostState(r.value, lastSeen)]
    {
      var counter := if hostId in hosts then hosts[hostId].counter + 1 else 1;
      if counter > MAX_SAFE_INTEGER {
        return Err(RateLimited);
      }
      hosts := hosts[hostId := HostState(counter, if hostId in hosts then hosts[hostId].lastSeen else now)];
      return Ok(counter);
    }

    method Touch(hostId: HostId, now: int)
      modifies `hosts
      ensures |hosts| == |old(hosts)|
      ensures hosts ==
        if hostId in old(hosts) then old(hosts)[hostId := HostState(old(hosts)[hostId].counter, now)] else old(hosts)
    {
      if hostId in hosts {
        hosts := hosts[hostId := hosts[hostId].(lastSeen := now)];
      }
    }

    /** A hello is answered by a registration with the next counter, unless too many hosts are known. */
    method Announce(hostId: HostId, now: int)
      requires Valid() && !disposed
      modifies `hosts, `log
      ensures Valid()
      ensures
        var kept := Heard(old(hosts), now);
        var counter := (if hostId in kept then kept[hostId].counter else 0) + 1;
        if hostId !in kept && |kept| >= MAX_HOSTS then hosts == kept && log == old(log)
        else counter <= MAX_SAFE_INTEGER ==>
          hosts == kept[hostId := HostState(counter, now)] && log == old(log) + [Announced(hostId, counter)]
      ensures forall h | h != hostId ::
        && (h in hosts <==> h in old(hosts) && now - old(hosts)[h].lastSeen <= HOST_STALE_MS)
        && (h in hosts ==> hosts[h] == old(hosts)[h])
      ensures hostId in hosts && hostId in old(hosts) && now - old(hosts)[hostId].lastSeen > HOST_STALE_MS ==>
        hosts[hostId].counter == 1
    {
      hide Orderly, Remembers, Tracks;
      SweepHosts(now);
      if hostId !in hosts && |hosts| >= MAX_HOSTS {
        return;
      }
      Touch(hostId, now);
      var counter := NextCounter(hostId, now);
      if counter.Ok? {
        Note(Announced(hostId, counter.value));
      }
    }

    /** Cancellation may overtake its request: the key is remembered even when nothing runs under it. */
    method CancelRequest(key: Key)
      requires Valid() && !disposed
      modifies `seenRequestIds, `active, `log
      ensures Valid() && log == old(log) + [CancelHeard(key)]
      ensures active.Keys == old(active).Keys && (key in active ==> active[key].Aborted?)
    {
      hide Orderly;
      if |seenRequestIds| < MAX_REQUEST_IDS {
        seenRequestIds := seenRequestIds + {key};
      }
      if key in active {
        active := active[key := Aborted];
      }
      OrderlyGrows(log, CancelHeard(key));
      log := log + [CancelHeard(key)];
    }

    /** The handler starts for a request never seen or cancelled before, when there is room. */
    method HandleRequest(key: Key, wellFormed: bool) returns (started: bool)
      requires Valid() && !disposed
      modifies `seenRequestIds, `active, `log
      ensures Valid()
      ensures started <==>
        && key !in old(seenRequestIds) && |old(seenRequestIds)| < MAX_REQUEST_IDS
        && |old(active)| < MAX_ACTIVE_REQUESTS && wellFormed
      ensures started ==> log == old(log) + [Started(key)] && active == old(active)[key := Running]
      ensures !started ==> active == old(active)
      ensures key in old(seenRequestIds) ==> log == old(log)
      ensures !started && key !in old(seenRequestIds) ==> log == old(log) + [Refused(key)]
    {
      started := false;
      if key in seenRequestIds {
        return;
      }
      if |seenRequestIds| >= MAX_REQUEST_IDS {
        Note(Refused(key));
        return;
      }
      hide Orderly;
      assert Started(key) !in log && CancelHeard(key) !in log;
      seenRequestIds := seenRequestIds + {key};
      if |active| >= MAX_ACTIVE_REQUESTS || !wellFormed {
        Note(Refused(key));
        return;
      }
      Start(key);
      started := true;
    }

    method Start(key: Key)
      requires Valid() && !disposed && |active| < MAX_ACTIVE_REQUESTS
      requires key in seenRequestIds && Started(key) !in log && CancelHeard(key) !in log
      modifies `active, `log
      ensures Valid() && log == old(log) + [Started(key)] && active == old(active)[key := Running]
    {
      hide Orderly;
      assert key !in active;
      AnsweredWereStarted(log, key);
      OrderlyGrows(log, Started(key));
      active := active[key := Running];
      log := log + [Started(key)];
    }

    /** Actions that no promise speaks of. */
    ghost method Note(action: Action)
      requires Valid() && (action.Announced? || action.Refused?)
      modifies `log
      ensures Valid() && log == old(log) + [action]
    {
      hide Orderly;
      OrderlyGrows(log, action);
      log := log + [action];
    }

    /** The request's own timer, or the shutdown, aborts it. */
    method Abort(key: Key)
      requires Valid()
      modifies `active
      ensures Valid() && active.Keys == old(active).Keys && (key in active ==> active[key].Aborted?)
    {
      if key in active {
        active := active[key := Aborted];
      }
    }

    /** The handler ends, or its abort ends the wait for it. What was aborted is not answered. */
    method Settle(key: Key) returns (answered: bool)
      requires Valid()
      modifies `active, `log
      ensures Valid() && active == old(active) - {key}
      ensures answered <==> key in old(active) && old(active)[key].Running? && !disposed
      ensures log == if answered then old(log) + [Answered(key)] else old(log)
    {
      hide Orderly;
      answered := key in active && active[key].Running? && !disposed;
      SubsetSize((active - {key}).Keys, active.Keys);
      if answered {
        OrderlyGrows(log, Answered(key));
        log := log + [Answered(key)];
      }
      active := active - {key};
    }

    /** Shutdown begins: every running request is aborted and forgotten while the goodbyes are sent. */
    method BeginDispose()
      requires Valid()
      modifies `active
      ensures Valid() && active == map[]
    {
      active := map[];
    }

    method EndDispose()
      requires Valid()
      modifies `disposed, `hosts, `seenRequestIds
      ensures Valid() && disposed
    {
      disposed, hosts, seenRequestIds := true, map[], {};
    }
  }

  lemma AnsweredWereStarted(log: seq<Action>, key: Key)
    requires Orderly(log) && Started(key) !in log
    ensures Answered(key) !in log
  {
    forall j | 0 <= j < |log| && log[j].Answered? ensures log[j].key != key {
      assert Started(log[j].key) in log[..j];
      assert forall action | action in log[..j] :: action in log;
    }
  }

  lemma SubsetSize<T>(small: set<T>, large: set<T>)
    requires small <= large
    ensures |small| <= |large|
  {
    if small != {} {
      var x :| x in small;
      SubsetSize(small - {x}, large - {x});
    }
  }
}
