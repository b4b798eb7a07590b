/**
 The host side of the cross-tab bridge: endpoint sessions and pending requests, changed by frames in
 any order, by timers, and by callers. Every method below is one uninterrupted step.
 */
module RpcHosts {
  import opened Wrappers

  const MAX_ENDPOINTS := 32
  const MAX_PENDING := 32
  const STALE_MS := 15_000
  const MAX_SESSION_IDS := 4096

  type EndpointId = string
  type RequestId = string

  datatype Claim = Claim(origin: string, target: string, session: string)

  datatype EndpointState = EndpointState(claim: Claim, counter: int, lastSeen: int)

  /** How a request's promise was settled. */
  datatype Settlement = Response(from: EndpointId) | Failure

  /** Registrations with the broker, disconnects heard of endpoints not registered, and the requests' fates. */
  datatype Action =
    | Registered(endpoint: EndpointId)
    | TurnedAway(endpoint: EndpointId)
    | Asked(request: RequestId, endpoint: EndpointId)
    | Settled(request: RequestId, how: Settlement)

  // ---------------------------------------------------------------- what the order of actions promises

  /** An endpoint is registered at most once, and never after a disconnect that overtook its registration. */
  ghost predicate RegistersOnce(log: seq<Action>) {
    forall i, j | 0 <= i < j < |log| && log[j].Registered? ::
      log[i] != Registered(log[j].endpoint) && log[i] != TurnedAway(log[j].endpoint)
  }

  /** A request is sent once, to a registered endpoint. */
  ghost predicate AsksOnce(log: seq<Action>) {
    && (forall i, j | 0 <= i < j < |log| && log[i].Asked? && log[j].Asked? :: log[i].request != log[j].request)
    && (forall j | 0 <= j < |log| && log[j].Asked? :: Registered(log[j].endpoint) in log[..j])
  }

  /** A request settles at most once and only after it was sent, and a response is of the endpoint it was sent to. */
  ghost predicate SettlesOnce(log: seq<Action>) {
    && (forall i, j | 0 <= i < j < |log| && log[i].Settled? && log[j].Settled? :: log[i].request != log[j].request)
    && (forall j | 0 <= j < |log| && log[j].Settled? :: exists e :: Asked(log[j].request, e) in log[..j])
    && (forall j, e | 0 <= j < |log| && log[j].Settled? && log[j].how.Response? && Asked(log[j].request, e) in log ::
          log[j].how.from == e)
  }

  ghost predicate Orderly(log: seq<Action>) {
    RegistersOnce(log) && AsksOnce(log) && SettlesOnce(log)
  }

  /** When an action may come next. */
  ghost predicate MayFollow(log: seq<Action>, action: Action) {
    match action
    case Registered(e) => Registered(e) !in log && TurnedAway(e) !in log
    case TurnedAway(_) => true
    case Asked(r, e) => Registered(e) in log && Unused(log, r)
    case Settled(r, how) =>
      && Unsettled(log, r)
      && exists e :: Asked(r, e) in log && (how.Response? ==> how.from == e)
  }

  predicate Mentions(action: Action, request: RequestId) {
    (action.Asked? || action.Settled?) && action.request == request
  }

  ghost predicate Unused(log: seq<Action>, request: RequestId) {
    forall action | action in log :: !Mentions(action, request)
  }

  ghost predicate Unsettled(log: seq<Action>, request: RequestId) {
    forall action | action in log && action.Settled? :: action.request != request
  }

  ghost predicate Stepwise(log: seq<Action>) {
    forall j | 0 <= j < |log| :: MayFollow(log[..j], log[j])
  }

  /** The promises together are exactly that every action may follow the ones before it. */
  lemma OrderlyIffStepwise(log: seq<Action>)
    ensures Orderly(log) <==> Stepwise(log)
  {
    if Orderly(log) {
      forall j | 0 <= j < |log|
        ensures MayFollow(log[..j], log[j])
      {
        OrderlyMayFollow(log, j);
      }
    }
    if Stepwise(log) {
      StepwiseSessions(log);
      StepwiseRequests(log);
    }
  }

  lemma OrderlyMayFollow(log: seq<Action>, j: nat)
    requires Orderly(log) && j < |log|
    ensures MayFollow(log[..j], log[j])
  {
    assert forall i | 0 <= i < j :: log[..j][i] == log[i];
    if log[j].Asked? {
      assert forall i | 0 <= i < j :: !Mentions(log[i], log[j].request);
    }
  }

  lemma StepwiseSessions(log: seq<Action>)
    requires Stepwise(log)
    ensures RegistersOnce(log)
  {
    forall i, j | 0 <= i < j < |log| && log[j].Registered?
      ensures log[i] != Registered(log[j].endpoint) && log[i] != TurnedAway(log[j].endpoint)
    {
      assert MayFollow(log[..j], log[j]);
      assert log[..j][i] == log[i] && log[i] in log[..j];
    }
  }

  lemma StepwiseOnce(log: seq<Action>, i: nat, j: nat)
    requires Stepwise(log) && i < j < |log|
    requires (log[i].Asked? && log[j].Asked?) || (log[i].Settled? && log[j].Settled?)
    ensures log[i].request != log[j].request
  {
    assert MayFollow(log[..j], log[j]);
    assert log[..j][i] == log[i] && log[i] in log[..j];
    assert log[i].Asked? ==> !Mentions(log[i], log[j].request);
  }

  lemma StepwiseRequests(log: seq<Action>)
    requires Stepwise(log)
    ensures AsksOnce(log) && SettlesOnce(log)
  {
    hide Unused, Unsettled, Mentions;
    assert forall j | 0 <= j < |log| :: MayFollow(log[..j], log[j]);
    forall i, j | 0 <= i < j < |log| && ((log[i].Asked? && log[j].Asked?) || (log[i].Settled? && log[j].Settled?))
      ensures log[i].request != log[j].request
    {
      StepwiseOnce(log, i, j);
    }
    forall j, e |
        0 <= j < |log| && log[j].Settled? && log[j].how.Response? && Asked(log[j].request, e) in log
      ensures log[j].how.from == e
    {
      ResponseIsOfAsked(log, j, e);
    }
  }

  lemma ResponseIsOfAsked(log: seq<Action>, j: nat, e: EndpointId)
    requires Stepwise(log) && j < |log| && log[j].Settled? && log[j].how.Response?
    requires Asked(log[j].request, e) in log
    ensures log[j].how.from == e
  {
    assert MayFollow(log[..j], log[j]);
    var e' :| Asked(log[j].request, e') in log[..j] && log[j].how.from == e';
    var i :| 0 <= i < j && log[..j][i] == Asked(log[j].request, e');
    var k :| 0 <= k < |log| && log[k] == Asked(log[j].request, e);
    if i < k {
      StepwiseOnce(log, i, k);
    } else if k < i {
      StepwiseOnce(log, k, i);
    }
  }

  lemma OrderlyGrows(log: seq<Action>, action: Action)
    requires Orderly(log) && MayFollow(log, action)
    ensures Orderly(log + [action])
  {
    hide MayFollow, Orderly;
    var longer := log + [action];
    OrderlyIffStepwise(log);
    forall j | 0 <= j < |longer|
      ensures MayFollow(longer[..j], longer[j])
    {
      assert longer[..j] == if j < |log| then log[..j] else log;
    }
    OrderlyIffStepwise(longer);
  }

  // ---------------------------------------------------------------- the transport

  function WithoutEndpoint(pending: map<RequestId, EndpointId>, endpoint: EndpointId): map<RequestId, EndpointId> {
    map r | r in pending && pending[r] != endpoint :: pending[r]
  }

  lemma OneMore(log: seq<Action>, action: Action)
    ensures forall a :: a in log + [action] <==> a in log || a == action
  {
  }

  /** Every request that waited for the endpoint has failed. */
  ghost predicate Failed(
      before: seq<Action>, after: seq<Action>, pending: map<RequestId, EndpointId>, endpoint: EndpointId)
  {
    before <= after && forall r | r in pending && pending[r] == endpoint :: Settled(r, Failure) in after
  }

  /** Somebody waits for the endpoint, or it was heard of lately. */
  predicate Fresh(state: EndpointState, endpoint: EndpointId, pending: map<RequestId, EndpointId>, now: int) {
    (exists r | r in pending :: pending[r] == endpoint) || now - state.lastSeen <= STALE_MS
  }

  /** Seen ids cover what was registered or turned away, unless there is no room for more of them. */
  ghost predicate Remembers(seen: set<EndpointId>, log: seq<Action>) {
    && (forall e | Registered(e) in log :: e in seen)
    && (forall e | TurnedAway(e) in log :: e in seen || |seen| == MAX_SESSION_IDS)
  }

  ghost predicate SessionsTracked(endpoints: set<EndpointId>, log: seq<Action>) {
    forall e | e in endpoints :: Registered(e) in log
  }

  ghost predicate PendingTracked(pending: map<RequestId, EndpointId>, log: seq<Action>) {
    forall r | r in pending :: Asked(r, pending[r]) in log && Unsettled(log, r)
  }

  lemma RequestActionsKeepSessions(seen: set<EndpointId>, endpoints: set<EndpointId>, log: seq<Action>, action: Action)
    requires action.Asked? || action.Settled?
    ensures Remembers(seen, log) ==> Remembers(seen, log + [action])
    ensures SessionsTracked(endpoints, log) ==> SessionsTracked(endpoints, log + [action])
  {
    assert forall a :: a in log + [action] <==> a in log || a == action;
  }

  lemma SessionActionsKeepRequests(pending: map<RequestId, EndpointId>, log: seq<Action>, action: Action)
    requires PendingTracked(pending, log) && (action.Registered? || action.TurnedAway?)
    ensures PendingTracked(pending, log + [action])
  {
    assert forall a :: a in log + [action] <==> a in log || a == action;
  }

  lemma SettledIsTracked(pending: map<RequestId, EndpointId>, log: seq<Action>, request: RequestId, how: Settlement)
    requires PendingTracked(pending, log)
    requires request in pending && (how.Response? ==> how.from == pending[request])
    ensures MayFollow(log, Settled(request, how))
    ensures PendingTracked(pending - {request}, log + [Settled(request, how)])
  {
    assert Asked(request, pending[request]) in log;
    assert forall a :: a in log + [Settled(request, how)] <==> a in log || a == Settled(request, how);
  }

  lemma AskedIsTracked(pending: map<RequestId, EndpointId>, log: seq<Action>, request: RequestId, endpoint: EndpointId)
    requires PendingTracked(pending, log) && Unused(log, request) && Registered(endpoint) in log
    ensures request !in pending && MayFollow(log, Asked(request, endpoint))
    ensures PendingTracked(pending[request := endpoint], log + [Asked(request, endpoint)])
  {
    assert forall r | r in pending :: Mentions(Asked(r, pending[r]), r);
    assert forall a :: a in log + [Asked(request, endpoint)] <==> a in log || a == Asked(request, endpoint);
    assert forall a | a in log && a.Settled? && a.request == request :: Mentions(a, request);
  }

  lemma RegisteredIsTracked(seen: set<EndpointId>, endpoints: set<EndpointId>, log: seq<Action>, endpoint: EndpointId)
    requires Remembers(seen, log) && SessionsTracked(endpoints, log) && |seen| < MAX_SESSION_IDS
    ensures endpoint !in seen ==> MayFollow(log, Registered(endpoint))
    ensures Remembers(seen + {endpoint}, log + [Registered(endpoint)])
    ensures SessionsTracked(endpoints + {endpoint}, log + [Registered(endpoint)])
  {
    assert forall a :: a in log + [Registered(endpoint)] <==> a in log || a == Registered(endpoint);
  }

  lemma TurnedAwayIsTracked(seen: set<EndpointId>, endpoints: set<EndpointId>, log: seq<Action>, endpoint: EndpointId)
    requires Remembers(seen, log) && SessionsTracked(endpoints, log) && |seen| <= MAX_SESSION_IDS
    ensures Remembers(if |seen| < MAX_SESSION_IDS then seen + {endpoint} else seen, log + [TurnedAway(endpoint)])
    ensures SessionsTracked(endpoints, log + [TurnedAway(endpoint)])
  {
    assert forall a :: a in log + [TurnedAway(endpoint)] <==> a in log || a == TurnedAway(endpoint);
  }

  class BrowserRpcHostTransport {
    var endpoints: map<EndpointId, EndpointState>
    var seenEndpointIds: set<EndpointId>
    var pending: map<RequestId, EndpointId>
    var disposed: bool
    ghost var log: seq<Action>

    /** The bounds, and that no request waits for an endpoint that is gone. */
    ghost predicate Valid()
      reads this
    {
      && |endpoints| <= MAX_ENDPOINTS && |pending| <= MAX_PENDING && |seenEndpointIds| <= MAX_SESSION_IDS
      && (forall r | r in pending :: pending[r] in endpoints)
      && Orderly(log)
      && (!disposed ==> Remembers(seenEndpointIds, log))
      && SessionsTracked(endpoints.Keys, log) && PendingTracked(pending, log)
      && (disposed ==> endpoints == map[] && pending == map[])
    }

    constructor ()
      ensures Valid() && log == [] && !disposed
    {
      endpoints, seenEndpointIds, pending, disposed, log := map[], {}, map[], false, [];
    }

    /** A registration: renewed, refused, or the end of a session that changes its claim. */
    method Register(endpoint: EndpointId, claim: Claim, counter: int, accepted: bool, now: int)
      requires Valid()
      modifies this
      ensures Valid() && disposed == old(disposed)
      ensures disposed ==> endpoints == old(endpoints) && pending == old(pending) && log == old(log)
      ensures !disposed && endpoint in old(endpoints) ==>
        var existing := old(endpoints)[endpoint];
        if counter <= existing.counter then endpoints == old(endpoints) && pending == old(pending)
        else if claim == existing.claim then
          endpoints == old(endpoints)[endpoint := EndpointState(claim, counter, now)] && pending == old(pending)
        else endpoints == old(endpoints) - {endpoint} && pending == WithoutEndpoint(old(pending), endpoint)
      ensures !disposed && endpoint !in old(endpoints) ==>
        if endpoint !in old(seenEndpointIds) && |old(seenEndpointIds)| < MAX_SESSION_IDS
           && |old(endpoints)| < MAX_ENDPOINTS && accepted
        then
          && endpoints == old(endpoints)[endpoint := EndpointState(claim, counter, now)]
          && pending == old(pending) && log == old(log) + [Registered(endpoint)]
        else endpoints == old(endpoints) && pending == old(pending) && log == old(log)
    {
      hide Orderly, Remembers, SessionsTracked, PendingTracked;
      if disposed {
        return;
      }
      if endpoint in endpoints {
        var existing := endpoints[endpoint];
        if counter <= existing.counter {
          return;
        }
        if existing.claim != claim {
          Disconnect(endpoint);
          return;
        }
        Renew(endpoint, counter, now);
        return;
      }
      var known := endpoint in seenEndpointIds || |seenEndpointIds| >= MAX_SESSION_IDS;
      if known || |endpoints| >= MAX_ENDPOINTS || !accepted {
        return;
      }
      Admit(endpoint, claim, counter, now);
    }

    method Admit(endpoint: EndpointId, claim: Claim, counter: int, now: int)
      requires Valid() && !disposed
      requires endpoint !in seenEndpointIds && |seenEndpointIds| < MAX_SESSION_IDS
      requires endpoint !in endpoints && |endpoints| < MAX_ENDPOINTS
      modifies `endpoints, `seenEndpointIds, `log
      ensures Valid() && log == old(log) + [Registered(endpoint)]
      ensures endpoints == old(endpoints)[endpoint := EndpointState(claim, counter, now)]
    {
      hide Orderly, MayFollow, Remembers, SessionsTracked, PendingTracked;
      RegisteredIsTracked(seenEndpointIds, endpoints.Keys, log, endpoint);
      OrderlyGrows(log, Registered(endpoint));
      SessionActionsKeepRequests(pending, log, Registered(endpoint));
      OneMoreEndpoint(endpoints, endpoint, EndpointState(claim, counter, now));
      endpoints := endpoints[endpoint := EndpointState(claim, counter, now)];
      seenEndpointIds := seenEndpointIds + {endpoint};
      log := log + [Registered(endpoint)];
    }

    method Renew(endpoint: EndpointId, counter: int, now: int)
      requires Valid() && endpoint in endpoints
      modifies `endpoints
      ensures Valid()
      ensures endpoints == old(endpoints)[endpoint := EndpointState(old(endpoints)[endpoint].claim, counter, now)]
    {
      hide Orderly;
      var renewed := endpoints[endpoint := EndpointState(endpoints[endpoint].claim, counter, now)];
      assert renewed.Keys == endpoints.Keys && |renewed| == |endpoints|;
      endpoints := renewed;
    }

    method Heartbeat(endpoint: EndpointId, counter: int, now: int)
      requires Valid()
      modifies `endpoints
      ensures Valid()
      ensures endpoints ==
        if !disposed && endpoint in old(endpoints) && counter > old(endpoints)[endpoint].counter
        then old(endpoints)[endpoint := EndpointState(old(endpoints)[endpoint].claim, counter, now)]
        else old(endpoints)
    {
      if !disposed && endpoint in endpoints && counter > endpoints[endpoint].counter {
        Renew(endpoint, counter, now);
      }
    }

    /** A disconnect frame. One that overtakes its registration keeps the endpoint out for good. */
    method HearDisconnect(endpoint: EndpointId, counter: int)
      requires Valid()
      modifies this
      ensures Valid() && disposed == old(disposed)
      ensures disposed ==> log == old(log)
      ensures !disposed && endpoint !in old(endpoints) ==>
        log == old(log) + [TurnedAway(endpoint)] && endpoints == old(endpoints) && pending == old(pending)
      ensures !disposed && endpoint in old(endpoints) ==>
        if counter > old(endpoints)[endpoint].counter
        then endpoints == old(endpoints) - {endpoint} && pending == WithoutEndpoint(old(pending), endpoint)
        else endpoints == old(endpoints) && pending == old(pending) && log == old(log)
    {
      hide Valid;
      if disposed {
        return;
      }
      if endpoint in endpoints && counter > endpoints[endpoint].counter {
        Disconnect(endpoint);
      } else if endpoint !in endpoints {
        TurnAway(endpoint);
      }
    }

    method TurnAway(endpoint: EndpointId)
      requires Valid() && !disposed
      modifies `seenEndpointIds, `log
      ensures Valid() && log == old(log) + [TurnedAway(endpoint)]
    {
      hide Orderly, Remembers, SessionsTracked, PendingTracked;
      TurnedAwayIsTracked(seenEndpointIds, endpoints.Keys, log, endpoint);
      SessionActionsKeepRequests(pending, log, TurnedAway(endpoint));
      if |seenEndpointIds| < MAX_SESSION_IDS {
        seenEndpointIds := seenEndpointIds + {endpoint};
      }
      OrderlyGrows(log, TurnedAway(endpoint));
      log := log + [TurnedAway(endpoint)];
    }

    /** A response settles a pending request only when it comes from that request's endpoint. */
    method HearResponse(endpoint: EndpointId, request: RequestId, now: int) returns (settled: bool)
      requires Valid()
      modifies `endpoints, `pending, `log
      ensures Valid()
      ensures endpoints ==
        if settled && endpoint in old(endpoints)
        then old(endpoints)[endpoint := old(endpoints)[endpoint].(lastSeen := now)] else old(endpoints)
      ensures settled <==> !disposed && request in old(pending) && old(pending)[request] == endpoint
      ensures pending == if settled then old(pending) - {request} else old(pending)
      ensures log == if settled then old(log) + [Settled(request, Response(endpoint))] else old(log)
    {
      hide Orderly, Remembers, SessionsTracked, PendingTracked;
      settled := !disposed && endpoint in endpoints && request in pending && pending[request] == endpoint;
      if settled {
        Renew(endpoint, endpoints[endpoint].counter, now);
        Finish(request, Response(endpoint));
      }
    }

    /** `finish`: whatever settles a request first takes it out of the pending ones. */
    method Finish(request: RequestId, how: Settlement)
      requires Valid() && request in pending && (how.Response? ==> how.from == pending[request])
      modifies `pending, `log
      ensures Valid() && pending == old(pending) - {request}
      ensures log == old(log) + [Settled(request, how)]
    {
      hide Orderly, MayFollow, Remembers, SessionsTracked, PendingTracked;
      SettledIsTracked(pending, log, request, how);
      OrderlyGrows(log, Settled(request, how));
      RequestActionsKeepSessions(seenEndpointIds, endpoints.Keys, log, Settled(request, how));
      FewerKeys(pending, request);
      pending := pending - {request};
      log := log + [Settled(request, how)];
    }

    /** The caller's abort, the timer, or a failed send: a failure, unless the request has settled already. */
    method Fail(request: RequestId)
      requires Valid()
      modifies `pending, `log
      ensures Valid() && pending == old(pending) - {request}
      ensures log == if request in old(pending) then old(log) + [Settled(request, Failure)] else old(log)
    {
      hide Valid;
      if request in pending {
        Finish(request, Failure);
      }
    }

    /** A new request under a random id. */
    method Request(endpoint: EndpointId, request: RequestId, aborted: bool) returns (r: Result<()>)
      requires Valid() && Unused(log, request)
      modifies `pending, `log
      ensures Valid()
      ensures r.Ok? <==> !disposed && endpoint in endpoints && |old(pending)| < MAX_PENDING && !aborted
      ensures r.Ok? ==> pending == old(pending)[request := endpoint] && log == old(log) + [Asked(request, endpoint)]
      ensures r.Err? ==> pending == old(pending) && log == old(log)
    {
      hide Valid, WithoutEndpoint, Failed;
      if disposed || endpoint !in endpoints {
        return Err(Offline);
      }
      if |pending| >= MAX_PENDING {
        return Err(RateLimited);
      }
      if aborted {
        return Err(Code.Cancelled);
      }
      Ask(endpoint, request);
      return Ok(());
    }

    method Ask(endpoint: EndpointId, request: RequestId)
      requires Valid() && endpoint in endpoints && |pending| < MAX_PENDING && Unused(log, request)
      modifies `pending, `log
      ensures Valid() && pending == old(pending)[request := endpoint] && log == old(log) + [Asked(request, endpoint)]
    {
      hide Orderly, MayFollow, Remembers, PendingTracked, Unused;
      AskedIsTracked(pending, log, request, endpoint);
      OrderlyGrows(log, Asked(request, endpoint));
      RequestActionsKeepSessions(seenEndpointIds, endpoints.Keys, log, Asked(request, endpoint));
      pending := pending[request := endpoint];
      log := log + [Asked(request, endpoint)];
    }

    /** The session ends, and every request that waits for it fails. */
    method Disconnect(endpoint: EndpointId)
      requires Valid()
      modifies `endpoints, `pending, `log
      ensures Valid() && endpoints == old(endpoints) - {endpoint}
      ensures endpoint in old(endpoints) ==>
        pending == WithoutEndpoint(old(pending), endpoint) && Failed(old(log), log, old(pending), endpoint)
      ensures endpoint !in old(endpoints) ==> pending == old(pending) && log == old(log)
      ensures endpoint in old(endpoints) ==> forall r | r in old(pending) ::
        if old(pending)[r] == endpoint then r !in pending && Settled(r, Failure) in log
        else r in pending && pending[r] == old(pending)[r]
    {
      hide Orderly, Remembers, SessionsTracked, PendingTracked;
      if endpoint !in endpoints {
        return;
      }
      FailRequestsOf(endpoint);
      Drop(endpoint);
    }

    method FailRequestsOf(endpoint: EndpointId)
      requires Valid()
      modifies `pending, `log
      ensures Valid() && pending == WithoutEndpoint(old(pending), endpoint)
      ensures Failed(old(log), log, old(pending), endpoint)
    {
      hide Valid;
      ghost var was := pending;
      var left := set r | r in pending && pending[r] == endpoint;
      while left != {}
        invariant Valid() && old(log) <= log
        invariant forall r | r in left :: r in was && was[r] == endpoint
        invariant forall r | r in pending :: r in was && pending[r] == was[r]
        invariant forall r | r in was :: r in pending <==> r in left || was[r] != endpoint
        invariant forall r | r in was && was[r] == endpoint && r !in left :: Settled(r, Failure) in log
      {
        var request :| request in left;
        FailOne(request);
        left := left - {request};
      }
    }

    method FailOne(request: RequestId)
      requires Valid() && request in pending
      modifies `pending, `log
      ensures Valid() && pending == old(pending) - {request} && old(log) <= log
      ensures forall action :: action in log <==> action in old(log) || action == Settled(request, Failure)
    {
      hide Valid;
      OneMore(log, Settled(request, Failure));
      Finish(request, Failure);
    }

    method Drop(endpoint: EndpointId)
      requires Valid() && endpoint in endpoints && forall r | r in pending :: pending[r] != endpoint
      modifies `endpoints
      ensures Valid() && endpoints == old(endpoints) - {endpoint}
    {
      hide Orderly, Remembers, PendingTracked;
      FewerEndpoints(endpoints, endpoint);
      endpoints := endpoints - {endpoint};
    }

    /** Ends every session not heard of for too long that nobody waits for. */
    method Sweep(now: int)
      requires Valid()
      modifies this
      ensures Valid() && disposed == old(disposed) && pending == old(pending)
      ensures !disposed ==>
        forall e | e in old(endpoints) :: e in endpoints <==>
          (exists r | r in pending :: pending[r] == e) || now - old(endpoints)[e].lastSeen <= STALE_MS
      ensures forall e | e in endpoints :: e in old(endpoints) && endpoints[e] == old(endpoints)[e]
    {
      hide Valid;
      if disposed {
        return;
      }
      ghost var was := endpoints;
      var left := endpoints.Keys;
      while left != {}
        invariant Valid() && !disposed && pending == old(pending) && left <= was.Keys
        invariant forall e | e in endpoints :: e in was && endpoints[e] == was[e]
        invariant forall e | e in was :: e in endpoints <==> e in left || Fresh(was[e], e, pending, now)
      {
        var endpoint :| endpoint in left;
        SweepOne(endpoint, now);
        left := left - {endpoint};
      }
    }

    method SweepOne(endpoint: EndpointId, now: int)
      requires Valid() && endpoint in endpoints
      modifies `endpoints, `pending, `log
      ensures Valid() && pending == old(pending)
      ensures endpoints ==
        if Fresh(old(endpoints)[endpoint], endpoint, pending, now) then old(endpoints) else old(endpoints) - {endpoint}
    {
      hide Orderly, Remembers, SessionsTracked, PendingTracked;
      if !Fresh(endpoints[endpoint], endpoint, pending, now) {
        assert WithoutEndpoint(pending, endpoint) == pending;
        Disconnect(endpoint);
      }
    }

    /** Nothing stays pending. */
    method Dispose()
      requires Valid()
      modifies this
      ensures Valid() && disposed && pending == map[]
    {
      if disposed {
        return;
      }
      DisconnectAll();
      disposed := true;
      seenEndpointIds := {};
    }

    method DisconnectAll()
      requires Valid()
      modifies `endpoints, `pending, `log
      ensures Valid() && endpoints == map[] && pending == map[]
    {
      while endpoints != map[]
        invariant Valid()
        decreases |endpoints|
      {
        var endpoint :| endpoint in endpoints;
        FewerEndpoints(endpoints, endpoint);
        Disconnect(endpoint);
      }
      assert forall r | r in pending :: pending[r] in endpoints;
      assert pending == map[];
    }
  }

  lemma FewerKeys(m: map<RequestId, EndpointId>, key: RequestId)
    requires key in m
    ensures |m - {key}| == |m| - 1
  {
    assert (m - {key}).Keys == m.Keys - {key};
  }

  lemma FewerEndpoints(m: map<EndpointId, EndpointState>, key: EndpointId)
    requires key in m
    ensures |m - {key}| == |m| - 1
  {
    assert (m - {key}).Keys == m.Keys - {key};
  }

  lemma OneMoreEndpoint(m: map<EndpointId, EndpointState>, key: EndpointId, state: EndpointState)
    requires key !in m
    ensures m[key := state].Keys == m.Keys + {key} && |m[key := state]| == |m| + 1
  {
    assert m[key := state].Keys == m.Keys + {key};
  }
}
