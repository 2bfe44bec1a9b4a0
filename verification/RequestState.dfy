/**
 * The shared request state of the bridge: active requests by id, recorded cancellations and
 * turn contexts. Each function below is the effect of one critical section; the class performs
 * it on real objects, and the protocol module interleaves it between threads.
 */
module RequestState {
  import opened Wrappers
  import LiveTurn

  datatype CancelKey = CancelKey(
    requestId: string,
    appSessionId: string,
    imageSessionId: string,
    conversationId: string,
    turnId: string)

  datatype Status =
    | Accepted | Initializing | StartingThread | StartingTurn | Running
    | CancelRequested | Cancelled | Failed | Completed

  datatype Request = Request(
    key: CancelKey,
    cancelSet: bool,
    cancelReason: Option<string>,
    threadId: Option<string>,
    codexTurnId: Option<string>,
    status: Status,
    progressVersion: nat)

  /** Codex thread id and turn id. */
  type TurnKey = (string, string)

  /** H identifies request objects, C turn contexts; objects outlive their entry in `active`. */
  datatype Shared<H(==), C> = Shared(
    requests: map<H, Request>,
    active: map<string, H>,
    cancelled: map<CancelKey, string>,
    contexts: map<TurnKey, C>)

  const DEFAULT_REASON := "Chat request was canceled"

  function NewRequest<H, C>(s: Shared<H, C>, key: CancelKey): Request {
    var cancelled := key in s.cancelled;
    Request(key, cancelled, if cancelled then Some(s.cancelled[key]) else None, None, None, Accepted, 0)
  }

  function Register<H, C>(s: Shared<H, C>, h: H, key: CancelKey): Shared<H, C> {
    s.(requests := s.requests[h := NewRequest(s, key)], active := s.active[key.requestId := h])
  }

  function Unregister<H, C>(s: Shared<H, C>, requestId: string): Shared<H, C>
    requires s.active.Values <= s.requests.Keys
  {
    if requestId !in s.active then s
    else
      s.(active := s.active - {requestId}, cancelled := s.cancelled - {s.requests[s.active[requestId]].key})
  }

  predicate MatchesActive<H, C>(s: Shared<H, C>, key: CancelKey)
    requires s.active.Values <= s.requests.Keys
  {
    key.requestId in s.active && s.requests[s.active[key.requestId]].key == key
  }

  function Cancel<H, C>(s: Shared<H, C>, key: CancelKey, reason: Option<string>): Shared<H, C>
    requires s.active.Values <= s.requests.Keys
  {
    var text := if reason.GetOr("") == "" then DEFAULT_REASON else reason.value;
    var recorded := s.(cancelled := s.cancelled[key := text]);
    if MatchesActive(s, key) then
      var h := s.active[key.requestId];
      recorded.(requests := s.requests[h :=
        s.requests[h].(cancelSet := true, cancelReason := reason, status := CancelRequested)])
    else recorded
  }

  function WithStatus(r: Request, status: Status): Request {
    r.(status := status, progressVersion := r.progressVersion + 1)
  }

  function SetStatus<H, C>(s: Shared<H, C>, requestId: string, status: Status): Shared<H, C>
    requires s.active.Values <= s.requests.Keys
  {
    if requestId !in s.active then s
    else
      var h := s.active[requestId];
      s.(requests := s.requests[h := WithStatus(s.requests[h], status)])
  }

  function RegisterContext<H, C>(s: Shared<H, C>, turn: TurnKey, context: C): Shared<H, C> {
    s.(contexts := s.contexts[turn := context])
  }

  function ClearContext<H, C>(s: Shared<H, C>, turn: TurnKey): Shared<H, C> {
    s.(contexts := s.contexts - {turn})
  }

  function ForgetContexts<H, C>(s: Shared<H, C>): Shared<H, C> {
    s.(contexts := map[])
  }

  // ---- What the critical sections keep ----

  /** The active entry's event is set exactly when its full key is recorded as cancelled. */
  predicate ActiveOk<H, C>(s: Shared<H, C>, id: string)
    requires id in s.active
  {
    && s.active[id] in s.requests
    && var r := s.requests[s.active[id]];
       r.key.requestId == id && (r.cancelSet <==> r.key in s.cancelled)
  }

  predicate AllActiveOk<H, C>(s: Shared<H, C>) {
    forall id :: id in s.active ==> ActiveOk(s, id)
  }

  lemma RegisterKeeps<H, C>(s: Shared<H, C>, h: H, key: CancelKey)
    requires AllActiveOk(s) && h !in s.requests
    ensures AllActiveOk(Register(s, h, key))
  {
    assert forall id :: id in s.active ==> ActiveOk(s, id);
  }

  lemma UnregisterKeeps<H, C>(s: Shared<H, C>, requestId: string)
    requires AllActiveOk(s) && s.active.Values <= s.requests.Keys
    ensures AllActiveOk(Unregister(s, requestId))
  {
    assert forall id :: id in s.active ==> ActiveOk(s, id);
  }

  lemma CancelKeeps<H, C>(s: Shared<H, C>, key: CancelKey, reason: Option<string>)
    requires AllActiveOk(s) && s.active.Values <= s.requests.Keys
    ensures AllActiveOk(Cancel(s, key, reason))
  {
    assert forall id :: id in s.active ==> ActiveOk(s, id);
  }

  /**
   * A request that arrives after cancels of its key is cancelled from the start, for the reason of the last of them;
   * under any other key it is as it would have been without.
   */
  lemma CancelIsRemembered<H, C>(s: Shared<H, C>, key: CancelKey, reason: Option<string>, h: H, arriving: CancelKey)
    requires s.active.Values <= s.requests.Keys
    ensures var r := Register(Cancel(s, key, reason), h, arriving).requests[h];
            && r.key == arriving && r.threadId.None? && r.codexTurnId.None?
            && (arriving == key ==>
                  r.cancelSet
                  && r.cancelReason == Some(if reason.Some? && reason.value != "" then reason.value
                                            else "Chat request was canceled"))
            && (arriving != key ==> r == Register(s, h, arriving).requests[h])
  {
  }

  /**
   * A cancel is recorded under its full key. It reaches the active request with the request id only if all the other
   * ids agree, and then sets its event, with the reason as it was given; no other request changes.
   */
  lemma CancelDoes<H, C>(s: Shared<H, C>, key: CancelKey, reason: Option<string>)
    requires s.active.Values <= s.requests.Keys
    ensures var t := Cancel(s, key, reason);
            && t.active == s.active && t.contexts == s.contexts && t.requests.Keys == s.requests.Keys
            && key in t.cancelled && (forall k :: k != key ==> (k in t.cancelled <==> k in s.cancelled))
            && forall h :: h in s.requests ==>
                 if key.requestId in s.active && s.active[key.requestId] == h && s.requests[h].key == key then
                   t.requests[h] ==
                   s.requests[h].(cancelSet := true, cancelReason := reason, status := CancelRequested)
                 else t.requests[h] == s.requests[h]
  {
    assert key.requestId in s.active ==> s.active[key.requestId] in s.active.Values;
  }

  /** When a request leaves, a recorded cancel of its key goes with it, so that a later one starts afresh. */
  lemma LeavingForgets<H, C>(s: Shared<H, C>, requestId: string, key: CancelKey, h: H)
    requires s.active.Values <= s.requests.Keys && requestId in s.active && s.active[requestId] in s.requests
    ensures var t := Unregister(s, requestId);
            && requestId !in t.active && (forall id :: id in s.active && id != requestId ==>
                                            id in t.active && t.active[id] == s.active[id])
            && (Register(t, h, key).requests[h].cancelSet <==>
                key in s.cancelled && key != s.requests[s.active[requestId]].key)
  {
  }

  /** A status update sets the status of one request and counts it; nothing else is touched. */
  lemma StatusTouchesNothingElse<H, C>(s: Shared<H, C>, requestId: string, status: Status)
    requires s.active.Values <= s.requests.Keys
    ensures var t := SetStatus(s, requestId, status);
            && t.active == s.active && t.cancelled == s.cancelled && t.contexts == s.contexts
            && t.requests.Keys == s.requests.Keys
            && (forall h :: h in s.requests ==> SameButStatus(s.requests[h], t.requests[h]))
            && (forall h :: h in s.requests && !(requestId in s.active && s.active[requestId] == h) ==>
                  t.requests[h] == s.requests[h])
            && (requestId in s.active ==>
                  && s.active[requestId] in s.requests
                  && var r, r' := s.requests[s.active[requestId]], t.requests[s.active[requestId]];
                     r'.status == status && r'.progressVersion == r.progressVersion + 1)
  {
    assert requestId in s.active ==> s.active[requestId] in s.active.Values;
  }

  predicate SameButStatus(r: Request, t: Request) {
    r == t.(status := r.status, progressVersion := r.progressVersion) && r.progressVersion <= t.progressVersion
  }

  lemma StatusKeeps<H, C>(s: Shared<H, C>, requestId: string, status: Status)
    requires s.active.Values <= s.requests.Keys
    ensures AllActiveOk(SetStatus(s, requestId, status)) <==> AllActiveOk(s)
  {
    hide SetStatus;
    var t := SetStatus(s, requestId, status);
    StatusTouchesNothingElse(s, requestId, status);
    forall id | id in s.active
      ensures ActiveOk(t, id) <==> ActiveOk(s, id)
    {
      assert s.active[id] in s.active.Values;
      assert SameButStatus(s.requests[s.active[id]], t.requests[s.active[id]]);
    }
  }

  class ActiveRequest {
    const key: CancelKey
    var cancelEvent: bool
    var cancelReason: Option<string>
    var threadId: Option<string>
    var codexTurnId: Option<string>
    var status: Status
    var progressVersion: nat

    constructor (key: CancelKey)
      ensures View() == Request(key, false, None, None, None, Accepted, 0)
    {
      this.key := key;
      cancelEvent, cancelReason, threadId, codexTurnId := false, None, None, None;
      status, progressVersion := Accepted, 0;
    }

    function View(): Request
      reads this
    {
      Request(key, cancelEvent, cancelReason, threadId, codexTurnId, status, progressVersion)
    }
  }

  class Registry {
    var activeRequests: map<string, ActiveRequest>
    var cancelledRequests: map<CancelKey, string>
    var turnContexts: map<TurnKey, LiveTurn.TurnContext>
    /** Every request object ever registered, still active or not. */
    ghost var known: set<ActiveRequest>

    ghost function State(): Shared<ActiveRequest, LiveTurn.TurnContext>
      reads this, known
    {
      Shared(map r | r in known :: r.View(), activeRequests, cancelledRequests, turnContexts)
    }

    ghost predicate Valid()
      reads this, known
    {
      activeRequests.Values <= known
    }

    constructor ()
      ensures Valid() && State() == Shared(map[], map[], map[], map[])
    {
      activeRequests, cancelledRequests, turnContexts, known := map[], map[], map[], {};
    }

    method RegisterRequest(key: CancelKey) returns (request: ActiveRequest)
      requires Valid()
      modifies this
      ensures Valid() && fresh(request) && known == old(known) + {request}
      ensures State() == Register(old(State()), request, key)
    {
      request := new ActiveRequest(key);
      activeRequests := activeRequests[key.requestId := request];
      if key in cancelledRequests {
        request.cancelEvent := true;
        request.cancelReason := Some(cancelledRequests[key]);
      }
      known := known + {request};
    }

    method UnregisterRequest(requestId: string)
      requires Valid()
      modifies this
      ensures Valid() && known == old(known)
      ensures State() == Unregister(old(State()), requestId)
    {
      if requestId in activeRequests {
        var request := activeRequests[requestId];
        assert request in activeRequests.Values;
        activeRequests := activeRequests - {requestId};
        cancelledRequests := cancelledRequests - {request.key};
      }
    }

    /** Sets the event of an active request, with the reason, and shows that it was asked to stop. */
    method MarkCancelled(requestId: string, reason: Option<string>)
      requires Valid() && requestId in activeRequests
      modifies known
      ensures Valid()
      ensures var s, h := old(State()), activeRequests[requestId];
              && h in s.requests
              && State() == s.(requests := s.requests[h :=
                   s.requests[h].(cancelSet := true, cancelReason := reason, status := CancelRequested)])
    {
      var request := activeRequests[requestId];
      assert request in activeRequests.Values;
      request.cancelEvent := true;
      request.cancelReason := reason;
      request.status := CancelRequested;
    }

    method CancelRequest(key: CancelKey, reason: Option<string>) returns (matchedActive: bool)
      requires Valid()
      modifies this, known
      ensures Valid() && known == old(known)
      ensures matchedActive <==>
              key.requestId in old(activeRequests) && old(activeRequests)[key.requestId].key == key
      ensures State() == Cancel(old(State()), key, reason)
    {
      cancelledRequests := cancelledRequests[key := if reason.GetOr("") == "" then DEFAULT_REASON else reason.value];
      assert State().requests == old(State()).requests;
      if key.requestId in activeRequests {
        assert activeRequests[key.requestId] in activeRequests.Values;
        if activeRequests[key.requestId].key == key {
          MarkCancelled(key.requestId, reason);
          return true;
        }
      }
      return false;
    }

    method SetActiveRequestStatus(requestId: string, status: Status)
      requires Valid()
      modifies known
      ensures Valid()
      ensures State() == SetStatus(old(State()), requestId, status)
    {
      if requestId in activeRequests {
        var request := activeRequests[requestId];
        assert request in activeRequests.Values;
        request.status := status;
        request.progressVersion := request.progressVersion + 1;
      }
    }

    /** The first active request with these Codex ids is updated; without one nothing happens. */
    method SetActiveRequestStatusForTurn(turn: TurnKey, status: Status) returns (updated: Option<string>)
      requires Valid()
      modifies known
      ensures Valid()
      ensures updated.Some? ==>
                && updated.value in activeRequests
                && old(activeRequests[updated.value].threadId) == Some(turn.0)
                && old(activeRequests[updated.value].codexTurnId) == Some(turn.1)
                && State() == SetStatus(old(State()), updated.value, status)
      ensures updated.None? ==>
                && State() == old(State())
                && forall id :: id in activeRequests ==>
                     activeRequests[id].threadId != Some(turn.0) || activeRequests[id].codexTurnId != Some(turn.1)
    {
      var ids := activeRequests.Keys;
      while ids != {}
        invariant ids <= activeRequests.Keys
        invariant forall id :: id in activeRequests && id !in ids ==>
                    activeRequests[id].threadId != Some(turn.0) || activeRequests[id].codexTurnId != Some(turn.1)
        invariant State() == old(State())
        decreases |ids|
      {
        var id :| id in ids;
        var request := activeRequests[id];
        assert request in activeRequests.Values;
        if request.threadId == Some(turn.0) && request.codexTurnId == Some(turn.1) {
          assert old(State()).requests[request] == State().requests[request];
          SetActiveRequestStatus(id, status);
          return Some(id);
        }
        ids := ids - {id};
      }
      updated := None;
    }

    /** An active request of the image session and client turn that has a thread and a running Codex turn. */
    predicate Awaits(id: string, imageSessionId: string, turnId: string)
      reads this, activeRequests.Values
    {
      && id in activeRequests
      && activeRequests[id].key.imageSessionId == imageSessionId && activeRequests[id].key.turnId == turnId
      && activeRequests[id].threadId.Some? && activeRequests[id].threadId.value != ""
      && activeRequests[id].codexTurnId.Some? && activeRequests[id].codexTurnId.value != ""
    }

    /** The context a render callback is delivered to: that of the first active request awaiting it. */
    method FindRenderContext(imageSessionId: string, turnId: string)
      returns (found: Option<string>, context: Option<LiveTurn.TurnContext>)
      requires Valid()
      ensures found.Some? ==>
                && found.value in activeRequests
                && var r := activeRequests[found.value];
                && r.key.imageSessionId == imageSessionId && r.key.turnId == turnId
                && r.threadId.Some? && r.threadId.value != "" && r.codexTurnId.Some? && r.codexTurnId.value != ""
                && var key := (r.threadId.value, r.codexTurnId.value);
                   context == if key in turnContexts then Some(turnContexts[key]) else None
      ensures found.None? <==> forall id :: id in activeRequests ==> !Awaits(id, imageSessionId, turnId)
      ensures found.None? ==> context.None?
    {
      var ids := activeRequests.Keys;
      while ids != {}
        invariant ids <= activeRequests.Keys
        invariant forall id :: id in activeRequests && id !in ids ==> !Awaits(id, imageSessionId, turnId)
        decreases |ids|
      {
        var id :| id in ids;
        var request := activeRequests[id];
        if request.key.imageSessionId == imageSessionId && request.key.turnId == turnId
           && request.threadId.GetOr("") != "" && request.codexTurnId.GetOr("") != "" {
          assert Awaits(id, imageSessionId, turnId);
          var key := (request.threadId.value, request.codexTurnId.value);
          return Some(id), if key in turnContexts then Some(turnContexts[key]) else None;
        }
        ids := ids - {id};
      }
      return None, None;
    }

    method RegisterTurnContext(turn: TurnKey, context: LiveTurn.TurnContext)
      requires Valid()
      modifies this`turnContexts
      ensures Valid()
      ensures State() == RegisterContext(old(State()), turn, context)
    {
      turnContexts := turnContexts[turn := context];
    }

    method ClearTurnContext(turn: TurnKey)
      requires Valid()
      modifies this`turnContexts
      ensures Valid()
      ensures State() == ClearContext(old(State()), turn)
    {
      turnContexts := turnContexts - {turn};
    }

    /** The part of a process reset that touches the shared state. */
    method ForgetTurnContexts()
      requires Valid()
      modifies this`turnContexts
      ensures Valid()
      ensures State() == ForgetContexts(old(State()))
    {
      turnContexts := map[];
    }
  }
}
