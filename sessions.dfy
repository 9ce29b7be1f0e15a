/**
 * The process-wide `transports` dictionary from session id to open SSE
 * transport: filled when a stream opens, emptied when its socket closes,
 * and read by the message endpoint to forward a posted message.
 */
module Sessions {
  import opened Common

  type SessionId = string

  /**
   * An SSE transport. Its `sessionId` is chosen by the transport itself;
   * `connection` stands for the response stream it writes to.
   */
  datatype Transport = Transport(sessionId: SessionId, endpoint: string, connection: nat)

  /** A parsed JSON request body; the model does not look inside it. */
  datatype Payload = Payload(json: string)

  /** One call of `transport.handleMessage(body, { authInfo })`. */
  datatype Delivery = Delivery(to: Transport, payload: Payload, authInfo: AuthInfo)

  /** The three ways a posted message can end. */
  datatype RouteOutcome =
    | Forwarded(call: Delivery)
    | HandlerError(attempt: Option<Delivery>)   // `None`: the failure came before any transport ran
    | UnknownSession

  /** What the message endpoint writes: the status it sets, if any, and the body it sends, if any. */
  datatype Reply = Reply(status: Option<int>, body: Option<string>)

  /** Lifecycle steps, in the order they happen. */
  datatype Event = Registered(id: SessionId) | Connected(id: SessionId) | Removed(id: SessionId)

  const NoTransportBody := "No transport found for sessionId"
  const HandlerErrorBody := "Error handling message"

  /**
   * The dictionary key a `sessionId` query parameter becomes: a missing
   * parameter (`null`) is used as the property name `"null"`.
   */
  function SessionKey(param: Option<string>): (key: SessionId)
    ensures param.Some? ==> key == param.value
    ensures key == "null" <==> param == None || param == Some("null")
  {
    match param
    case None => "null"
    case Some(id) => id
  }

  /**
   * The reply written for each outcome: status 200 is set before the
   * transport is called, and only the two failures send a body of their own.
   */
  function ReplyFor(outcome: RouteOutcome): (r: Reply)
    ensures r.status.Some? <==> !outcome.UnknownSession?
    ensures r.status.Some? ==> r.status.value == 200
    ensures r.body.Some? <==> !outcome.Forwarded?
    ensures outcome.UnknownSession? ==> r.body == Some(NoTransportBody)
    ensures outcome.HandlerError? ==> r.body == Some(HandlerErrorBody)
  {
    match outcome
    case Forwarded(_) => Reply(Some(200), None)
    case HandlerError(_) => Reply(Some(200), Some(HandlerErrorBody))
    case UnknownSession => Reply(None, Some(NoTransportBody))
  }

  // -----------------------------------------------------------------------
  // Lookup on a plain object, as the source writes it

  /**
   * Keys that `{}` answers from `Object.prototype` although nobody stored
   * them: each gives a truthy value that has no `handleMessage`.
   */
  const InheritedKeys: set<string> := {
    "constructor", "toString", "toLocaleString", "valueOf", "hasOwnProperty",
    "isPrototypeOf", "propertyIsEnumerable", "__proto__", "__defineGetter__",
    "__defineSetter__", "__lookupGetter__", "__lookupSetter__"
  }

  /**
   * The message endpoint's routing as written: `transports[sessionId]` on a
   * plain object. An inherited key is truthy, so the `try` branch runs and
   * calling the missing `handleMessage` throws, which the `catch` reports as
   * a handler error.
   */
  function RouteAsWritten(transports: map<SessionId, Transport>, param: Option<string>, payload: Payload,
                          authInfo: AuthInfo, handle: Delivery -> bool): (outcome: RouteOutcome)
    ensures outcome.UnknownSession? <==> SessionKey(param) !in transports && SessionKey(param) !in InheritedKeys
  {
    var key := SessionKey(param);
    if key in transports then
      var call := Delivery(transports[key], payload, authInfo);
      if handle(call) then Forwarded(call) else HandlerError(Some(call))
    else if key in InheritedKeys then HandlerError(None)
    else UnknownSession
  }

  /**
   * A request naming an inherited property as its session is reported as a
   * handler error, although no session exists and no transport ran.
   */
  lemma InheritedKeyMisrouted(payload: Payload, authInfo: AuthInfo, handle: Delivery -> bool)
    ensures RouteAsWritten(map[], Some("constructor"), payload, authInfo, handle) == HandlerError(None)
    ensures ReplyFor(RouteAsWritten(map[], Some("constructor"), payload, authInfo, handle)).body == Some(HandlerErrorBody)
  {
  }

  // -----------------------------------------------------------------------
  // The registry

  class Registry {
    /** The session map; the source's `transports`. */
    var transports: map<SessionId, Transport>
    /** The lifecycle steps so far, oldest first. */
    ghost var history: seq<Event>

    /** Every transport is filed under its own session id. */
    ghost predicate Valid()
      reads this
    {
      forall id | id in transports :: transports[id].sessionId == id
    }

    /** The map starts empty. */
    constructor ()
      ensures Valid()
      ensures transports == map[] && history == []
    {
      transports := map[];
      history := [];
    }

    /**
     * A stream opened: the transport is filed under its own session id,
     * replacing whatever was there; every other entry stays.
     */
    method Open(transport: Transport)
      requires Valid()
      modifies this
      ensures Valid()
      ensures transports == old(transports)[transport.sessionId := transport]
      ensures history == old(history) + [Registered(transport.sessionId)]
    {
      transports := transports[transport.sessionId := transport];
      history := history + [Registered(transport.sessionId)];
    }

    /**
     * A socket closed: its session id is removed, whichever transport is
     * filed under it; closing an absent id changes no entry.
     */
    method Close(sessionId: SessionId)
      requires Valid()
      modifies this
      ensures Valid()
      ensures transports == old(transports) - {sessionId}
      ensures sessionId !in transports
      ensures forall id | id != sessionId && id in old(transports) :: id in transports && transports[id] == old(transports)[id]
      ensures sessionId !in old(transports) ==> transports == old(transports)
      ensures history == old(history) + [Removed(sessionId)]
    {
      transports := transports - {sessionId};
      history := history + [Removed(sessionId)];
    }

    /** A transport error is only logged: the map is left as it is. */
    method OnTransportError(transport: Transport)
      requires Valid()
      ensures transports == old(transports)
    {
    }

    /**
     * The message endpoint's lookup and forward. A session that is present
     * gets exactly one delivery, to its own transport, of the body and the
     * request's identity; an absent one gets none. Routing reads the map and
     * never changes it. On every key other than an inherited property name
     * this agrees with the lookup as written.
     */
    method Route(param: Option<string>, payload: Payload, authInfo: AuthInfo, handle: Delivery -> bool)
      returns (outcome: RouteOutcome)
      requires Valid()
      ensures outcome.UnknownSession? <==> SessionKey(param) !in transports
      ensures !outcome.UnknownSession? ==>
        var call := Delivery(transports[SessionKey(param)], payload, authInfo);
        && call.to.sessionId == SessionKey(param)
        && (outcome == Forwarded(call) <==> handle(call))
        && (outcome == HandlerError(Some(call)) <==> !handle(call))
      ensures SessionKey(param) !in InheritedKeys ==>
        outcome == RouteAsWritten(transports, param, payload, authInfo, handle)
    {
      var key := SessionKey(param);
      if key in transports {
        var call := Delivery(transports[key], payload, authInfo);
        if handle(call) {
          outcome := Forwarded(call);
        } else {
          outcome := HandlerError(Some(call));
        }
      } else {
        outcome := UnknownSession;
      }
    }
  }

  /**
   * A session opened on any registry is found by the next message addressed
   * to it, which reaches its transport unchanged, with the request's
   * identity, even when another transport was filed under the same id.
   */
  method OpenThenRoute(registry: Registry, transport: Transport, payload: Payload, authInfo: AuthInfo,
                       handle: Delivery -> bool)
    returns (outcome: RouteOutcome)
    requires registry.Valid()
    modifies registry
    ensures registry.Valid()
    ensures registry.transports == old(registry.transports)[transport.sessionId := transport]
    ensures var call := Delivery(transport, payload, authInfo);
      outcome == if handle(call) then Forwarded(call) else HandlerError(Some(call))
  {
    registry.Open(transport);
    outcome := registry.Route(Some(transport.sessionId), payload, authInfo, handle);
  }
}
