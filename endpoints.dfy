/**
 * The two HTTP routes of the MCP server: `GET /api/sse` opens a session and
 * `POST /api/messages` posts into one. Both sit behind the bearer gate with
 * a stub verifier that accepts every token.
 */
module Endpoints {
  import opened Common
  import Auth
  import Sessions
  import UserInfoTool

  /** The identity the stub verifier resolves every token to: `{ userId: "123" }`. */
  const StubIdentity := AuthInfo(Some("123"), None)

  /** The `auth` callback both routes pass to the gate. */
  function StubVerify(token: string): Auth.Verdict<AuthInfo>
  {
    Auth.Verified(StubIdentity)
  }

  /** Behind the stub verifier only the header checks can reject, and nothing throws. */
  lemma StubGate<R>(request: Auth.Request, handler: AuthInfo -> R)
    ensures var r := Auth.WithMcpAuth(request, StubVerify, handler);
      && (r.Rejected? <==> Auth.ParseAuthorization(request.authorization).Refused?)
      && !r.VerifierThrew?
      && (r.Handled? ==> r.auth == StubIdentity)
  {
  }

  /**
   * `GET /api/sse`: a request that passes the header checks files its
   * transport under the transport's session id, and only then is the server
   * connected to it; a refused one gets the 401 and leaves the map alone.
   */
  method StreamEndpoint(registry: Sessions.Registry, request: Auth.Request, transport: Sessions.Transport)
    returns (denied: Option<Auth.HttpResponse>)
    requires registry.Valid()
    modifies registry
    ensures registry.Valid()
    ensures denied.Some? <==> Auth.ParseAuthorization(request.authorization).Refused?
    ensures denied.Some? ==>
      && denied.value == Auth.Unauthorized(request.origin)
      && registry.transports == old(registry.transports)
      && registry.history == old(registry.history)
    ensures denied.None? ==>
      && registry.transports == old(registry.transports)[transport.sessionId := transport]
      && registry.history == old(registry.history)
           + [Sessions.Registered(transport.sessionId), Sessions.Connected(transport.sessionId)]
  {
    var gate := Auth.WithMcpAuth(request, StubVerify, (auth: AuthInfo) => auth);
    StubGate(request, (auth: AuthInfo) => auth);
    if gate.Rejected? {
      denied := Some(gate.response);
    } else {
      registry.Open(transport);
      // `await server.connect(transport)`: the server's side is not modelled.
      registry.history := registry.history + [Sessions.Connected(transport.sessionId)];
      denied := None;
    }
  }

  /** The socket of a session closed: its entry goes. */
  method OnSocketClose(registry: Sessions.Registry, transport: Sessions.Transport)
    requires registry.Valid()
    modifies registry
    ensures registry.Valid()
    ensures registry.transports == old(registry.transports) - {transport.sessionId}
    ensures registry.history == old(registry.history) + [Sessions.Removed(transport.sessionId)]
  {
    registry.Close(transport.sessionId);
  }

  /** What `POST /api/messages` ends with. */
  datatype MessageReply =
    | Denied(response: Auth.HttpResponse)
    | Routed(outcome: Sessions.RouteOutcome, reply: Sessions.Reply)

  /**
   * `POST /api/messages`: after the gate, the message goes to the session
   * named by the `sessionId` query parameter, carrying the stub identity.
   * Only the header checks can deny it; an unknown session gets its own
   * body and no transport is called.
   */
  method MessageEndpoint(registry: Sessions.Registry, request: Auth.Request, param: Option<string>,
                         payload: Sessions.Payload, handle: Sessions.Delivery -> bool)
    returns (r: MessageReply)
    requires registry.Valid()
    ensures r.Denied? <==> Auth.ParseAuthorization(request.authorization).Refused?
    ensures r.Denied? ==> r.response == Auth.Unauthorized(request.origin)
    ensures r.Routed? ==>
      && r.reply == Sessions.ReplyFor(r.outcome)
      && (r.outcome.UnknownSession? <==> Sessions.SessionKey(param) !in registry.transports)
      && (r.outcome.Forwarded? ==> r.outcome.call.payload == payload && r.outcome.call.authInfo == StubIdentity)
      && (Sessions.SessionKey(param) in registry.transports ==>
            var call := Sessions.Delivery(registry.transports[Sessions.SessionKey(param)], payload, StubIdentity);
            && (r.outcome == Sessions.Forwarded(call) <==> handle(call))
            && (r.outcome == Sessions.HandlerError(Some(call)) <==> !handle(call)))
  {
    var gate := Auth.WithMcpAuth(request, StubVerify, (auth: AuthInfo) => auth);
    StubGate(request, (auth: AuthInfo) => auth);
    if gate.Rejected? {
      r := Denied(gate.response);
    } else {
      var outcome := registry.Route(param, payload, gate.auth, handle);
      r := Routed(outcome, Sessions.ReplyFor(outcome));
    }
  }

  /**
   * Through these endpoints the tool sees the stub identity, which has no
   * subject, so `get_clerk_user_info` always answers "not authenticated"
   * without looking anyone up.
   */
  lemma StubIdentityNotAuthenticated<U>(getUser: string -> Option<U>, serialize: U -> string)
    ensures UserInfoTool.GetClerkUserInfo(Some(StubIdentity), getUser, serialize)
         == UserInfoTool.Returned(UserInfoTool.TextResult(UserInfoTool.NotAuthenticated))
  {
  }
}
