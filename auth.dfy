/**
 * The bearer-token gate `withMcpAuth` that wraps both MCP endpoints, and the
 * 401 response it answers every rejection with.
 */
module Auth {
  import opened Common
  import Strings

  datatype HttpResponse = HttpResponse(status: int, body: string, headers: map<string, string>)

  /**
   * What the gate reads from a request: the origin of its URL and the value
   * `request.headers.get("Authorization")` returns (`None` for null).
   */
  datatype Request = Request(origin: string, authorization: Option<string>)

  /** Why a request was turned away; every reason gets the same 401. */
  datatype Rejection = MissingHeader | NotBearer | EmptyToken | VerificationRejected

  /** The outcome of the header checks alone, before any verifier runs. */
  datatype Credential = Refused(reason: Rejection) | Presented(token: string)

  /**
   * What awaiting the pluggable verifier gives: a truthy identity, a falsy
   * value, or an exception (which the gate does not catch).
   */
  datatype Verdict<I> = Verified(identity: I) | Falsy | Threw

  /** The gate's overall result. */
  datatype Gated<I, R> =
    | Rejected(reason: Rejection, response: HttpResponse)
    | Handled(auth: I, result: R)
    | VerifierThrew

  const ChallengeHeader := "WWW-Authenticate"
  const ChallengePrefix := "Bearer resource_metadata="
  const ResourceMetadataPath := "/.well-known/oauth-protected-resource"

  /** The 401 response; its challenge names the protected-resource metadata of `origin`. */
  function Unauthorized(origin: string): (r: HttpResponse)
    ensures r.status == 401 && r.body == "Unauthorized"
    ensures r.headers.Keys == {ChallengeHeader}
    ensures r.headers[ChallengeHeader] == ChallengePrefix + origin + ResourceMetadataPath
  {
    HttpResponse(401, "Unauthorized", map[ChallengeHeader := ChallengePrefix + origin + ResourceMetadataPath])
  }

  /** Distinct origins get distinct challenges: the origin can be read back from the 401. */
  lemma ChallengeDeterminesOrigin(o1: string, o2: string)
    ensures Unauthorized(o1) == Unauthorized(o2) <==> o1 == o2
  {
    if Unauthorized(o1) == Unauthorized(o2) {
      var h1 := Unauthorized(o1).headers[ChallengeHeader];
      var h2 := Unauthorized(o2).headers[ChallengeHeader];
      var n := |ChallengePrefix|;
      assert h1[n..n + |o1|] == o1;
      assert h2[n..n + |o2|] == o2;
      assert |o1| == |o2|;
    }
  }

  /**
   * The header checks of `withMcpAuth`, in their order: a missing or empty
   * header, then a first space-separated field that is not `bearer` in any
   * case, then a missing or empty second field. Fields after the second are
   * ignored.
   */
  function ParseAuthorization(header: Option<string>): (r: Credential)
    ensures header == None || header == Some("") ==> r == Refused(MissingHeader)
    ensures r == Refused(MissingHeader) ==> header == None || header == Some("")
    ensures r.Presented? ==> r.token != "" && ' ' !in r.token
  {
    match header
    case None => Refused(MissingHeader)
    case Some(h) =>
      if h == "" then Refused(MissingHeader)
      else
        var fields := Strings.Split(h, ' ');
        if Strings.Lower(fields[0]) != "bearer" then Refused(NotBearer)
        else if |fields| < 2 || fields[1] == "" then Refused(EmptyToken)
        else Presented(fields[1])
  }

  /** `withMcpAuth`: the header checks, then the verifier, then the handler with `request.auth` set. */
  function WithMcpAuth<I, R>(request: Request, verify: string -> Verdict<I>, handler: I -> R): (r: Gated<I, R>)
    ensures r.Rejected? ==> r.response == Unauthorized(request.origin)
    ensures r.Handled? ==> r.result == handler(r.auth)
    ensures r.Handled? ==>
      ParseAuthorization(request.authorization).Presented?
      && verify(ParseAuthorization(request.authorization).token) == Verified(r.auth)
  {
    match ParseAuthorization(request.authorization)
    case Refused(reason) => Rejected(reason, Unauthorized(request.origin))
    case Presented(token) =>
      match verify(token)
      case Falsy => Rejected(VerificationRejected, Unauthorized(request.origin))
      case Threw => VerifierThrew
      case Verified(identity) => Handled(identity, handler(identity))
  }

  // -----------------------------------------------------------------------
  // The shape of an accepted header

  /**
   * `h` is a scheme of `k` non-space characters spelling `bearer` in any
   * case, one space, then the token `t`: non-empty, space-free, and ended by
   * the end of the header or by another space.
   */
  ghost predicate BearerLayout(h: string, k: nat, t: string)
  {
    && k < |h| && h[k] == ' ' && ' ' !in h[..k] && Strings.Lower(h[..k]) == "bearer"
    && t != [] && ' ' !in t
    && k + 1 + |t| <= |h| && h[k + 1..k + 1 + |t|] == t
    && (k + 1 + |t| == |h| || h[k + 1 + |t|] == ' ')
  }

  /** A header the checks accept with token `t` has the bearer layout for `t`. */
  lemma PresentedHasBearerLayout(h: string, t: string)
    requires ParseAuthorization(Some(h)) == Presented(t)
    ensures BearerLayout(h, |Strings.Split(h, ' ')[0]|, t)
  {
    var fields := Strings.Split(h, ' ');
    Strings.JoinSplit(h, ' ');
    var k := |fields[0]|;
    var tail := Strings.Join(fields[1..], ' ');
    assert h == fields[0] + [' '] + tail;
    assert h[..k] == fields[0];
    assert h[k + 1..] == tail;
    if |fields| > 2 {
      assert fields[1..][1..] == fields[2..];
      assert tail == t + [' '] + Strings.Join(fields[2..], ' ');
    }
  }

  /** A header with the bearer layout for `t` passes the checks with token `t`. */
  lemma BearerLayoutPresented(h: string, k: nat, t: string)
    requires BearerLayout(h, k, t)
    ensures ParseAuthorization(Some(h)) == Presented(t)
  {
    var scheme, q := h[..k], h[k + 1..];
    assert h == scheme + [' '] + q;
    Strings.SplitAtFirstSeparator(scheme, q, ' ');
    var rest := h[k + 1 + |t|..];
    assert q == t + rest;
    if rest == [] {
      Strings.SplitWithoutSeparator(t, ' ');
      assert q == t;
    } else {
      Strings.SplitAtFirstSeparator(t, rest[1..], ' ');
      assert q == t + [' '] + rest[1..];
    }
  }

  /** The header checks pass with token `t` exactly when the header has the bearer layout for `t`. */
  lemma PresentedIffBearerLayout(h: string, t: string)
    ensures ParseAuthorization(Some(h)) == Presented(t) <==> exists k: nat :: BearerLayout(h, k, t)
  {
    if ParseAuthorization(Some(h)) == Presented(t) {
      PresentedHasBearerLayout(h, t);
    }
    if k: nat :| BearerLayout(h, k, t) {
      BearerLayoutPresented(h, k, t);
    }
  }

  /**
   * Any case of `bearer` passes the scheme check, and the token is the
   * second field alone: whatever follows the next space is ignored.
   */
  lemma BearerTokenAccepted(scheme: string, token: string, extra: string)
    requires Strings.Lower(scheme) == "bearer" && ' ' !in scheme
    requires token != "" && ' ' !in token
    ensures ParseAuthorization(Some(scheme + " " + token)) == Presented(token)
    ensures ParseAuthorization(Some(scheme + " " + token + " " + extra)) == Presented(token)
  {
    var k := |scheme|;
    var h1 := scheme + " " + token;
    assert h1[..k] == scheme && h1[k + 1..k + 1 + |token|] == token;
    BearerLayoutPresented(h1, k, token);
    var h2 := scheme + " " + token + " " + extra;
    assert h2[..k] == scheme && h2[k + 1..k + 1 + |token|] == token;
    BearerLayoutPresented(h2, k, token);
  }

  /** A first field other than `bearer` in some case is refused as not a bearer scheme. */
  lemma OtherSchemeRefused(scheme: string, rest: string)
    requires scheme != "" && ' ' !in scheme && Strings.Lower(scheme) != "bearer"
    ensures ParseAuthorization(Some(scheme)) == Refused(NotBearer)
    ensures ParseAuthorization(Some(scheme + " " + rest)) == Refused(NotBearer)
  {
    Strings.SplitWithoutSeparator(scheme, ' ');
    Strings.SplitAtFirstSeparator(scheme, rest, ' ');
  }

  /** A bearer scheme with no second field, or an empty one (a doubled space), is refused. */
  lemma MissingTokenRefused(scheme: string, rest: string)
    requires Strings.Lower(scheme) == "bearer" && ' ' !in scheme
    ensures ParseAuthorization(Some(scheme)) == Refused(EmptyToken)
    ensures ParseAuthorization(Some(scheme + "  " + rest)) == Refused(EmptyToken)
  {
    Strings.SplitWithoutSeparator(scheme, ' ');
    Strings.SplitAtFirstSeparator(scheme, " " + rest, ' ');
    Strings.SplitAtFirstSeparator("", rest, ' ');
    assert scheme + "  " + rest == scheme + [' '] + (" " + rest);
    assert " " + rest == "" + [' '] + rest;
  }

  /** The spellings `Bearer`, `bearer` and `BEARER` all pass the scheme check. */
  lemma BearerSpellings()
    ensures Strings.Lower("Bearer") == "bearer"
    ensures Strings.Lower("bearer") == "bearer"
    ensures Strings.Lower("BEARER") == "bearer"
  {
  }

  // -----------------------------------------------------------------------
  // Properties of the gate

  /** Without a header, or with an empty one, the answer is the 401 and nothing else runs. */
  lemma MissingHeaderRejected<I, R>(request: Request, verify: string -> Verdict<I>, handler: I -> R)
    requires request.authorization == None || request.authorization == Some("")
    ensures WithMcpAuth(request, verify, handler) == Rejected(MissingHeader, Unauthorized(request.origin))
  {
  }

  /**
   * When the header checks fail, the verifier and the handler are not
   * consulted: any other verifier and handler give the same result.
   */
  lemma RefusedHeaderIgnoresVerifier<I, R>(request: Request, v1: string -> Verdict<I>, v2: string -> Verdict<I>,
                                          h1: I -> R, h2: I -> R)
    requires ParseAuthorization(request.authorization).Refused?
    ensures WithMcpAuth(request, v1, h1) == WithMcpAuth(request, v2, h2)
    ensures WithMcpAuth(request, v1, h1).Rejected?
  {
  }

  /** The verifier is asked about the presented token and nothing else. */
  lemma VerifierSeesOnlyToken<I, R>(request: Request, v1: string -> Verdict<I>, v2: string -> Verdict<I>, handler: I -> R)
    requires ParseAuthorization(request.authorization).Presented?
    requires v1(ParseAuthorization(request.authorization).token) == v2(ParseAuthorization(request.authorization).token)
    ensures WithMcpAuth(request, v1, handler) == WithMcpAuth(request, v2, handler)
  {
  }

  /**
   * Once a token is presented, the verifier's verdict decides: an identity
   * runs the handler once with that identity and returns its result
   * unchanged, a falsy value is the 401, and an exception is not turned into
   * a 401 but propagates.
   */
  lemma VerdictDecides<I, R>(request: Request, verify: string -> Verdict<I>, handler: I -> R)
    requires ParseAuthorization(request.authorization).Presented?
    ensures var t := ParseAuthorization(request.authorization).token;
      && (verify(t).Verified? ==> WithMcpAuth(request, verify, handler) == Handled(verify(t).identity, handler(verify(t).identity)))
      && (verify(t).Falsy? ==> WithMcpAuth(request, verify, handler) == Rejected(VerificationRejected, Unauthorized(request.origin)))
      && (verify(t).Threw? ==> WithMcpAuth(request, verify, handler) == VerifierThrew)
  {
  }
}
