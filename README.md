# ts-mcp: a Dafny model of the MCP session server and the chat helpers

This project models the parts of the ts-mcp storefront assistant that carry logic of their own:

- **The bearer gate `withMcpAuth`** (`auth.dfy`). It reads the `Authorization` header and runs four checks in a fixed order: the header is missing or empty; the first space-separated field is not `bearer` in some case; the second field is missing or empty; the pluggable verifier returns a falsy value. Every rejection gets the same 401. Its `WWW-Authenticate` challenge names `<origin>/.well-known/oauth-protected-resource`. On success the verifier's identity becomes `request.auth` and the wrapped handler runs once. The verifier is a function parameter. A verifier exception is not caught: it propagates.
- **The session registry** (`sessions.dfy`). The process-wide `transports` dictionary is a class `Registry` with a `map` field.
  - `Open` files a transport under its own session id.
  - `Close` removes a session id.
  - `Route` looks up the `sessionId` query parameter. The outcome is forwarded, handler error or unknown session, each with its own reply.
  - The transport's `handleMessage` is an abstract operation that may fail.
- **The two routes** (`endpoints.dfy`). `GET /api/sse` registers the transport and then connects the server. `POST /api/messages` routes a message. Both sit behind the gate with a stub verifier that always resolves to `{ userId: "123" }`.
- **The `get_clerk_user_info` tool** (`tools.dfy`). It returns one text part. That part is either "not authenticated" or the serialised user from an abstract lookup of the identity's `subject`.
- **The chat transcript** (`transcript.dfy`). This is the `filteredMessages` memo: nested loops flatten messages and their content parts into display rows. The empty-state placeholder shows when there are no rows.
- **The chat history clean-up** (`demo.ai.ts` side, `chat.dfy`). Blank messages and error echoes are dropped, the rest are trimmed, and a thrown error is turned into a user-facing text.

`strings.dfy` writes out the JavaScript string operations these rely on: `split(" ")`, `toLowerCase`, `trim`, `includes`, and the decimal keys `for ... in` yields. `common.dfy` holds `Option`, `Role` and `AuthInfo`.

## Model

| member | source | states |
|---|---|---|
| `Strings.Split` | src/utils/auth.ts:24 | `split(" ")` always yields at least one field, and no field contains the separator |
| `Strings.JoinSplit` | src/utils/auth.ts:24 | joining the fields of a split with the separator gives back the header |
| `Strings.SplitJoin` | src/utils/auth.ts:24 | splitting a join of separator-free fields gives back those fields |
| `Strings.Lower` | src/utils/auth.ts:25 | the result has the input's length, holds no upper-case ASCII letter, and keeps every other character in place |
| `Strings.BearerAnyCase` | src/utils/auth.ts:25 | a scheme lower-cases to `bearer` exactly when it is the six letters b-e-a-r-e-r, each in either case |
| `Strings.Trim` | src/utils/demo.ai.ts:63-68 | `trim()` never lengthens the content, and what it leaves is empty or neither starts nor ends with white space; `TrimFrames` states what is cut off |
| `Strings.TrimFrames` | src/utils/demo.ai.ts:63-68 | `trim()` cuts an all-white-space run off each end and nothing else; the rest neither starts nor ends with white space |
| `Strings.TrimEmptyIffBlank` | src/utils/demo.ai.ts:63 | `trim() === ""` exactly when the content is all white space |
| `Strings.TrimIdempotent` | src/utils/demo.ai.ts:68 | trimming a trimmed string changes nothing |
| `Strings.TrimAfterSpace` | src/utils/demo.ai.ts:63-68 | white space before a string that has none at its ends is removed by `trim()`, and nothing else is |
| `Strings.Contains` | src/utils/demo.ai.ts:85 | `includes` finds the empty string in every string; by `ContainsIffOccurs` it finds a substring exactly when that occurs at some position, so nothing longer than the string searched |
| `Strings.ContainsIffOccurs` | src/utils/demo.ai.ts:85 | `includes` finds a substring exactly when it occurs at some position |
| `Strings.Decimal` | src/components/agent.tsx:49-53 | an array key is a non-empty string of decimal digits with no leading zero: it starts with `0` exactly when the index is 0, and then it is `0` alone |
| `Strings.DecimalRoundTrip` | src/components/agent.tsx:49-53 | reading the decimal key of an index back gives the index |
| `Strings.DecimalInjective` | src/components/agent.tsx:49-53 | distinct indices have distinct keys |
| `Auth.Unauthorized` | src/utils/auth.ts:41-47 | the rejection response has status 401, body `Unauthorized`, and the only header the code sets is `WWW-Authenticate`, whose value is exactly `Bearer resource_metadata=` followed by the request's origin and `/.well-known/oauth-protected-resource` |
| `Auth.ChallengeDeterminesOrigin` | src/utils/auth.ts:45 | two 401 responses are equal exactly when their origins are equal, so the challenge names the request's origin |
| `Auth.ParseAuthorization` | src/utils/auth.ts:19-26 | the header is refused as missing exactly when it is null or empty; an accepted token is non-empty and holds no space; `PresentedIffBearerLayout` characterises acceptance fully |
| `Auth.WithMcpAuth` | src/utils/auth.ts:14-38 | every rejection is the 401 for the request's origin; when the handler runs, it receives the verifier's identity for the presented token, and its result is returned unchanged |
| `Auth.PresentedHasBearerLayout` | src/utils/auth.ts:24-26 | an accepted header is a space-free scheme spelling `bearer`, one space, then the non-empty space-free token, followed by the end or a space |
| `Auth.BearerLayoutPresented` | src/utils/auth.ts:24-26 | every header of that layout is accepted with exactly that token |
| `Auth.PresentedIffBearerLayout` | src/utils/auth.ts:24-26 | the header checks pass with token `t` if and only if the header has the bearer layout for `t` |
| `Auth.BearerTokenAccepted` | src/utils/auth.ts:24-26 | any case of `bearer`, a space and a token is accepted with that token, and fields after the token are ignored |
| `Auth.OtherSchemeRefused` | src/utils/auth.ts:25 | a first field other than `bearer` in some case is refused as not a bearer scheme |
| `Auth.MissingTokenRefused` | src/utils/auth.ts:24-26 | `Bearer` alone, or `Bearer` followed by two spaces, is refused for an empty token |
| `Auth.BearerSpellings` | src/utils/auth.ts:25 | `Bearer`, `bearer` and `BEARER` all pass the scheme check |
| `Auth.MissingHeaderRejected` | src/utils/auth.ts:19-20 | a missing or empty header gives the 401 for a missing header, whatever the verifier and handler are |
| `Auth.RefusedHeaderIgnoresVerifier` | src/utils/auth.ts:19-26 | when a header check fails, swapping the verifier or the handler changes nothing, so neither is called |
| `Auth.VerifierSeesOnlyToken` | src/utils/auth.ts:30 | the result depends on the verifier only through its verdict on the presented token |
| `Auth.VerdictDecides` | src/utils/auth.ts:30-37 | after the header checks pass: an identity runs the handler with it; a falsy verdict is the 401; a verifier exception propagates instead of becoming a 401 |
| `Sessions.SessionKey` | src/routes/api.messages.ts:16 | a present `sessionId` is the key as given; a missing one becomes the key `"null"`, so it collides exactly with `sessionId=null` |
| `Sessions.ReplyFor` | src/routes/api.messages.ts:18-27 | status 200 is set exactly when a transport was found; a body is sent exactly on the two failures, and it is `No transport found for sessionId` or `Error handling message` |
| `Sessions.RouteAsWritten` | src/routes/api.messages.ts:16-27 | as written, the lookup reports an unknown session only when the key is neither stored nor inherited from `Object.prototype` |
| `Sessions.InheritedKeyMisrouted` | src/routes/api.messages.ts:17-24 | as written, `sessionId=constructor` on an empty map gives `Error handling message`, with no transport called |
| `Sessions.Registry.constructor` | src/utils/server.ts:12 | the session map starts empty |
| `Sessions.Registry.Open` | src/routes/api.sse.ts:19 | the transport is filed under its own session id, replacing any previous entry; every other key keeps its entry; every entry stays filed under its own id |
| `Sessions.Registry.Close` | src/routes/api.sse.ts:23-25 | the id's entry is gone and every other entry is unchanged; closing an absent id changes nothing, so a second close is a no-op |
| `Sessions.Registry.OnTransportError` | src/routes/api.sse.ts:20-22 | a transport error leaves the map as it is |
| `Sessions.Registry.Route` | src/routes/api.messages.ts:16-27 | unknown session exactly when the key is absent; otherwise one delivery of the body and identity, to the transport filed under that id; forwarded or handler error as that call succeeds or fails; the map is only read; agrees with the as-written lookup on every non-inherited key |
| `Sessions.OpenThenRoute` | src/routes/api.messages.ts:17-21 | on any registry, once a transport is opened the map holds it under its id (replacing any previous one), and a message addressed to that id reaches that transport unchanged, with the request's identity |
| `UserInfoTool.GetClerkUserInfo` | src/utils/server.ts:20-33 | a returned result is always exactly one `text` part; without a subject (`HasSubject`: present and non-empty) it is `Error: user not authenticated`; with one, the lookup of that subject either throws out or its serialised user is the text |
| `UserInfoTool.LookupOnlyForSubject` | src/utils/server.ts:23-29 | without a subject the lookup is never consulted; with one, only about that subject |
| `Endpoints.StubGate` | src/routes/api.messages.ts:8-11 | behind the stub verifier `StubVerify`, which resolves every token to the same identity, only the header checks reject, nothing throws, and the identity is `{ userId: "123" }` |
| `Endpoints.StreamEndpoint` | src/routes/api.sse.ts:9-28 | a refused request gets the 401 and leaves the map and history alone; an accepted one files the transport under its id, and registration is recorded before the server connects |
| `Endpoints.OnSocketClose` | src/routes/api.sse.ts:23-25 | a closed socket removes its session id from the map |
| `Endpoints.MessageEndpoint` | src/routes/api.messages.ts:8-28 | denied exactly when the header checks fail, with the 401; otherwise the reply matches the routing outcome, an unknown session is exactly an absent key; for a present key the one delivery goes to the transport filed under it, with the body and the stub identity, and is forwarded exactly when `handleMessage` succeeds and a handler error exactly when it fails |
| `Endpoints.StubIdentityNotAuthenticated` | src/utils/server.ts:23-28 | with the stub identity, which has no subject, the tool always answers `Error: user not authenticated` |
| `Transcript.Caption` | src/components/agent.tsx:55 | the row text is the transcript when that is non-empty, otherwise the text; it is non-empty exactly when the part is shown (`Shown`: `transcript` or `text` is non-empty) |
| `Transcript.Flatten` | src/components/agent.tsx:48-58 | the flattening has no more rows than parts, and every row has non-empty text; `FlattenIsProjection` ties it to the slot enumeration |
| `Transcript.FilteredMessages` | src/components/agent.tsx:42-61 | the nested loops produce exactly the flattening of the messages |
| `Transcript.Render` | src/components/agent.tsx:63-69 | the placeholder `Ask me anything! I'm here to help.` is shown exactly when there are no rows |
| `Transcript.SlotsEnumerate` | src/components/agent.tsx:48-49 | the enumeration lists every (message, part index) pair exactly once, in message order, then part-index order |
| `Transcript.FlattenIsProjection` | src/components/agent.tsx:48-58 | the flattening keeps each shown part's row, in enumeration order, and drops the others |
| `Transcript.TranscriptFacts` | src/components/agent.tsx:42-69 | no more rows than parts; every row has non-empty text and is the row `<itemId>-<index>` of a shown part, with its message's role; every shown part has its row; the placeholder shows exactly when no part is shown |
| `Transcript.RowIdsDistinctWithinMessage` | src/components/agent.tsx:53 | rows of different parts of one message have different ids; the row `EntryFor` builds for part `j` has id `<itemId>-<j>`, the message's role and the part's caption |
| `Chat.Admitted` | src/utils/demo.ai.ts:61-65 | empty content and content starting with the error echo are never kept; `SurvivorsAreAdmitted` and `TrimEmptyIffBlank` state the full test |
| `Chat.Sanitize` | src/utils/demo.ai.ts:60-69 | the cleaned history is no longer than the input, and every message in it has non-empty trimmed content |
| `Chat.SanitizeAppend` | src/utils/demo.ai.ts:60-69 | cleaning a concatenation is concatenating the cleaned parts, so relative order is kept |
| `Chat.SurvivorsAreAdmitted` | src/utils/demo.ai.ts:61-65 | the kept positions increase, and a position is kept exactly when its content is not blank and does not start with the error echo |
| `Chat.SanitizeKeepsSurvivors` | src/utils/demo.ai.ts:60-69 | the k-th cleaned message is `Prompt` of the k-th kept message: its role and trimmed content, with the `id` dropped |
| `Chat.ErrorEchoDropped` | src/utils/demo.ai.ts:64 | a message starting with `Sorry, I encountered an error` is dropped |
| `Chat.PaddedErrorEchoKept` | src/utils/demo.ai.ts:63-68 | the echo test is on untrimmed content: white space before the echo lets it through, trimmed |
| `Chat.UserFacingError` | src/utils/demo.ai.ts:83-91 | an `Error` whose message includes `rate limit` gives the rate-limit notice; any other `Error` gives its own message; anything else gives `Failed to get AI response` |

## Findings

| source | as written | input that shows it | evidently intended | confidence | as-written member | corrected member |
|---|---|---|---|---|---|---|
| src/routes/api.messages.ts:17-24 | `transports` is a plain object, so `transports[sessionId]` also finds the properties every object inherits (`constructor`, `toString`, `__proto__`, ...). Each is truthy, the `try` branch runs, and calling the missing `handleMessage` throws a `TypeError`, which is caught | `POST /api/messages?sessionId=constructor` with a valid bearer header and no such session | reply `No transport found for sessionId`, because no session has that id | not executed; high | `Sessions.InheritedKeyMisrouted` | `Sessions.Registry.Route` |

The rest of the model, `Endpoints.MessageEndpoint`, uses the corrected `Route`, which looks up stored keys only. `Route`'s contract proves that it agrees with the as-written lookup on every key that is not an inherited property name.

## Left out

- `withMcpAuth` does not catch an exception thrown by the verifier, so the model's result for it is `VerifierThrew`, not a rejection with a 401. What the surrounding runtime then answers is not modelled.
- `Auth.WithMcpAuth` calls its verifier with the token only, where the code passes the token and the request. The request is fixed within one call, so a verifier that needs it closes over it; no behaviour is lost.
- `Auth.Unauthorized` does not model the `Content-Type: text/plain;charset=UTF-8` header the `Response` constructor adds for a string body; the contract covers only the headers the code sets.
- The origin is an input. Parsing `request.url` into its origin is not modelled.
- The header value is taken as `Headers.get` returns it. The runtime's normalisation is not modelled: stripping surrounding white space, and joining repeated headers with `, `.
- `Strings.Lower` models `toLowerCase` on the ASCII letters only. No other character lower-cases to one of `b`, `e`, `a`, `r`, so the comparison with `bearer` comes out the same.
- Strings are sequences of Unicode scalar values, not UTF-16 code units. Surrogate pairs are not modelled.
- Parsing the request body (`request.json()`) is not modelled, nor is its failure. The body is an opaque `Payload`.
- These SDK parts are abstract: the SSE transport, `server.connect`, and what `handleMessage` does inside. `handleMessage` is a function parameter that says whether the call succeeded. `server.connect` appears only as a `Connected` event in the registry's history. Session-id generation is outside the model: the id is an input.
- Clerk's `clerkClient` and `users.getUser` are a lookup parameter, where `None` means the call throws. `JSON.stringify` of the user is a serialisation parameter. What the MCP SDK does with a thrown tool handler is not modelled.
- The status Node uses when the message endpoint never sets one is not modelled. `Sessions.ReplyFor` records only whether the endpoint set a status.
- Logging (`console.log`, `console.error`) is not modelled.
- Concurrent opens, closes and posts on the shared map are not modelled: the registry is driven by sequential method calls.
- Other tools, such as a dice roller, are not part of this model: only `get_clerk_user_info` is registered in the code.
- The rest of `src/components/agent.tsx` is not part of this model: React rendering, auto-scroll, the realtime agent, its WebRTC session, and `sendMessage`. The `for ... in` loop is modelled as a walk over the array's indices. Array holes and enumerable properties added to `Array.prototype` are not modelled.
- The rest of `src/utils/demo.ai.ts` is not part of this model: `getAgentToken`, `getGuitars`, the `streamText` call and its streamed response. These are network and language-model calls.
- `src/components/spectrum-analyzer.tsx`, `src/components/example-AIAssistant.tsx` and `src/client.tsx` are not part of this model. They are audio visualisation and UI wiring.
