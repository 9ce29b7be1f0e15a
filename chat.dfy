/**
 * The server function behind the text chat: it cleans the chat history
 * before handing it to the language model, and turns a failure of that call
 * into the error text the client shows.
 */
module Chat {
  import opened Common
  import Strings

  /** A chat message as the client keeps it. */
  datatype ChatMessage = ChatMessage(id: string, role: Role, content: string)

  /** A message as handed to the model: no id, trimmed content. */
  datatype ModelMessage = ModelMessage(role: Role, content: string)

  /** The start of the text the client shows after a failed reply. */
  const ErrorEchoPrefix := "Sorry, I encountered an error"

  /** Kept: content that is not blank and does not start, as sent, with the error echo. */
  predicate Admitted(m: ChatMessage): (r: bool)
    ensures m.content == [] ==> !r
    ensures ErrorEchoPrefix <= m.content ==> !r
  {
    Strings.Trim(m.content) != "" && !(ErrorEchoPrefix <= m.content)
  }

  function Prompt(m: ChatMessage): ModelMessage
  {
    ModelMessage(m.role, Strings.Trim(m.content))
  }

  /** The `filter(...).map(...)` chain over the history. */
  function Sanitize(ms: seq<ChatMessage>): (r: seq<ModelMessage>)
    ensures |r| <= |ms|
    ensures forall k :: 0 <= k < |r| ==> r[k].content != "" && Strings.Trim(r[k].content) == r[k].content
  {
    if ms == [] then []
    else
      Strings.TrimIdempotent(ms[0].content);
      (if Admitted(ms[0]) then [Prompt(ms[0])] else []) + Sanitize(ms[1..])
  }

  /** Cleaning a history in two pieces is cleaning each piece: order is kept. */
  lemma {:induction false} SanitizeAppend(a: seq<ChatMessage>, b: seq<ChatMessage>)
    ensures Sanitize(a + b) == Sanitize(a) + Sanitize(b)
    decreases |a|
  {
    if a == [] {
      assert a + b == b;
    } else {
      assert (a + b)[0] == a[0];
      assert (a + b)[1..] == a[1..] + b;
      SanitizeAppend(a[1..], b);
    }
  }

  /** The positions of the kept messages, in increasing order. */
  function Survivors(ms: seq<ChatMessage>): (r: seq<nat>)
    ensures forall k :: 0 <= k < |r| ==> r[k] < |ms|
  {
    if ms == [] then []
    else Survivors(ms[..|ms| - 1]) + (if Admitted(ms[|ms| - 1]) then [|ms| - 1] else [])
  }

  /** The kept positions increase, and a position is kept exactly when its message is admitted. */
  lemma {:induction false} SurvivorsAreAdmitted(ms: seq<ChatMessage>)
    ensures forall k, l :: 0 <= k < l < |Survivors(ms)| ==> Survivors(ms)[k] < Survivors(ms)[l]
    ensures forall i :: 0 <= i < |ms| ==> (i in Survivors(ms) <==> Admitted(ms[i]))
  {
    if ms != [] {
      var n := |ms| - 1;
      var init := ms[..n];
      SurvivorsAreAdmitted(init);
      forall i | 0 <= i < n ensures (i in Survivors(ms) <==> Admitted(ms[i])) {
        assert ms[i] == init[i];
      }
    }
  }

  /** The cleaned history is the prompt of every kept message, in the order of the kept positions. */
  lemma {:induction false} SanitizeKeepsSurvivors(ms: seq<ChatMessage>)
    ensures |Sanitize(ms)| == |Survivors(ms)|
    ensures forall k :: 0 <= k < |Survivors(ms)| ==> Sanitize(ms)[k] == Prompt(ms[Survivors(ms)[k]])
  {
    if ms != [] {
      var n := |ms| - 1;
      var init := ms[..n];
      SanitizeKeepsSurvivors(init);
      assert ms == init + [ms[n]];
      SanitizeAppend(init, [ms[n]]);
      var tail := if Admitted(ms[n]) then [Prompt(ms[n])] else [];
      assert Sanitize([ms[n]]) == tail by {
        assert [ms[n]][1..] == [];
      }
      var sv := Survivors(init) + (if Admitted(ms[n]) then [n] else []);
      assert Survivors(ms) == sv;
      forall k | 0 <= k < |sv| ensures Sanitize(ms)[k] == Prompt(ms[sv[k]]) {
        if k < |Survivors(init)| {
          assert ms[Survivors(init)[k]] == init[Survivors(init)[k]];
        }
      }
    }
  }

  /** A history that starts with the error echo is dropped. */
  lemma ErrorEchoDropped(id: string, role: Role, rest: string)
    ensures Sanitize([ChatMessage(id, role, ErrorEchoPrefix + rest)]) == []
  {
  }

  /**
   * The echo test looks at the untrimmed content, so white space in front of
   * the echo lets it through, trimmed.
   */
  lemma PaddedErrorEchoKept(id: string, role: Role, pad: string)
    requires pad != [] && Strings.AllSpace(pad)
    ensures Sanitize([ChatMessage(id, role, pad + ErrorEchoPrefix)]) == [ModelMessage(role, ErrorEchoPrefix)]
  {
    var m := ChatMessage(id, role, pad + ErrorEchoPrefix);
    Strings.TrimAfterSpace(pad, ErrorEchoPrefix);
    assert m.content[0] == pad[0];
    assert [m][1..] == [];
  }

  // -----------------------------------------------------------------------
  // Error text

  /** What the failing call threw: an `Error` with its message, or anything else. */
  datatype Thrown = ErrorValue(message: string) | NonError

  const RateLimitNotice := "Rate limit exceeded. Please try again in a moment."
  const FallbackNotice := "Failed to get AI response"

  /** The `error` field of the reply sent when the model call throws. */
  function UserFacingError(e: Thrown): (r: string)
    ensures e.ErrorValue? && Strings.Contains(e.message, "rate limit") ==> r == RateLimitNotice
    ensures e.ErrorValue? && !Strings.Contains(e.message, "rate limit") ==> r == e.message
    ensures e.NonError? ==> r == FallbackNotice
  {
    match e
    case ErrorValue(message) => if Strings.Contains(message, "rate limit") then RateLimitNotice else message
    case NonError => FallbackNotice
  }
}
