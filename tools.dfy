/** The `get_clerk_user_info` tool of the MCP server and the result it returns. */
module UserInfoTool {
  import opened Common

  /** One element of a tool result's `content` list: `{ type, text }`. */
  datatype ContentPart = ContentPart(kind: string, text: string)

  datatype ToolResult = ToolResult(content: seq<ContentPart>)

  /** The handler either returns a result or the user lookup throws out of it. */
  datatype ToolOutcome = Returned(result: ToolResult) | LookupThrew

  const NotAuthenticated := "Error: user not authenticated"

  /** `!authInfo?.subject` is false: there is an identity with a non-empty subject. */
  predicate HasSubject(authInfo: Option<AuthInfo>)
  {
    authInfo.Some? && authInfo.value.subject.Some? && authInfo.value.subject.value != ""
  }

  /** A result made of exactly one text part. */
  function TextResult(text: string): (r: ToolResult)
    ensures |r.content| == 1 && r.content[0].kind == "text" && r.content[0].text == text
  {
    ToolResult([ContentPart("text", text)])
  }

  /**
   * The tool's handler. `getUser` stands for `clerk.users.getUser` (`None`
   * when it throws) and `serialize` for `JSON.stringify` of the user.
   */
  function GetClerkUserInfo<U>(authInfo: Option<AuthInfo>, getUser: string -> Option<U>, serialize: U -> string)
    : (o: ToolOutcome)
    ensures o.Returned? ==> |o.result.content| == 1 && o.result.content[0].kind == "text"
    ensures !HasSubject(authInfo) ==> o == Returned(TextResult(NotAuthenticated))
    ensures HasSubject(authInfo) ==>
      var user := getUser(authInfo.value.subject.value);
      (o.LookupThrew? <==> user.None?) && (user.Some? ==> o == Returned(TextResult(serialize(user.value))))
  {
    if !HasSubject(authInfo) then Returned(TextResult(NotAuthenticated))
    else
      match getUser(authInfo.value.subject.value)
      case None => LookupThrew
      case Some(user) => Returned(TextResult(serialize(user)))
  }

  /**
   * Without a subject the lookup is never consulted; with one, it is
   * consulted about that subject only.
   */
  lemma LookupOnlyForSubject<U>(authInfo: Option<AuthInfo>, g1: string -> Option<U>, g2: string -> Option<U>,
                                serialize: U -> string)
    requires HasSubject(authInfo) ==> g1(authInfo.value.subject.value) == g2(authInfo.value.subject.value)
    ensures GetClerkUserInfo(authInfo, g1, serialize) == GetClerkUserInfo(authInfo, g2, serialize)
  {
  }
}
