/** Small value types shared by the modules of this model. */
module Common {

  datatype Option<+T> = None | Some(value: T)

  /** The two speakers of a chat, `"user" | "assistant"` in the source. */
  datatype Role = User | Assistant

  /**
   * The identity object a verifier resolves a bearer token to and that the
   * request carries as `request.auth`. The stub verifiers return only a
   * `userId`; an identity-provider token carries a `subject`.
   */
  datatype AuthInfo = AuthInfo(userId: Option<string>, subject: Option<string>)
}
