/** The `Token` entity: one row of the bearer-token table. */
module TokenEntity {

  /** Declared length of the `token` column (varchar(128)). */
  const TokenLength := 128

  /**
   * A stored bearer token. `id` is generated by the store; `token` is the
   * opaque credential string; `tokenDate` is the creation time in
   * milliseconds since the epoch.
   */
  datatype Token = Token(id: nat, token: string, tokenDate: int)

  /** The column constraints of a single row (non-null is implicit in the types). */
  predicate TokenColumnsFit(t: Token) {
    |t.token| <= TokenLength
  }
}
