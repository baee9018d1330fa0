/**
 * The bearer strategy: per-request validation of a token string. It only
 * reads the store, so it is a function of the tables.
 */
module DefaultStrategy {
  import opened Wrappers
  import opened TokenEntity
  import opened UserEntity
  import opened CredentialStore
  import opened TokenService
  import opened UserService

  /**
   * The outcome of `validate`: an unknown string, an expired token, or the
   * token found together with the user it resolves to (`None` for a token
   * no user points at).
   */
  datatype AuthOutcome = Unauthorized | Expired | Authenticated(user: Option<UserRow>, token: Token)

  /** The expiry test: strictly later than creation time plus the time-to-live. */
  predicate IsExpired(t: Token, ttl: int, now: int) {
    t.tokenDate + ttl < now
  }

  /** validate: unknown string, then expiry, then the owning user. */
  function Validate(s: Tables, tokenString: string, ttl: int, now: int): (r: AuthOutcome)
    ensures r.Unauthorized? <==> TokenStringFree(s.tokens, tokenString)
    ensures r.Expired? <==> GetToken(s.tokens, tokenString).Some? && IsExpired(GetToken(s.tokens, tokenString).value, ttl, now)
    ensures r.Authenticated? ==> GetToken(s.tokens, tokenString) == Some(r.token) && !IsExpired(r.token, ttl, now)
    ensures r.Authenticated? ==> r.user == GetUserByToken(s, r.token)
  {
    match GetToken(s.tokens, tokenString)
    case None => Unauthorized
    case Some(token) =>
      if IsExpired(token, ttl, now) then Expired
      else Authenticated(GetUserByToken(s, token), token)
  }

  /** A token at exactly creation time plus time-to-live is still accepted. */
  lemma NotExpiredAtDeadline(s: Tables, k: nat, ttl: int)
    requires TokenTableOk(s) && k in s.tokens
    ensures Validate(s, s.tokens[k].token, ttl, s.tokens[k].tokenDate + ttl).Authenticated?
    ensures Validate(s, s.tokens[k].token, ttl, s.tokens[k].tokenDate + ttl + 1).Expired?
  {
    GetTokenFindsRow(s, k);
  }

  /**
   * A user has at most one live bearer string: two strings that both
   * authenticate as the same user are the same string.
   */
  lemma AtMostOneLiveTokenPerUser(s: Tables, a: string, b: string, ttl: int, now: int)
    requires Schema(s)
    requires Validate(s, a, ttl, now).Authenticated? && Validate(s, a, ttl, now).user.Some?
    requires Validate(s, b, ttl, now).Authenticated? && Validate(s, b, ttl, now).user.Some?
    requires Validate(s, a, ttl, now).user.value.id == Validate(s, b, ttl, now).user.value.id
    ensures a == b
  {
    var ra, rb := Validate(s, a, ttl, now), Validate(s, b, ttl, now);
    var ua :| ua in s.users && s.users[ua] == ra.user.value;
    var ub :| ub in s.users && s.users[ub] == rb.user.value;
    assert ua == ub;
    var ta :| ta in s.tokens && s.tokens[ta] == ra.token;
    var tb :| tb in s.tokens && s.tokens[tb] == rb.token;
    assert ta == tb;
  }
}
