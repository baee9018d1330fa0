/**
 * The token controller: issue a token for valid credentials, refresh the
 * authenticated user's token, and invalidate it. Each handler is a
 * sequence of store operations; `IssueToken`, `Refresh` and `Invalidate` are
 * specified by the flow functions over the tables, about which the
 * lemmas below are stated.
 */
module TokenController {
  import opened Wrappers
  import opened TokenEntity
  import opened UserEntity
  import opened CredentialStore
  import opened TokenService
  import opened UserService
  import opened DefaultStrategy

  /** An HTTP exception: status code and message. */
  datatype HttpError = HttpError(status: int, message: string)

  const UnauthorizedStatus := 401
  const InvalidCredentials := HttpError(UnauthorizedStatus, "Invalid username and/or password")
  const TokenHasExpired := HttpError(UnauthorizedStatus, "Token has expired")
  const UnauthorizedError := HttpError(UnauthorizedStatus, "Unauthorized")

  // ---------------------------------------------------------------------
  // The guard
  // ---------------------------------------------------------------------

  /**
   * The bearer guard in front of `refresh` and `invalidate`: the
   * strategy's `validate`, and a rejection when it resolves no user. On
   * success, the user row and the token the join loaded into it.
   */
  function Authenticate(s: Tables, bearer: string, ttl: int, now: int): (r: Result<(UserRow, Token), HttpError>)
    ensures r.Err? ==> r.error.status == UnauthorizedStatus
    ensures r.Err? ==> (r.error == TokenHasExpired <==> Validate(s, bearer, ttl, now).Expired?)
    ensures r.Ok? <==> Validate(s, bearer, ttl, now).Authenticated? && Validate(s, bearer, ttl, now).user.Some?
    ensures r.Ok? ==> r.value.0 in s.users.Values && r.value.0.tokenId == Some(r.value.1.id)
    ensures r.Ok? ==> GetToken(s.tokens, bearer) == Some(r.value.1)
  {
    match Validate(s, bearer, ttl, now)
    case Unauthorized => Err(UnauthorizedError)
    case Expired => Err(TokenHasExpired)
    case Authenticated(user, token) =>
      if user.None? then Err(UnauthorizedError) else Ok((user.value, token))
  }

  // ---------------------------------------------------------------------
  // The three flows on the tables
  // ---------------------------------------------------------------------

  /**
   * POST /auth/token: the user found by credentials is loaded without its
   * token relation, so createToken sees no current token; the new token
   * is then written to the user's join column.
   */
  function TokenFlow(s: Tables, username: string, password: string, str: string, now: int): (r: (Tables, Result<Token, HttpError>))
    ensures GetUserByUsernameAndPassword(s.users, username, password).None? <==> r.1.Err?
    ensures r.1.Err? ==> r == (s, Err(InvalidCredentials))
    ensures r.1.Ok? ==> r.1.value == Token(s.nextTokenId, str, now) && r.0.tokens == s.tokens[r.1.value.id := r.1.value]
  {
    match GetUserByUsernameAndPassword(s.users, username, password)
    case None => (s, Err(InvalidCredentials))
    case Some(row) =>
      var (saved, token) := CreateTokenStep(s, None, str, now);
      (AfterUserUpdate(saved, WriteBack(row, Some(token))), Ok(token))
  }

  /** PUT /auth/refresh: the authenticated user's token is rotated and the user written back. */
  function RefreshFlow(s: Tables, bearer: string, ttl: int, now: int, str: string): (r: (Tables, Result<Token, HttpError>))
    ensures Authenticate(s, bearer, ttl, now).Err? ==> r == (s, Err(Authenticate(s, bearer, ttl, now).error))
    ensures Authenticate(s, bearer, ttl, now).Ok? ==> r.1 == Ok(Token(s.nextTokenId, str, now))
  {
    match Authenticate(s, bearer, ttl, now)
    case Err(e) => (s, Err(e))
    case Ok((row, current)) =>
      var (saved, token) := CreateTokenStep(s, Some(current), str, now);
      (AfterUserUpdate(saved, WriteBack(row, Some(token))), Ok(token))
  }

  /** DELETE /auth/invalidate: the authenticated user's token is deleted; the answer is true. */
  function InvalidateFlow(s: Tables, bearer: string, ttl: int, now: int): (r: (Tables, Result<bool, HttpError>))
    ensures Authenticate(s, bearer, ttl, now).Err? ==> r == (s, Err(Authenticate(s, bearer, ttl, now).error))
    ensures Authenticate(s, bearer, ttl, now).Ok? ==> r.1 == Ok(true)
  {
    match Authenticate(s, bearer, ttl, now)
    case Err(e) => (s, Err(e))
    case Ok((row, current)) => (AfterTokenDelete(s, current.id), Ok(true))
  }

  // ---------------------------------------------------------------------
  // The handlers
  // ---------------------------------------------------------------------

  method IssueToken(store: Store, username: string, password: string, uuid: string, randomHex: nat -> string, now: int)
    returns (r: Result<Token, HttpError>)
    requires HexSource(randomHex)
    requires TokenStringFree(store.tokens, GenerateUniqueToken(uuid, randomHex))
    modifies store
    ensures (store.State(), r) == TokenFlow(old(store.State()), username, password, GenerateUniqueToken(uuid, randomHex), now)
  {
    var found := GetUserByUsernameAndPassword(store.users, username, password);
    if found.None? {
      return Err(InvalidCredentials);
    }
    var user := new User.Load(found.value, None);
    var token := CreateToken(store, user, uuid, randomHex, now);
    UpdateUser(store, user);
    r := Ok(token);
  }

  method Refresh(store: Store, bearer: string, ttl: int, now: int, uuid: string, randomHex: nat -> string)
    returns (r: Result<Token, HttpError>)
    requires HexSource(randomHex)
    requires TokenStringFree(store.tokens, GenerateUniqueToken(uuid, randomHex))
    modifies store
    ensures (store.State(), r) == RefreshFlow(old(store.State()), bearer, ttl, now, GenerateUniqueToken(uuid, randomHex))
  {
    var auth := Authenticate(store.State(), bearer, ttl, now);
    if auth.Err? {
      return Err(auth.error);
    }
    var user := new User.Load(auth.value.0, Some(auth.value.1));
    var token := CreateToken(store, user, uuid, randomHex, now);
    UpdateUser(store, user);
    r := Ok(token);
  }

  method Invalidate(store: Store, bearer: string, ttl: int, now: int) returns (r: Result<bool, HttpError>)
    modifies store
    ensures (store.State(), r) == InvalidateFlow(old(store.State()), bearer, ttl, now)
  {
    var auth := Authenticate(store.State(), bearer, ttl, now);
    if auth.Err? {
      return Err(auth.error);
    }
    var user := new User.Load(auth.value.0, Some(auth.value.1));
    var deleted := DeleteToken(store, user.token.value.id);
    r := Ok(deleted);
  }

  // ---------------------------------------------------------------------
  // The corrected token flow
  // ---------------------------------------------------------------------

  /**
   * The token flow with the user's token relation loaded, so createToken
   * sees (and deletes) the token the user already holds.
   */
  function TokenFlowWithRelation(s: Tables, username: string, password: string, str: string, now: int): (r: (Tables, Result<Token, HttpError>))
    ensures GetUserByUsernameAndPassword(s.users, username, password).None? <==> r.1.Err?
    ensures r.1.Err? ==> r == (s, Err(InvalidCredentials))
  {
    match GetUserByUsernameAndPassword(s.users, username, password)
    case None => (s, Err(InvalidCredentials))
    case Some(row) =>
      var current := if row.tokenId.Some? && row.tokenId.value in s.tokens then Some(s.tokens[row.tokenId.value]) else None;
      var (saved, token) := CreateTokenStep(s, current, str, now);
      (AfterUserUpdate(saved, WriteBack(row, Some(token))), Ok(token))
  }

  // ---------------------------------------------------------------------
  // Properties of the flows
  // ---------------------------------------------------------------------

  /**
   * Rotating the token of a stored user whose relation holds the token its
   * join column names: every schema constraint still holds afterwards.
   */
  lemma RotateKeepsSchema(s: Tables, row: UserRow, current: Option<Token>, str: string, now: int)
    requires Schema(s) && row.id in s.users && s.users[row.id] == row
    requires current.Some? ==> row.tokenId == Some(current.value.id)
    requires TokenStringFree(s.tokens, str) && |str| <= TokenLength
    ensures Schema(AfterUserUpdate(CreateTokenStep(s, current, str, now).0, WriteBack(row, Some(CreateTokenStep(s, current, str, now).1))))
  {
    var (saved, t) := CreateTokenStep(s, current, str, now);
    CreateTokenKeepsSchema(s, current, str, now);
    assert forall k :: k in saved.users && saved.users[k].tokenId.Some? ==> saved.users[k].tokenId.value in s.tokens;
    WriteBackKeepsSchema(saved, row, Some(t));
  }

  /**
   * Rotating the token of a user whose relation holds the token its join
   * column names leaves no token without an owner if there was none: the
   * new token is the user's, every other remaining token keeps its owner.
   */
  lemma RotateKeepsOwners(s: Tables, row: UserRow, current: Option<Token>, str: string, now: int)
    requires row.id in s.users && s.users[row.id] == row
    requires current.Some? <==> row.tokenId.Some?
    requires current.Some? ==> row.tokenId == Some(current.value.id)
    requires NoOrphanTokens(s)
    ensures NoOrphanTokens(AfterUserUpdate(CreateTokenStep(s, current, str, now).0, WriteBack(row, Some(CreateTokenStep(s, current, str, now).1))))
  {
    var (saved, t) := CreateTokenStep(s, current, str, now);
    var s' := AfterUserUpdate(saved, WriteBack(row, Some(t)));
    forall k | k in s'.tokens
      ensures exists u :: u in s'.users && s'.users[u].tokenId == Some(k)
    {
      if k == t.id {
        assert s'.users[row.id].tokenId == Some(k);
      } else {
        var u :| u in s.users && s.users[u].tokenId == Some(k);
        assert u != row.id;
        assert s'.users[u] == s.users[u];
      }
    }
  }

  /**
   * The user and token the guard admits are stored rows: the token is the
   * one the user's join column names.
   */
  lemma AuthenticatedRowsStored(s: Tables, bearer: string, ttl: int, now: int)
    requires TokenTableOk(s) && UserTableOk(s)
    requires Authenticate(s, bearer, ttl, now).Ok?
    ensures var (row, current) := Authenticate(s, bearer, ttl, now).value;
            && row.id in s.users && s.users[row.id] == row
            && current.id in s.tokens && s.tokens[current.id] == current
            && row.tokenId == Some(current.id) && current.token == bearer
  {
    var (row, current) := Authenticate(s, bearer, ttl, now).value;
    var k :| k in s.users && s.users[k] == row;
    var j :| j in s.tokens && s.tokens[j] == current;
  }

  /** PUT /auth/refresh keeps the schema and leaves no token without an owner if there was none. */
  lemma RefreshKeepsInvariants(s: Tables, bearer: string, ttl: int, now: int, str: string)
    requires Schema(s) && TokenStringFree(s.tokens, str) && |str| <= TokenLength
    ensures Schema(RefreshFlow(s, bearer, ttl, now, str).0)
    ensures NoOrphanTokens(s) ==> NoOrphanTokens(RefreshFlow(s, bearer, ttl, now, str).0)
  {
    if Authenticate(s, bearer, ttl, now).Ok? {
      var (row, current) := Authenticate(s, bearer, ttl, now).value;
      AuthenticatedRowsStored(s, bearer, ttl, now);
      RotateKeepsSchema(s, row, Some(current), str, now);
      if NoOrphanTokens(s) {
        RotateKeepsOwners(s, row, Some(current), str, now);
      }
    }
  }

  /**
   * After a successful PUT /auth/refresh the old bearer resolves to no
   * token, and the token table has as many rows as before.
   */
  lemma RefreshRevokesBearer(s: Tables, bearer: string, ttl: int, now: int, str: string)
    requires TokenTableOk(s) && UserTableOk(s) && TokenStringFree(s.tokens, str)
    requires RefreshFlow(s, bearer, ttl, now, str).1.Ok?
    ensures TokenStringFree(RefreshFlow(s, bearer, ttl, now, str).0.tokens, bearer)
    ensures |RefreshFlow(s, bearer, ttl, now, str).0.tokens| == |s.tokens|
  {
    var (row, current) := Authenticate(s, bearer, ttl, now).value;
    AuthenticatedRowsStored(s, bearer, ttl, now);
    var (s', r) := RefreshFlow(s, bearer, ttl, now, str);
    var t := r.value;
    assert t.id !in s.tokens;
    forall i | i in s'.tokens
      ensures s'.tokens[i].token != bearer
    {
      if i != t.id {
        assert s.tokens[i].token == s'.tokens[i].token;
      }
    }
    ReplaceKeepsSize(s.tokens, current.id, t);
  }

  /**
   * With a non-negative lifetime, the token PUT /auth/refresh answers
   * with authenticates the same user straight away.
   */
  lemma RefreshedTokenAuthenticates(s: Tables, bearer: string, ttl: int, now: int, str: string)
    requires Schema(s) && TokenStringFree(s.tokens, str) && |str| <= TokenLength && 0 <= ttl
    requires RefreshFlow(s, bearer, ttl, now, str).1.Ok?
    ensures var (s', r) := RefreshFlow(s, bearer, ttl, now, str);
            var id := Authenticate(s, bearer, ttl, now).value.0.id;
            id in s'.users && Validate(s', str, ttl, now) == Authenticated(Some(s'.users[id]), r.value)
  {
    var (row, current) := Authenticate(s, bearer, ttl, now).value;
    AuthenticatedRowsStored(s, bearer, ttl, now);
    RefreshKeepsInvariants(s, bearer, ttl, now, str);
    var (s', r) := RefreshFlow(s, bearer, ttl, now, str);
    GetTokenFindsRow(s', r.value.id);
    GetUserByTokenFindsOwner(s', row.id, r.value);
  }

  /** DELETE /auth/invalidate keeps the schema and leaves no token without an owner if there was none. */
  lemma InvalidateKeepsInvariants(s: Tables, bearer: string, ttl: int, now: int)
    requires Schema(s)
    ensures Schema(InvalidateFlow(s, bearer, ttl, now).0)
    ensures NoOrphanTokens(s) ==> NoOrphanTokens(InvalidateFlow(s, bearer, ttl, now).0)
  {
    if Authenticate(s, bearer, ttl, now).Ok? {
      var current := Authenticate(s, bearer, ttl, now).value.1;
      var s' := AfterTokenDelete(s, current.id);
      TokenDeleteKeepsSchema(s, current.id);
      if NoOrphanTokens(s) {
        forall i | i in s'.tokens
          ensures exists u :: u in s'.users && s'.users[u].tokenId == Some(i)
        {
          var u :| u in s.users && s.users[u].tokenId == Some(i);
          assert s'.users[u] == s.users[u];
        }
      }
    }
  }

  /**
   * After a successful DELETE /auth/invalidate the answer is true, the
   * bearer is refused at any time, the user holds no token and no other
   * token row is deleted.
   */
  lemma InvalidateRevokesToken(s: Tables, bearer: string, ttl: int, now: int)
    requires TokenTableOk(s) && UserTableOk(s)
    requires InvalidateFlow(s, bearer, ttl, now).1.Ok?
    ensures var (s', r) := InvalidateFlow(s, bearer, ttl, now);
            var (row, current) := Authenticate(s, bearer, ttl, now).value;
            && r.value
            && (forall later :: Validate(s', bearer, ttl, later) == Unauthorized)
            && s'.users[row.id].tokenId.None?
            && s'.tokens == s.tokens - {current.id}
  {
    AuthenticatedRowsStored(s, bearer, ttl, now);
    var current := Authenticate(s, bearer, ttl, now).value.1;
    var s' := InvalidateFlow(s, bearer, ttl, now).0;
    assert TokenStringFree(s'.tokens, bearer);
  }

  /**
   * POST /auth/token, as written: `updateUser` points the user found by
   * credentials at the new token, keeps its other columns, and leaves
   * every other user row as it was.
   */
  lemma TokenFlowPointsUserAtNewToken(s: Tables, username: string, password: string, str: string, now: int)
    requires UserTableOk(s)
    requires TokenFlow(s, username, password, str, now).1.Ok?
    ensures var (s', r) := TokenFlow(s, username, password, str, now);
            var row := GetUserByUsernameAndPassword(s.users, username, password).value;
            && s'.users.Keys == s.users.Keys
            && row.id in s'.users && s'.users[row.id] == row.(tokenId := Some(r.value.id))
            && forall k :: k in s.users && k != row.id ==> s'.users[k] == s.users[k]
  {
    var row := GetUserByUsernameAndPassword(s.users, username, password).value;
    var k :| k in s.users && s.users[k] == row;
  }

  /**
   * POST /auth/token as written: a user who already holds a token keeps
   * that row in the token table, but nobody points at it any more, so it
   * is left without an owner.
   */
  lemma TokenFlowOrphansPreviousToken(s: Tables, username: string, password: string, str: string, now: int)
    requires Schema(s) && TokenStringFree(s.tokens, str) && |str| <= TokenLength
    requires GetUserByUsernameAndPassword(s.users, username, password).Some?
    requires GetUserByUsernameAndPassword(s.users, username, password).value.tokenId.Some?
    ensures var prev := GetUserByUsernameAndPassword(s.users, username, password).value.tokenId.value;
            var s' := TokenFlow(s, username, password, str, now).0;
            && Schema(s')
            && prev in s'.tokens
            && (forall u :: u in s'.users ==> s'.users[u].tokenId != Some(prev))
            && !NoOrphanTokens(s')
  {
    var row := GetUserByUsernameAndPassword(s.users, username, password).value;
    var oldId := row.tokenId.value;
    var (saved, t) := CreateTokenStep(s, None, str, now);
    CreateTokenKeepsSchema(s, None, str, now);
    assert saved.users == s.users;
    assert oldId != t.id;
    var k :| k in s.users && s.users[k] == row;
    assert saved.users[row.id].(tokenId := None) == row.(tokenId := None);
    WriteBackKeepsSchema(saved, row, Some(t));
    var s' := AfterUserUpdate(saved, WriteBack(row, Some(t)));
    assert oldId in s'.tokens;
    forall u | u in s'.users
      ensures s'.users[u].tokenId != Some(oldId)
    {
      if u != row.id {
        assert s'.users[u] == s.users[u];
      }
    }
  }

  /** A store with one user, alice, who holds token 1. */
  const AliceStore := Tables(map[1 := UserRow(1, "alice", "alice@example.org", "secret", Some(1))],
                             map[1 := TokenEntity.Token(1, "aa", 0)], map[], 2, 1)

  /** The one-user store meets every constraint and has no token without an owner. */
  lemma AliceStoreOk()
    ensures Schema(AliceStore) && NoOrphanTokens(AliceStore)
  {
    assert AliceStore.users[1].tokenId == Some(1);
  }

  /**
   * POST /auth/token for alice, who already holds a token, leaves her old
   * token in the table with nobody pointing at it.
   */
  lemma TokenFlowOrphanExample()
    ensures Schema(AliceStore) && NoOrphanTokens(AliceStore)
    ensures !NoOrphanTokens(TokenFlow(AliceStore, "alice", "secret", "bb", 10).0)
  {
    AliceStoreOk();
    assert AliceStore.users[1].username == "alice" && AliceStore.users[1].password == "secret";
    TokenFlowOrphansPreviousToken(AliceStore, "alice", "secret", "bb", 10);
  }

  /** The corrected token flow keeps the schema and leaves no token without an owner if there was none. */
  lemma TokenFlowWithRelationKeepsInvariants(s: Tables, username: string, password: string, str: string, now: int)
    requires Schema(s) && TokenStringFree(s.tokens, str) && |str| <= TokenLength
    ensures Schema(TokenFlowWithRelation(s, username, password, str, now).0)
    ensures NoOrphanTokens(s) ==> NoOrphanTokens(TokenFlowWithRelation(s, username, password, str, now).0)
  {
    match GetUserByUsernameAndPassword(s.users, username, password)
    case None =>
    case Some(row) =>
      var k :| k in s.users && s.users[k] == row;
      var current := if row.tokenId.Some? && row.tokenId.value in s.tokens then Some(s.tokens[row.tokenId.value]) else None;
      RotateKeepsSchema(s, row, current, str, now);
      if NoOrphanTokens(s) {
        RotateKeepsOwners(s, row, current, str, now);
      }
  }

  /**
   * The corrected token flow: the user's previous token is deleted, the
   * user points at the new one, and the token table grows by at most one.
   */
  lemma TokenFlowWithRelationReplacesToken(s: Tables, username: string, password: string, str: string, now: int)
    requires TokenTableOk(s) && UserTableOk(s) && TokenLinkOk(s)
    requires TokenFlowWithRelation(s, username, password, str, now).1.Ok?
    ensures var row := GetUserByUsernameAndPassword(s.users, username, password).value;
            var (s', r) := TokenFlowWithRelation(s, username, password, str, now);
            && row.id in s'.users && s'.users[row.id].tokenId == Some(r.value.id)
            && (row.tokenId.Some? ==> row.tokenId.value !in s'.tokens)
            && |s'.tokens| <= |s.tokens| + 1
  {
    var row := GetUserByUsernameAndPassword(s.users, username, password).value;
    var k :| k in s.users && s.users[k] == row;
    var current := if row.tokenId.Some? && row.tokenId.value in s.tokens then Some(s.tokens[row.tokenId.value]) else None;
    RotateReplacesToken(s, row, current, str, now);
  }

  /**
   * Rotating the token of a stored user whose relation holds the token its
   * join column names: the user points at the new token, the old one is
   * gone and the table grows by at most one row.
   */
  lemma RotateReplacesToken(s: Tables, row: UserRow, current: Option<Token>, str: string, now: int)
    requires TokenTableOk(s) && row.id in s.users
    requires current.Some? ==> current.value.id in s.tokens
    requires current.Some? <==> row.tokenId.Some?
    requires current.Some? ==> row.tokenId == Some(current.value.id)
    ensures var (saved, t) := CreateTokenStep(s, current, str, now);
            var s' := AfterUserUpdate(saved, WriteBack(row, Some(t)));
            && s'.users[row.id].tokenId == Some(t.id)
            && (row.tokenId.Some? ==> row.tokenId.value !in s'.tokens)
            && |s'.tokens| <= |s.tokens| + 1
  {
    var t := CreateTokenStep(s, current, str, now).1;
    if current.Some? {
      RemoveThenAddBound(s.tokens, current.value.id, t);
    } else {
      AddBound(s.tokens, t);
    }
  }

  /** Removing a present key and adding an absent one keeps a table's size. */
  lemma ReplaceKeepsSize(m: map<nat, Token>, gone: nat, t: Token)
    requires gone in m && t.id !in m
    ensures |(m - {gone})[t.id := t]| == |m|
  {
    var removed := m - {gone};
    assert removed.Keys == m.Keys - {gone};
    assert |removed| == |m| - 1;
    assert t.id !in removed;
  }

  /** Adding one row grows a table by at most one row. */
  lemma AddBound(m: map<nat, Token>, t: Token)
    ensures |m[t.id := t]| <= |m| + 1
  {
    if t.id in m {
      assert m[t.id := t].Keys == m.Keys;
    }
  }

  /** Removing one key and adding one grows a table by at most one row. */
  lemma RemoveThenAddBound(m: map<nat, Token>, gone: nat, t: Token)
    ensures |(m - {gone})[t.id := t]| <= |m| + 1
  {
    var removed := m - {gone};
    if gone in m {
      assert removed.Keys == m.Keys - {gone};
    } else {
      assert removed == m;
    }
    AddBound(removed, t);
  }
}
