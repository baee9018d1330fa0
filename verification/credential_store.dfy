/**
 * The credential store behind the repositories: the user, token and
 * reset-password-token tables, the schema constraints they keep, and the
 * store primitives (save, delete, update, find-one) the services use.
 */
module CredentialStore {
  import opened Wrappers
  import opened TokenEntity
  import opened ResetPasswordTokenEntity
  import opened UserEntity

  /**
   * The three tables, keyed by primary key, and the next value of each
   * autoincrement key (generated keys are never reused).
   */
  datatype Tables = Tables(
    users: map<nat, UserRow>,
    tokens: map<nat, Token>,
    resetTokens: map<nat, ResetPasswordToken>,
    nextTokenId: nat,
    nextResetTokenId: nat)

  // ---------------------------------------------------------------------
  // Schema constraints
  // ---------------------------------------------------------------------

  /** Token table: keys are the rows' ids below the counter, strings are unique and fit the column. */
  ghost predicate TokenTableOk(s: Tables) {
    && (forall k :: k in s.tokens ==> s.tokens[k].id == k && k < s.nextTokenId && TokenColumnsFit(s.tokens[k]))
    && (forall a, b :: a in s.tokens && b in s.tokens && s.tokens[a].token == s.tokens[b].token ==> a == b)
  }

  /** User table: keys are the rows' ids; username, email and password are each unique. */
  ghost predicate UserTableOk(s: Tables) {
    && (forall k :: k in s.users ==> s.users[k].id == k && UserColumnsFit(s.users[k]))
    && (forall a, b :: a in s.users && b in s.users && s.users[a].username == s.users[b].username ==> a == b)
    && (forall a, b :: a in s.users && b in s.users && s.users[a].email == s.users[b].email ==> a == b)
    && (forall a, b :: a in s.users && b in s.users && s.users[a].password == s.users[b].password ==> a == b)
  }

  /**
   * The one-to-one join column: no two users share a token, and a
   * non-null join column names an existing token (ON DELETE SET NULL).
   */
  ghost predicate TokenLinkOk(s: Tables) {
    && (forall a, b :: a in s.users && b in s.users && s.users[a].tokenId.Some? && s.users[a].tokenId == s.users[b].tokenId ==> a == b)
    && (forall k :: k in s.users && s.users[k].tokenId.Some? ==> s.users[k].tokenId.value in s.tokens)
  }

  /** Reset-token table: keys are ids below the counter, strings unique, owners exist. */
  ghost predicate ResetTableOk(s: Tables) {
    && (forall k :: k in s.resetTokens ==> s.resetTokens[k].id == k && k < s.nextResetTokenId)
    && (forall a, b :: a in s.resetTokens && b in s.resetTokens && s.resetTokens[a].token == s.resetTokens[b].token ==> a == b)
    && (forall k :: k in s.resetTokens && s.resetTokens[k].user.Some? ==> s.resetTokens[k].user.value in s.users)
  }

  /** Every constraint the entity declarations put on the store. */
  ghost predicate Schema(s: Tables) {
    TokenTableOk(s) && UserTableOk(s) && TokenLinkOk(s) && ResetTableOk(s)
  }

  /** No token row is left without a user pointing at it. */
  ghost predicate NoOrphanTokens(s: Tables) {
    forall k :: k in s.tokens ==> exists u :: u in s.users && s.users[u].tokenId == Some(k)
  }

  /** `str` is not the string of any stored token. */
  predicate TokenStringFree(tokens: map<nat, Token>, str: string) {
    forall k :: k in tokens ==> tokens[k].token != str
  }

  /** `str` is not the string of any stored reset token. */
  predicate ResetStringFree(resetTokens: map<nat, ResetPasswordToken>, str: string) {
    forall k :: k in resetTokens ==> resetTokens[k].token != str
  }

  // ---------------------------------------------------------------------
  // find-one on a non-key column
  // ---------------------------------------------------------------------

  lemma {:induction false} LeastExists(keys: set<nat>)
    requires keys != {}
    ensures exists x :: x in keys && forall k :: k in keys ==> x <= k
  {
    var y :| y in keys;
    var rest := keys - {y};
    if rest != {} {
      LeastExists(rest);
      var z :| z in rest && forall k :: k in rest ==> z <= k;
      assert forall k :: k in keys ==> k == y || k in rest;
      if y < z {
        assert forall k :: k in keys ==> y <= k;
      } else {
        assert forall k :: k in keys ==> z <= k;
      }
    } else {
      assert keys == {y};
    }
  }

  /** The smallest element of a non-empty set of keys. */
  function Least(keys: set<nat>): (r: nat)
    requires keys != {}
    ensures r in keys && forall k :: k in keys ==> r <= k
  {
    LeastExists(keys);
    var x :| x in keys && forall k :: k in keys ==> x <= k;
    x
  }

  /**
   * The key of the row a `findOne` on a non-key column returns: the first
   * matching row in primary-key order, or `None` when no row matches.
   */
  function FindFirst<V>(table: map<nat, V>, matches: V -> bool): (r: Option<nat>)
    ensures r.Some? ==> r.value in table && matches(table[r.value])
    ensures r.Some? ==> forall k :: k in table && matches(table[k]) ==> r.value <= k
    ensures r.None? <==> forall k :: k in table ==> !matches(table[k])
  {
    var keys := set k | k in table && matches(table[k]);
    assert forall k :: k in table && matches(table[k]) ==> k in keys;
    if keys == {} then None else Some(Least(keys))
  }

  // ---------------------------------------------------------------------
  // Store primitives as transitions of the tables
  // ---------------------------------------------------------------------

  /** Rows whose join column holds `id` get NULL there (ON DELETE SET NULL). */
  function SetNullToken(users: map<nat, UserRow>, id: nat): map<nat, UserRow> {
    map k | k in users :: if users[k].tokenId == Some(id) then users[k].(tokenId := None) else users[k]
  }

  /** `DELETE` of the token row with key `id`; a missing key deletes nothing. */
  function AfterTokenDelete(s: Tables, id: nat): (r: Tables)
    ensures r.tokens == s.tokens - {id}
    ensures r.users.Keys == s.users.Keys
    ensures forall k :: k in r.users ==> r.users[k].tokenId != Some(id)
    ensures forall k :: k in r.users && s.users[k].tokenId != Some(id) ==> r.users[k] == s.users[k]
    ensures r.resetTokens == s.resetTokens && r.nextTokenId == s.nextTokenId
  {
    s.(tokens := s.tokens - {id}, users := SetNullToken(s.users, id))
  }

  /** `save` of a new token row: the store generates the next key. */
  function AfterTokenSave(s: Tables, str: string, date: int): (r: (Tables, Token))
    ensures r.1.id == s.nextTokenId && r.1.token == str && r.1.tokenDate == date
    ensures r.0.tokens == s.tokens[r.1.id := r.1] && r.0.nextTokenId == s.nextTokenId + 1
    ensures r.0.users == s.users && r.0.resetTokens == s.resetTokens
  {
    var t := Token(s.nextTokenId, str, date);
    (s.(tokens := s.tokens[t.id := t], nextTokenId := s.nextTokenId + 1), t)
  }

  /**
   * `update` of the user row with key `p.id`: its columns become the
   * patch's; the join column changes only when the patch carries a token.
   * A missing key updates nothing.
   */
  function AfterUserUpdate(s: Tables, p: UserPatch): (r: Tables)
    ensures r.tokens == s.tokens && r.resetTokens == s.resetTokens
    ensures r.nextTokenId == s.nextTokenId && r.nextResetTokenId == s.nextResetTokenId
    ensures r.users.Keys == s.users.Keys
    ensures forall k :: k in s.users && k != p.id ==> r.users[k] == s.users[k]
    ensures p.id in s.users ==> r.users[p.id] == UserRow(p.id, p.username, p.email, p.password,
      if p.tokenId.Some? then p.tokenId else s.users[p.id].tokenId)
  {
    if p.id in s.users then
      var tokenId := if p.tokenId.Some? then p.tokenId else s.users[p.id].tokenId;
      s.(users := s.users[p.id := UserRow(p.id, p.username, p.email, p.password, tokenId)])
    else
      s
  }

  /** `save` of a new reset-token row, not linked to any user. */
  function AfterResetTokenSave(s: Tables, str: string): (r: (Tables, ResetPasswordToken))
    ensures r.1 == ResetPasswordToken(s.nextResetTokenId, str, None)
    ensures r.0.resetTokens == s.resetTokens[r.1.id := r.1]
    ensures r.0.nextResetTokenId == s.nextResetTokenId + 1
    ensures r.0.users == s.users && r.0.tokens == s.tokens && r.0.nextTokenId == s.nextTokenId
  {
    var t := ResetPasswordToken(s.nextResetTokenId, str, None);
    (s.(resetTokens := s.resetTokens[t.id := t], nextResetTokenId := s.nextResetTokenId + 1), t)
  }

  // ---------------------------------------------------------------------
  // Properties of the primitives
  // ---------------------------------------------------------------------

  /** Deleting a token keeps the user-table constraints: only join columns change. */
  lemma TokenDeleteKeepsUserTable(s: Tables, id: nat)
    requires UserTableOk(s)
    ensures UserTableOk(AfterTokenDelete(s, id))
  {
    var r := AfterTokenDelete(s, id);
    assert forall k :: k in r.users ==> r.users[k].(tokenId := None) == s.users[k].(tokenId := None);
  }

  /** Deleting a token keeps the join-column constraints. */
  lemma TokenDeleteKeepsTokenLink(s: Tables, id: nat)
    requires TokenLinkOk(s)
    ensures TokenLinkOk(AfterTokenDelete(s, id))
  {
    var r := AfterTokenDelete(s, id);
    forall a, b | a in r.users && b in r.users && r.users[a].tokenId.Some? && r.users[a].tokenId == r.users[b].tokenId
      ensures a == b
    {
      assert r.users[a] == s.users[a] && r.users[b] == s.users[b];
    }
  }

  /** Deleting a token keeps every schema constraint. */
  lemma TokenDeleteKeepsSchema(s: Tables, id: nat)
    requires Schema(s)
    ensures Schema(AfterTokenDelete(s, id))
  {
    TokenDeleteKeepsUserTable(s, id);
    TokenDeleteKeepsTokenLink(s, id);
  }

  /** Deleting the same key a second time changes nothing more. */
  lemma {:induction false} TokenDeleteIdempotent(s: Tables, id: nat)
    ensures AfterTokenDelete(AfterTokenDelete(s, id), id) == AfterTokenDelete(s, id)
  {
    var once := AfterTokenDelete(s, id);
    var twice := AfterTokenDelete(once, id);
    assert twice.users == once.users;
    assert twice.tokens == once.tokens;
  }

  /** Saving a token with an unused string keeps every schema constraint. */
  lemma TokenSaveKeepsSchema(s: Tables, str: string, date: int)
    requires Schema(s) && TokenStringFree(s.tokens, str) && |str| <= TokenLength
    ensures Schema(AfterTokenSave(s, str, date).0)
  {
    var (r, t) := AfterTokenSave(s, str, date);
    assert t.id !in s.tokens;
    forall a, b | a in r.tokens && b in r.tokens && r.tokens[a].token == r.tokens[b].token
      ensures a == b
    {
    }
  }

  /** Saving a reset token with an unused string keeps every schema constraint. */
  lemma ResetTokenSaveKeepsSchema(s: Tables, str: string)
    requires Schema(s) && ResetStringFree(s.resetTokens, str)
    ensures Schema(AfterResetTokenSave(s, str).0)
  {
    var (r, t) := AfterResetTokenSave(s, str);
    assert t.id !in s.resetTokens;
    forall a, b | a in r.resetTokens && b in r.resetTokens && r.resetTokens[a].token == r.resetTokens[b].token
      ensures a == b
    {
    }
  }

  /** The patch that writes back an entity loaded from `row` whose relation holds `t`. */
  function WriteBack(row: UserRow, t: Option<Token>): UserPatch {
    UserPatch(row.id, row.username, row.email, row.password, if t.Some? then Some(t.value.id) else None)
  }

  /** Writing back a loaded user leaves its username, email and password as stored. */
  lemma WriteBackKeepsUserTable(s: Tables, row: UserRow, t: Option<Token>)
    requires UserTableOk(s) && row.id in s.users
    requires s.users[row.id].(tokenId := None) == row.(tokenId := None)
    ensures UserTableOk(AfterUserUpdate(s, WriteBack(row, t)))
  {
    var r := AfterUserUpdate(s, WriteBack(row, t));
    assert forall k :: k in r.users ==> r.users[k].(tokenId := None) == s.users[k].(tokenId := None);
  }

  /** Writing back a user whose new token is stored and unclaimed keeps the join-column constraints. */
  lemma WriteBackKeepsTokenLink(s: Tables, row: UserRow, t: Option<Token>)
    requires TokenLinkOk(s) && row.id in s.users
    requires t.Some? ==> t.value.id in s.tokens
    requires t.Some? ==> forall k :: k in s.users && k != row.id ==> s.users[k].tokenId != Some(t.value.id)
    ensures TokenLinkOk(AfterUserUpdate(s, WriteBack(row, t)))
  {
  }

  /**
   * Writing back a loaded user whose relation holds token `t` keeps every
   * schema constraint when `t` is stored and no other user points at it.
   */
  lemma WriteBackKeepsSchema(s: Tables, row: UserRow, t: Option<Token>)
    requires Schema(s) && row.id in s.users
    requires s.users[row.id].(tokenId := None) == row.(tokenId := None)
    requires t.Some? ==> t.value.id in s.tokens
    requires t.Some? ==> forall k :: k in s.users && k != row.id ==> s.users[k].tokenId != Some(t.value.id)
    ensures Schema(AfterUserUpdate(s, WriteBack(row, t)))
  {
    WriteBackKeepsUserTable(s, row, t);
    WriteBackKeepsTokenLink(s, row, t);
  }

  // ---------------------------------------------------------------------
  // The store object
  // ---------------------------------------------------------------------

  /** The store the repositories share; each primitive reassigns its tables. */
  class Store {
    var users: map<nat, UserRow>
    var tokens: map<nat, Token>
    var resetTokens: map<nat, ResetPasswordToken>
    var nextTokenId: nat
    var nextResetTokenId: nat

    /** The current contents of the store. */
    function State(): Tables
      reads this
    {
      Tables(users, tokens, resetTokens, nextTokenId, nextResetTokenId)
    }

    /** A store holding the given tables. */
    constructor (s: Tables)
      ensures State() == s
    {
      users, tokens, resetTokens := s.users, s.tokens, s.resetTokens;
      nextTokenId, nextResetTokenId := s.nextTokenId, s.nextResetTokenId;
    }

    method DeleteTokenRow(id: nat)
      modifies this
      ensures State() == AfterTokenDelete(old(State()), id)
    {
      tokens := tokens - {id};
      users := SetNullToken(users, id);
    }

    method SaveTokenRow(str: string, date: int) returns (t: Token)
      modifies this
      ensures (State(), t) == AfterTokenSave(old(State()), str, date)
    {
      t := Token(nextTokenId, str, date);
      tokens := tokens[t.id := t];
      nextTokenId := nextTokenId + 1;
    }

    method UpdateUserRow(p: UserPatch)
      modifies this
      ensures State() == AfterUserUpdate(old(State()), p)
    {
      if p.id in users {
        var tokenId := if p.tokenId.Some? then p.tokenId else users[p.id].tokenId;
        users := users[p.id := UserRow(p.id, p.username, p.email, p.password, tokenId)];
      }
    }

    method SaveResetTokenRow(str: string) returns (t: ResetPasswordToken)
      modifies this
      ensures (State(), t) == AfterResetTokenSave(old(State()), str)
    {
      t := ResetPasswordToken(nextResetTokenId, str, None);
      resetTokens := resetTokens[t.id := t];
      nextResetTokenId := nextResetTokenId + 1;
    }
  }
}
