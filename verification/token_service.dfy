/**
 * The token service: generation of opaque bearer strings, creation and
 * rotation of a user's token, lookup by string and deletion by id.
 * The uuid, the random hex generator and the clock are inputs.
 */
module TokenService {
  import opened Wrappers
  import opened TokenEntity
  import opened UserEntity
  import opened CredentialStore

  // ---------------------------------------------------------------------
  // Generation of the token string
  // ---------------------------------------------------------------------

  predicate IsHexDigit(c: char) {
    ('0' <= c <= '9') || ('a' <= c <= 'f')
  }

  predicate AllHex(s: string) {
    forall i :: 0 <= i < |s| ==> IsHexDigit(s[i])
  }

  /** The canonical textual form of a uuid: 36 characters, dashes at 8, 13, 18 and 23, hex elsewhere. */
  predicate IsUuid(u: string) {
    && |u| == 36
    && forall i :: 0 <= i < |u| ==>
         (u[i] == '-' <==> (i == 8 || i == 13 || i == 18 || i == 23))
         && (u[i] != '-' ==> IsHexDigit(u[i]))
  }

  /** What the random hex generator promises: `randomHex(n)` is n hex digits. */
  ghost predicate HexSource(randomHex: nat -> string) {
    forall n: nat :: |randomHex(n)| == n && AllHex(randomHex(n))
  }

  /** The string with every '-' removed (`replace(/\-/g, '')`). */
  function StripDashes(s: string): (r: string)
    ensures |r| <= |s|
    ensures forall c :: c in r <==> c in s && c != '-'
  {
    if s == [] then []
    else if s[0] == '-' then StripDashes(s[1..])
    else [s[0]] + StripDashes(s[1..])
  }

  lemma {:induction false} StripDashesAppend(a: string, b: string)
    ensures StripDashes(a + b) == StripDashes(a) + StripDashes(b)
  {
    if a != [] {
      assert (a + b)[1..] == a[1..] + b;
      StripDashesAppend(a[1..], b);
    } else {
      assert a + b == b;
    }
  }

  /**
   * The dash-stripped uuid followed by as many random hex digits as it
   * has characters.
   */
  function GenerateUniqueToken(uuid: string, randomHex: nat -> string): (r: string)
    requires HexSource(randomHex)
    ensures |r| == 2 * |StripDashes(uuid)|
    ensures r[..|r| / 2] == StripDashes(uuid) && '-' !in r[..|r| / 2]
    ensures AllHex(r[|r| / 2..])
  {
    var tokenUniquePart := StripDashes(uuid);
    var token := randomHex(|tokenUniquePart|);
    tokenUniquePart + token
  }

  /** How many of the uuid's dash positions lie below i. */
  function DashesBelow(i: nat): nat {
    (if i > 8 then 1 else 0) + (if i > 13 then 1 else 0) + (if i > 18 then 1 else 0) + (if i > 23 then 1 else 0)
  }

  lemma {:induction false} UuidPrefixStripped(u: string, i: nat)
    requires IsUuid(u) && i <= |u|
    ensures |StripDashes(u[..i])| == i - DashesBelow(i)
  {
    if i > 0 {
      UuidPrefixStripped(u, i - 1);
      assert u[..i] == u[..i - 1] + [u[i - 1]];
      StripDashesAppend(u[..i - 1], [u[i - 1]]);
    }
  }

  /**
   * From a canonical uuid the generated string is 64 hex digits, so it
   * fits the 128-character token column.
   */
  lemma GeneratedTokenFitsColumn(uuid: string, randomHex: nat -> string)
    requires IsUuid(uuid) && HexSource(randomHex)
    ensures |GenerateUniqueToken(uuid, randomHex)| == 64 <= TokenLength
    ensures AllHex(GenerateUniqueToken(uuid, randomHex))
  {
    UuidPrefixStripped(uuid, 36);
    assert uuid[..36] == uuid;
    var prefix := StripDashes(uuid);
    var r := GenerateUniqueToken(uuid, randomHex);
    forall i | 0 <= i < |r|
      ensures IsHexDigit(r[i])
    {
      if i < 32 {
        assert r[i] == prefix[i] && prefix[i] in prefix;
        var j :| 0 <= j < |uuid| && uuid[j] == prefix[i];
      } else {
        assert r[i] == r[32..][i - 32];
      }
    }
  }

  // ---------------------------------------------------------------------
  // createToken / getToken / deleteToken
  // ---------------------------------------------------------------------

  /**
   * createToken on the tables: the user's current token (if the entity
   * holds one) is deleted, then a new row with string `str` and date `now`
   * is saved. The result is the new tables and the saved token.
   */
  function CreateTokenStep(s: Tables, current: Option<Token>, str: string, now: int): (r: (Tables, Token))
    ensures r.1 == Token(s.nextTokenId, str, now)
    ensures r.0.tokens == (if current.Some? then s.tokens - {current.value.id} else s.tokens)[r.1.id := r.1]
    ensures current.Some? ==> forall k :: k in r.0.users ==> r.0.users[k].tokenId != Some(current.value.id)
    ensures r.0.nextTokenId == s.nextTokenId + 1 && r.0.resetTokens == s.resetTokens
    ensures r.0.users.Keys == s.users.Keys
    ensures forall k :: k in s.users ==> r.0.users[k].(tokenId := None) == s.users[k].(tokenId := None)
    ensures forall k :: k in s.users && r.0.users[k].tokenId.Some? ==> r.0.users[k].tokenId == s.users[k].tokenId
    ensures forall k :: k in s.users && (current.None? || s.users[k].tokenId != Some(current.value.id)) ==> r.0.users[k] == s.users[k]
  {
    var afterDelete := if current.Some? then AfterTokenDelete(s, current.value.id) else s;
    AfterTokenSave(afterDelete, str, now)
  }

  /** Creating a token with an unused string keeps every schema constraint. */
  lemma CreateTokenKeepsSchema(s: Tables, current: Option<Token>, str: string, now: int)
    requires Schema(s) && TokenStringFree(s.tokens, str) && |str| <= TokenLength
    ensures Schema(CreateTokenStep(s, current, str, now).0)
    ensures CreateTokenStep(s, current, str, now).1.id !in s.tokens
  {
    var afterDelete := if current.Some? then AfterTokenDelete(s, current.value.id) else s;
    if current.Some? {
      TokenDeleteKeepsSchema(s, current.value.id);
    }
    TokenSaveKeepsSchema(afterDelete, str, now);
  }

  /**
   * Two createToken calls on the same entity: the first call's row is
   * gone, the second call's row is stored, and of all rows only the
   * entity's original token was removed besides.
   */
  lemma CreateTokenTwice(s: Tables, current: Option<Token>, str1: string, now1: int, str2: string, now2: int)
    requires TokenTableOk(s)
    ensures var (s1, t1) := CreateTokenStep(s, current, str1, now1);
            var (s2, t2) := CreateTokenStep(s1, Some(t1), str2, now2);
            && t1.id !in s2.tokens
            && t2.id in s2.tokens && s2.tokens[t2.id] == t2
            && s2.tokens.Keys == (if current.Some? then s.tokens.Keys - {current.value.id} else s.tokens.Keys) + {t2.id}
  {
    var (s1, t1) := CreateTokenStep(s, current, str1, now1);
    var (s2, t2) := CreateTokenStep(s1, Some(t1), str2, now2);
    assert t1.id !in s.tokens && t2.id == t1.id + 1;
  }

  /**
   * createToken on an entity: deletes the token the entity holds, saves a
   * new one, and makes it the entity's token.
   */
  method CreateToken(store: Store, user: User, uuid: string, randomHex: nat -> string, now: int) returns (token: Token)
    requires HexSource(randomHex)
    requires TokenStringFree(store.tokens, GenerateUniqueToken(uuid, randomHex))
    modifies store, user
    ensures (store.State(), token) == CreateTokenStep(old(store.State()), old(user.token), GenerateUniqueToken(uuid, randomHex), now)
    ensures user.token == Some(token) && user.resetPasswordToken == old(user.resetPasswordToken)
  {
    var tokenString := GenerateUniqueToken(uuid, randomHex);
    if user.token.Some? {
      var _ := DeleteToken(store, user.token.value.id);
    }
    // The entity and the saved row are one object in the source, so the
    // entity's token is the saved row, with the id the store assigned.
    token := store.SaveTokenRow(tokenString, now);
    user.token := Some(token);
  }

  /** The token row whose string is `tokenString`, if any. */
  function GetToken(tokens: map<nat, Token>, tokenString: string): (r: Option<Token>)
    ensures r.Some? ==> r.value in tokens.Values && r.value.token == tokenString
    ensures r.None? <==> TokenStringFree(tokens, tokenString)
  {
    match FindFirst(tokens, (t: Token) => t.token == tokenString)
    case None => None
    case Some(k) => Some(tokens[k])
  }

  /** Under the schema, looking up a stored string yields exactly its row. */
  lemma GetTokenFindsRow(s: Tables, k: nat)
    requires TokenTableOk(s) && k in s.tokens
    ensures GetToken(s.tokens, s.tokens[k].token) == Some(s.tokens[k])
  {
    var r := GetToken(s.tokens, s.tokens[k].token);
    var j :| j in s.tokens && s.tokens[j] == r.value;
  }

  /** deleteToken: removes the row with key `id` (if any) and answers true. */
  method DeleteToken(store: Store, id: nat) returns (deleted: bool)
    modifies store
    ensures deleted
    ensures store.State() == AfterTokenDelete(old(store.State()), id)
  {
    store.DeleteTokenRow(id);
    deleted := true;
  }
}
