/**
 * The reset-password service: reset tokens live in a table of their own
 * and take their string from the token service's generator.
 */
module ResetPasswordService {
  import opened Wrappers
  import opened TokenEntity
  import opened ResetPasswordTokenEntity
  import opened UserEntity
  import opened CredentialStore
  import opened TokenService
  import UserService

  /** A reset-token row with its `user` relation loaded (`None` when the row names no existing user). */
  datatype LoadedResetToken = LoadedResetToken(token: ResetPasswordToken, user: Option<UserRow>)

  /** createResetPasswordToken: saves a new reset-token row with a generated string. */
  method CreateResetPasswordToken(store: Store, uuid: string, randomHex: nat -> string) returns (token: ResetPasswordToken)
    requires HexSource(randomHex)
    requires ResetStringFree(store.resetTokens, GenerateUniqueToken(uuid, randomHex))
    modifies store
    ensures (store.State(), token) == AfterResetTokenSave(old(store.State()), GenerateUniqueToken(uuid, randomHex))
  {
    var tokenString := GenerateUniqueToken(uuid, randomHex);
    token := store.SaveResetTokenRow(tokenString);
  }

  /**
   * createResetPasswordTokenForUser: creates a reset token, assigns it to
   * the entity, writes the entity back, and returns the same entity.
   */
  method CreateResetPasswordTokenForUser(store: Store, user: User, uuid: string, randomHex: nat -> string) returns (result: User)
    requires HexSource(randomHex)
    requires ResetStringFree(store.resetTokens, GenerateUniqueToken(uuid, randomHex))
    modifies store, user
    ensures result == user && user.token == old(user.token)
    ensures var (saved, token) := AfterResetTokenSave(old(store.State()), GenerateUniqueToken(uuid, randomHex));
            user.resetPasswordToken == Some(token) && store.State() == AfterUserUpdate(saved, user.Patch())
  {
    var token := CreateResetPasswordToken(store, uuid, randomHex);
    user.resetPasswordToken := Some(token);
    UserService.UpdateUser(store, user);
    result := user;
  }

  /** findOne({token}, {relations: ['user']}): the reset-token row with that string and its user. */
  function FindUserByResetPasswordToken(s: Tables, tokenString: string): (r: Option<LoadedResetToken>)
    ensures r.Some? ==> r.value.token in s.resetTokens.Values && r.value.token.token == tokenString
    ensures r.Some? ==> r.value.user == (var owner := r.value.token.user;
      if owner.Some? && owner.value in s.users then Some(s.users[owner.value]) else None)
    ensures r.None? <==> ResetStringFree(s.resetTokens, tokenString)
  {
    match FindFirst(s.resetTokens, (t: ResetPasswordToken) => t.token == tokenString)
    case None => None
    case Some(k) =>
      var owner := s.resetTokens[k].user;
      Some(LoadedResetToken(s.resetTokens[k], if owner.Some? && owner.value in s.users then Some(s.users[owner.value]) else None))
  }

  /**
   * After the reset flow for a user, the bearer-token table is as before,
   * and looking the new string up finds the new row with no user loaded:
   * the entity declares no column for the link, so writing it back does
   * not store it.
   */
  lemma ResetTokenForUserIsNotLinked(s: Tables, row: UserRow, t: Option<Token>, str: string)
    requires ResetStringFree(s.resetTokens, str)
    ensures var (saved, token) := AfterResetTokenSave(s, str);
            var s' := AfterUserUpdate(saved, WriteBack(row, t));
            && s'.tokens == s.tokens
            && FindUserByResetPasswordToken(s', str) == Some(LoadedResetToken(token, None))
  {
    var (saved, token) := AfterResetTokenSave(s, str);
    var s' := AfterUserUpdate(saved, WriteBack(row, t));
    assert token.id in s'.resetTokens && s'.resetTokens[token.id].token == str;
    var r := FindUserByResetPasswordToken(s', str);
    var k :| k in s'.resetTokens && s'.resetTokens[k] == r.value.token;
    assert k == token.id;
  }
}
