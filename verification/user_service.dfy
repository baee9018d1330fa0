/** The user service: lookups by credentials and by token, and write-back of an entity. */
module UserService {
  import opened Wrappers
  import opened TokenEntity
  import opened UserEntity
  import opened CredentialStore

  /**
   * findOne({username, password}): the user whose username and password
   * both equal the arguments. The relations are not loaded.
   */
  function GetUserByUsernameAndPassword(users: map<nat, UserRow>, username: string, password: string): (r: Option<UserRow>)
    ensures r.Some? ==> r.value in users.Values && r.value.username == username && r.value.password == password
    ensures r.None? <==> forall k :: k in users ==> users[k].username != username || users[k].password != password
  {
    match FindFirst(users, (u: UserRow) => u.username == username && u.password == password)
    case None => None
    case Some(k) => Some(users[k])
  }

  /**
   * The inner join of users with their token where the token's id is
   * `token.id`: the user whose join column holds that id, provided the
   * token row exists.
   */
  function GetUserByToken(s: Tables, token: Token): (r: Option<UserRow>)
    ensures r.Some? ==> token.id in s.tokens && r.value in s.users.Values && r.value.tokenId == Some(token.id)
    ensures r.None? <==> token.id !in s.tokens || forall k :: k in s.users ==> s.users[k].tokenId != Some(token.id)
  {
    if token.id !in s.tokens then None
    else
      match FindFirst(s.users, (u: UserRow) => u.tokenId == Some(token.id))
      case None => None
      case Some(k) => Some(s.users[k])
  }

  /** Under the schema, the user a token resolves to is the one whose join column names it. */
  lemma GetUserByTokenFindsOwner(s: Tables, k: nat, token: Token)
    requires UserTableOk(s) && TokenLinkOk(s)
    requires k in s.users && s.users[k].tokenId == Some(token.id)
    ensures GetUserByToken(s, token) == Some(s.users[k])
  {
    var r := GetUserByToken(s, token);
    var j :| j in s.users && s.users[j] == r.value;
  }

  /** updateUser: writes the entity's columns to the row with its id. */
  method UpdateUser(store: Store, user: User)
    modifies store
    ensures store.State() == AfterUserUpdate(old(store.State()), user.Patch())
  {
    store.UpdateUserRow(user.Patch());
  }
}
