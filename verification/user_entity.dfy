/**
 * The `User` entity: its persisted columns, the column constraints the
 * schema declares, and the in-memory entity object whose relations the
 * services assign in place.
 */
module UserEntity {
  import opened Wrappers
  import opened TokenEntity
  import opened ResetPasswordTokenEntity

  /** Declared lengths of the varchar columns. */
  const UsernameLength := 128
  const EmailLength := 256
  const PasswordLength := 64

  /**
   * A persisted user row. `tokenId` is the join column of the one-to-one
   * `token` relation; `None` is SQL NULL.
   */
  datatype UserRow = UserRow(id: nat, username: string, email: string, password: string, tokenId: Option<nat>)

  /** The length constraints of a single row. */
  predicate UserColumnsFit(u: UserRow) {
    && |u.username| <= UsernameLength
    && |u.email| <= EmailLength
    && |u.password| <= PasswordLength
  }

  /**
   * The values `repository.update(user.id, user)` writes. A `tokenId` of
   * `None` means the entity's `token` property is undefined (the relation
   * was not loaded): the update then leaves the join column as it is.
   */
  datatype UserPatch = UserPatch(id: nat, username: string, email: string, password: string, tokenId: Option<nat>)

  /**
   * A user entity object as the services hold it. `token` is `None` when
   * the relation was not loaded. `resetPasswordToken` is the ad-hoc
   * `ResetPasswordToken` property the reset flow assigns; the entity
   * declares no column for it.
   */
  class User {
    const id: nat
    const username: string
    const email: string
    const password: string
    var token: Option<Token>
    var resetPasswordToken: Option<ResetPasswordToken>

    /** The entity materialised from `row`, with the `token` relation as loaded. */
    constructor Load(row: UserRow, token: Option<Token>)
      ensures id == row.id && username == row.username
      ensures email == row.email && password == row.password
      ensures this.token == token && resetPasswordToken == None
    {
      id, username, email, password := row.id, row.username, row.email, row.password;
      this.token := token;
      resetPasswordToken := None;
    }

    /** What an update of this entity writes to its row. */
    function Patch(): (p: UserPatch)
      reads this
      ensures p.id == id && p.username == username && p.email == email && p.password == password
      ensures p.tokenId.Some? <==> token.Some?
      ensures token.Some? ==> p.tokenId == Some(token.value.id)
    {
      UserPatch(id, username, email, password, if token.Some? then Some(token.value.id) else None)
    }
  }
}
