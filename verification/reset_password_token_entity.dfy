/**
 * The `ResetPasswordToken` entity: a password-reset token, kept in a table
 * of its own, with an optional reference to the user it belongs to.
 */
module ResetPasswordTokenEntity {
  import opened Wrappers

  datatype ResetPasswordToken = ResetPasswordToken(id: nat, token: string, user: Option<nat>)
}
