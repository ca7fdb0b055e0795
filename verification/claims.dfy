/** The identity a login signs into a token, and the decoded claim a
    verified token yields. */
module Claims {

  /** The payload `{ id, email, role }` the login handler signs. */
  datatype Identity = Identity(id: string, email: string, role: string)

  /** A decoded token: the signed payload plus the issue time and the
      expiry the signing library adds, both in whole seconds. */
  datatype Claim = Claim(identity: Identity, iat: int, exp: int)
  {
    /** The role the authorization gate reads as `user.role`. */
    function Role(): string { identity.role }
  }

  /** `expiresIn: "1d"`: one day, in seconds. */
  const TokenLifetime: nat := 24 * 60 * 60
}
