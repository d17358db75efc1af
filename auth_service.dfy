/** Access and refresh tokens. Signing is not modelled: a token is the
    value of its claims, which is what makes two signed tokens equal (same
    secret, same payload, same issue second). */
module AuthService {
  import opened Wrappers

  datatype AuthToken =
    | AccessToken(id: nat, email: Option<string>, nickname: Option<string>, issuedAt: int)
    | RefreshToken(id: nat, issuedAt: int)

  /** The JWT `iat` claim: whole seconds of the clock in milliseconds. */
  function IssuedAt(now: int): int {
    now / 1000
  }

  /** `generateAccessToken({ id, email, nickname })`; a claim whose value
      is `undefined` is dropped from the payload, hence the options. */
  function GenerateAccessToken(id: nat, email: Option<string>, nickname: Option<string>, now: int): AuthToken {
    AccessToken(id, email, nickname, IssuedAt(now))
  }

  /** `generateRefreshToken({ id })`. */
  function GenerateRefreshToken(id: nat, now: int): AuthToken {
    RefreshToken(id, IssuedAt(now))
  }
}
