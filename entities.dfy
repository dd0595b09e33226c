/** The role order of users: `EUserRole`, a byte enum. */
module Roles {

  datatype EUserRole = None | User | Admin {
    /** The enum's underlying byte; role comparisons compare these. */
    function Value(): nat {
      match this
      case None => 0
      case User => 100
      case Admin => 200
    }
  }

  /** The comparison `a < b` on roles. */
  predicate Below(a: EUserRole, b: EUserRole) {
    a.Value() < b.Value()
  }
}

/** The rows and transport records the core works on: users, sessions and token pairs. */
module Entities {
  import opened Wrappers
  import opened Text
  import Roles
  import JwtService

  /** A user row; a new user gets the `User` role. */
  datatype User = User(id: int, username: string, passwordHash: string, role: Roles.EUserRole)

  /** The geolocation fields a session keeps when the lookup succeeded. */
  datatype GeolocationInfo = GeolocationInfo(
    country: string,
    countryCode: string,
    city: string,
    zip: string,
    provider: string)

  /** A session row; times are unix seconds. */
  datatype Session = Session(
    sessionId: Guid,
    refreshToken: string,
    fingerprint: string,
    userId: int,
    userAgent: string,
    ipAddress: string,
    location: Option<GeolocationInfo>,
    issuedAt: int,
    expiresAt: int,
    lastRefreshAt: int)

  /** The pair handed to clients. */
  datatype TokensDto = TokensDto(accessToken: JwtService.TokenText, refreshToken: string)
}
