/**
 * The persisted records of the auth service (auth_service/internal/models/user.go)
 * and the time arithmetic the service applies to them.
 */
module Models {

  /** A MongoDB ObjectID, represented by the hexadecimal string that `Hex()` gives for it. */
  datatype ObjectId = ObjectId(hex: string)

  /** The zero ObjectID a Go struct holds until the store assigns one on insert. */
  const NilObjectId: ObjectId := ObjectId("000000000000000000000000")

  /** A wall-clock instant, in nanoseconds since the Unix epoch (Go's `time.Time`). */
  type Time = int

  const Second: int := 1_000_000_000
  const Hour: int := 3600 * Second

  /** `7 * 24 * time.Hour`: how long a refresh token stays valid after it is issued. */
  const RefreshTokenLifetime: int := 7 * 24 * Hour

  /** Go's `Time.Unix()`: whole seconds since the epoch, rounded towards minus infinity. */
  function UnixSeconds(t: Time): (s: int)
    ensures s * Second <= t < (s + 1) * Second
  {
    t / Second
  }

  /** A user document of the `users` collection. */
  datatype User = User(
    id: ObjectId,
    username: string,
    email: string,
    passwordHash: string,
    createdAt: Time,
    updatedAt: Time)

  /** A document of the `refresh_tokens` collection. */
  datatype RefreshToken = RefreshToken(
    id: ObjectId,
    userId: ObjectId,
    token: string,
    expiresAt: Time,
    createdAt: Time)
}
