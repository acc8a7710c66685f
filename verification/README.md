# Auth service orchestrator, modelled in Dafny

This project models the authentication core of the chat application's
`auth_service`: the `AuthServiceServer` handlers `Register`, `Login` and
`ValidateToken` (auth_service/internal/services/auth_service.go), over the two
MongoDB collections they use. Those are `users`, looked up by email and
inserted into, and `refresh_tokens`, which is only appended to. Record shapes
follow auth_service/internal/models/user.go.

Layout:

- `wrappers.dfy`, module `Wrappers`: `Option`, and `Result` for Go's
  `(value, error)` pair. An error is its message string.
- `models.dfy`, module `Models`: `User`, `RefreshToken`, `ObjectId` (held as
  its hex form), `Time` (nanoseconds since the epoch), the seven-day
  refresh-token lifetime, and Go's `Time.Unix()`.
- `auth_service.dfy`, module `AuthService`: the handlers as pure functions
  over `Stores` (both collections). `RegisterStep` and `LoginStep` return the
  stores afterwards and the answer; `ValidateToken` returns only an answer.
  Also here: the store invariant `Valid` and the email-uniqueness predicate.
- `auth_properties.dfy`, module `AuthProperties`: lemmas for the promises
  of each handler, the invariants they keep, and how Register and Login
  compose.
- `server.dfy`, module `Server`: class `AuthServiceServer`, with both
  collections as `seq` fields. `Register` and `Login` are imperative methods
  with the handlers' early returns. Each proves that its new state and answer
  are what `RegisterStep`/`LoginStep` give for the old state. Each keeps
  `Valid()`.

Collaborators outside the orchestrator are oracles. The answer a collaborator
gives during one request is an input of that request:

- `lookupFault`: a `FindOne`/`Decode` failure other than "no document".
- `hash`: `bcrypt.GenerateFromPassword` as it behaves during the request
  (its salt draw). Register applies it to the request's password.
- `userId`: the `_id` the users insert assigned, or its error.
- `generateAccessToken` and `generateRefreshToken`: the middleware's token
  generators as they behave during the request (its clock, its random
  draw). They are functions of the arguments the orchestrator passes them:
  the user's id, username and email, and the user's id.
- `refreshTokenId`: the `_id` the refresh-token insert assigned, or `None` if
  that insert failed.
- `now`: the clock.

`bcrypt.CompareHashAndPassword` is the class's fixed `checkPassword`
function. bcrypt's promise that the hash of any password verifies against that
password is the predicate `HashAgrees`. The middleware's promise that an access token
it generated validates to the claims it was generated from is the predicate
`ValidatesIssued`. The lemmas that need these take them as preconditions.
The store's promise of fresh `_id`s is `FreshUserId` /
`FreshRefreshTokenId`, which the class methods require.

The duplicate-email check in Register treats every lookup error as "no such
user", because the code tests `err == nil`. `LookupFaultAdmitsDuplicate`
proves the consequence: after a failed lookup, a second user with an
existing email is inserted. `RegisterKeepsEmailsUnique` proves that emails
stay unique whenever the lookup answers. Email uniqueness is therefore not
part of `Valid`. In the model, Login then picks the older account (see Left out).

## Model

| member | source | states |
|---|---|---|
| Models.UnixSeconds | auth_service/internal/services/auth_service.go:69 | The creation time sent to callers is the whole number of seconds `s` with `s` seconds <= t < `s`+1 seconds (floor, as Go's `Unix()`). |
| AuthService.FindByEmail | auth_service/internal/services/auth_service.go:23 | The lookup by email finds a user iff some stored user has that email; the one found has that email, and no earlier document in the collection does. |
| AuthService.FindOne | auth_service/internal/services/auth_service.go:23 | The lookup answers with a user iff it did not fault and some stored user has the email; that user is the first match. A fault is returned as its own error, and a missing email as the driver's "no documents" error. |
| AuthService.View | auth_service/internal/services/auth_service.go:64-70 | The public view carries the user's id (hex), username and email, and the whole second of its creation time. |
| AuthService.RefreshTokenDoc | auth_service/internal/services/auth_service.go:56-61 | The refresh-token document belongs to the user's id, holds the given token, is created at `now` and expires exactly 7 x 24 hours later. |
| AuthService.NewUser | auth_service/internal/services/auth_service.go:33-39 | The inserted user has the request's username and email, the bcrypt result as PasswordHash, and `now` as both CreatedAt and UpdatedAt. |
| AuthService.IssueTokens | auth_service/internal/services/auth_service.go:48-73 | The shared token tail leaves users untouched and only extends refresh_tokens, by at most one document. It succeeds iff the access-token generator succeeds on the user's (id, username, email) and the refresh-token generator on the user's id; it then answers with the user's public view and exactly those two tokens. On failure, nothing changes and the first generator's error is returned. |
| AuthService.RegisterStep | auth_service/internal/services/auth_service.go:20-74 | Register never removes or rewrites a stored record: each collection afterwards extends the old one by at most one document. |
| AuthService.LoginStep | auth_service/internal/services/auth_service.go:76-110 | Login leaves the users collection exactly as it was and only extends refresh_tokens, by at most one document. |
| AuthService.ValidateToken | auth_service/internal/services/auth_service.go:112-126 | ValidateToken never returns an error; `valid` is true iff the middleware accepts the token; a user is present iff valid, holding the claims' id, username and email with CreatedAt left at zero. |
| AuthProperties.FindByEmailAppend | auth_service/internal/services/auth_service.go:79 | After an insert, the lookup still returns the older match if there was one, otherwise the new user if its email matches, otherwise nothing. |
| AuthProperties.RegisterRejectsDuplicate | auth_service/internal/services/auth_service.go:23-26 | When the lookup answers and some user has the email, Register returns "User already exists" and neither collection changes. |
| AuthProperties.RegisterFailsBeforeInsert | auth_service/internal/services/auth_service.go:28-44 | A hashing or user-insert failure is returned as it is and both collections are unchanged. |
| AuthProperties.RegisterSucceeds | auth_service/internal/services/auth_service.go:28-73 | Register succeeds iff no user is found (or the lookup failed) and hashing, insert and both token generators succeed; then exactly one user is appended, with the request's username and email, bcrypt's hash of the request's password as PasswordHash, and `now` as both timestamps. The answer carries the assigned id, username, email and creation second, and the tokens generated for the assigned id, username and email. |
| AuthProperties.RegisterTokenFailureKeepsUser | auth_service/internal/services/auth_service.go:41-55 | If a token generator fails after the insert, the new user stays, no refresh token is written, and the generator's error is returned. |
| AuthProperties.RegisterRecordsRefreshToken | auth_service/internal/services/auth_service.go:56-62 | A successful Register appends one refresh-token document: owned by the new user, holding the returned refresh token, expiring at now + 7 days. It appends nothing when the insert fails. |
| AuthProperties.LoginRejects | auth_service/internal/services/auth_service.go:79-86 | An unknown email, a lookup failure or a failed password check each give "Invalid creadentials" and change nothing. |
| AuthProperties.LoginHidesWhichCheckFailed | auth_service/internal/services/auth_service.go:79-86 | Login with an unregistered email and Login with a registered email but a wrong password give identical answers. |
| AuthProperties.LoginSucceeds | auth_service/internal/services/auth_service.go:76-109 | Login never changes users; it succeeds iff the lookup finds a user whose hash matches and both tokens are generated for that stored user's id, username and email; it then returns the stored user's id, username, email and creation second unchanged, with those tokens. |
| AuthProperties.LoginRecordsRefreshToken | auth_service/internal/services/auth_service.go:95-101 | A successful Login appends one refresh-token document for the stored user, holding the returned refresh token and expiring at now + 7 days, or nothing when the insert fails. |
| AuthProperties.RefreshTokenInsertIgnored | auth_service/internal/services/auth_service.go:56-73 | The outcome of the refresh-token insert never changes what Register or Login returns. |
| AuthProperties.IssueTokensPreservesValid | auth_service/internal/services/auth_service.go:56-62 | Issuing tokens for a stored user keeps ids unique, every refresh token owned by a stored user, and every expiry seven days after creation. |
| AuthProperties.RegisterPreservesValid | auth_service/internal/services/auth_service.go:33-62 | Register keeps the store invariant, given the store assigns fresh ids. |
| AuthProperties.LoginPreservesValid | auth_service/internal/services/auth_service.go:83-101 | Login keeps the store invariant, given the store assigns fresh ids. |
| AuthProperties.RegisterKeepsEmailsUnique | auth_service/internal/services/auth_service.go:23-46 | When the lookup answers, Register never creates a second user with an existing email. |
| AuthProperties.LookupFaultAdmitsDuplicate | auth_service/internal/services/auth_service.go:23-26 | When the lookup fails although the email is stored, and hashing and insert succeed, Register leaves two users with the same email. |
| AuthProperties.RegisterStoresPasswordHash | auth_service/internal/services/auth_service.go:28-41 | A successful Register stores bcrypt's hash of the request's password (never the password), and given bcrypt's promise that hash verifies against the registration password. |
| AuthProperties.RegisterThenLogin | auth_service/internal/services/auth_service.go:20-109 | After a successful Register whose lookup answered, Login with the same email and password succeeds and shows the same user view. This holds given only bcrypt's promise about its own hashes and that the tokens are generated; that the stored hash matches this password is derived, not assumed. |
| AuthProperties.RegisterTwiceRejected | auth_service/internal/services/auth_service.go:23-46 | After a successful Register, a second Register with the same email whose lookup answers returns "User already exists" and writes nothing. |
| AuthProperties.RegisteredTokenValidates | auth_service/internal/services/auth_service.go:112-126 | The access token a successful Register returns (generated at line 48 from the new user's id, username and email) validates to exactly that id, username and email with CreatedAt zero, given the middleware validates what it generated. |
| AuthProperties.LoggedInTokenValidates | auth_service/internal/services/auth_service.go:112-126 | The access token a successful Login returns (generated at line 87 from the stored user's fields) validates to the stored user's id, username and email with CreatedAt zero, given the middleware validates what it generated. |
| AuthProperties.ViewHidesPasswordHash | auth_service/internal/services/auth_service.go:102-107 | The user view in a response never depends on the stored password hash. |
| Server.AuthServiceServer.IssueAndRecord | auth_service/internal/services/auth_service.go:48-73 | The imperative token tail changes only refresh_tokens, and the new state and answer are those of `IssueTokens`. |
| Server.AuthServiceServer.Register | auth_service/internal/services/auth_service.go:20-74 | The imperative Register keeps `Valid()`; its new collections and answer are those of `RegisterStep` on the old collections. |
| Server.AuthServiceServer.Login | auth_service/internal/services/auth_service.go:76-110 | The imperative Login keeps `Valid()`; its new collections and answer are those of `LoginStep` on the old collections. |

## Left out

- Connection bootstrap, global handles and collection accessors (auth_service/utils/database/mongodb.go): both collections are in-memory sequences.
- bcrypt's cost factor, salting and 72-byte password limit: hashing is a function supplied per request, applied to the request's password, and only "the hash of a password verifies against that password" is assumed. Whether different passwords can verify against the same hash is not modelled.
- JWT signing, expiry and refresh-token randomness: the middleware package is not part of this model. The generators and the validator are failable functions supplied per request; the only thing assumed about them is `ValidatesIssued` (a generated access token validates to its own claims), and only where a lemma says so. Distinctness of refresh tokens is not claimed.
- Clock readings: Go reads `time.Now()` separately for CreatedAt, UpdatedAt, ExpiresAt and the token's CreatedAt. The model uses one reading `now` per request. So `Valid`'s "expiry = creation + 7 days" holds exactly in the model but only up to the gap between two clock reads in the source.
- MongoDB stores timestamps at millisecond precision. This does not change the whole seconds returned, and is not modelled.
- ObjectID generation and `Hex()` formatting: an `ObjectId` is its hex string, and fresh ids are oracle inputs.
- `context` cancellation and timeouts, protobuf message types, gRPC transport: responses are plain datatypes, and a cancelled store call is one more lookup fault or insert error.
- Natural order of `FindOne`: the model takes the first match in insertion order. MongoDB does not guarantee that order. It only matters once a duplicate email has been admitted.
- Concurrent Register calls racing between the check and the insert: concurrency is out of scope.
