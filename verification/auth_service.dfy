/**
 * The auth orchestrator of auth_service/internal/services/auth_service.go, as pure
 * functions over the two stores it writes: the `users` collection and the
 * append-only `refresh_tokens` collection.
 *
 * Everything the orchestrator asks of code outside it (the store's lookup
 * and inserts, bcrypt, the token middleware, the clock) is an oracle: the
 * answer that collaborator gave during the request is an input here.
 */
module AuthService {
  import opened Wrappers
  import opened Models

  /** The two error messages the orchestrator writes itself (the second one is spelt as in the source). */
  const UserAlreadyExists: string := "User already exists"
  const InvalidCredentials: string := "Invalid creadentials"

  /** The driver's error when a lookup matches no document. */
  const ErrNoDocuments: string := "mongo: no documents in result"

  datatype RegisterRequest = RegisterRequest(username: string, email: string, password: string)
  datatype LoginRequest = LoginRequest(email: string, password: string)

  /** The public view of a user sent back to callers; it never holds the password hash. */
  datatype PublicUser = PublicUser(id: string, username: string, email: string, createdAt: int)

  /** The shape shared by the register and login responses. */
  datatype AuthResponse = AuthResponse(user: PublicUser, accessToken: string, refreshToken: string)

  datatype ValidateTokenResponse = ValidateTokenResponse(valid: bool, user: Option<PublicUser>)

  /** The identity claims the token middleware reads out of a valid access token. */
  datatype Claims = Claims(userId: string, username: string, email: string)

  /** The contents of both collections. */
  datatype Stores = Stores(users: seq<User>, refreshTokens: seq<RefreshToken>)

  /** What a request does: the stores afterwards and the answer given to the caller. */
  datatype Step = Step(stores: Stores, result: Result<AuthResponse>)

  /**
   * The collaborators' answers while tokens are issued for a user. The two
   * generators are the middleware's functions as they behave during this
   * request (its clock, its random draw), applied to the arguments the
   * orchestrator passes them.
   */
  datatype IssueOracle = IssueOracle(
    generateAccessToken: (string, string, string) -> Result<string>, // middleware.GenerateAccessToken(id, username, email)
    generateRefreshToken: string -> Result<string>,                 // middleware.GenerateRefreshToken(id)
    refreshTokenId: Option<ObjectId>)  // refresh_tokens InsertOne: the _id it assigned, None if it failed
  {
    /** The access token generated for a user: claims taken from the user's id, username and email. */
    function AccessFor(u: User): Result<string>
    {
      generateAccessToken(u.id.hex, u.username, u.email)
    }

    /** The refresh token generated for a user's id. */
    function RefreshFor(u: User): Result<string>
    {
      generateRefreshToken(u.id.hex)
    }
  }

  /** The collaborators' answers during one Register request. */
  datatype RegisterOracle = RegisterOracle(
    lookupFault: Option<string>,      // FindOne/Decode failed for a reason of its own
    hash: string -> Result<string>,   // bcrypt.GenerateFromPassword, with this request's salt draw
    userId: Result<ObjectId>,         // users InsertOne: the _id it assigned, or its error
    issue: IssueOracle,
    now: Time)                        // time.Now() during the request

  /** The collaborators' answers during one Login request. */
  datatype LoginOracle = LoginOracle(
    lookupFault: Option<string>,
    issue: IssueOracle,
    now: Time)

  /** Some user in the store has this email. */
  predicate HasEmail(users: seq<User>, email: string)
  {
    exists i :: 0 <= i < |users| && users[i].email == email
  }

  /**
   * The document a `FindOne({"email": email})` returns: the first match in the
   * collection's natural (insertion) order.
   */
  function FindByEmail(users: seq<User>, email: string): (r: Option<User>)
    ensures r.Some? <==> HasEmail(users, email)
    ensures r.Some? ==>
              && r.value.email == email
              && exists i :: 0 <= i < |users| && users[i] == r.value
                               && forall j :: 0 <= j < i ==> users[j].email != email
  {
    if users == [] then None
    else if users[0].email == email then Some(users[0])
    else
      FindByEmail(users[1..], email)
  }

  /** `FindOne(...).Decode(&user)` against the users collection: the document, or the error. */
  function FindOne(users: seq<User>, email: string, fault: Option<string>): (r: Result<User>)
    ensures r.Ok? <==> fault.None? && HasEmail(users, email)
    ensures r.Ok? ==> r.value.email == email && r.value == FindByEmail(users, email).value
    ensures fault.Some? ==> r == Err(fault.value)
    ensures fault.None? && !HasEmail(users, email) ==> r == Err(ErrNoDocuments)
  {
    if fault.Some? then Err(fault.value)
    else match FindByEmail(users, email)
      case Some(u) => Ok(u)
      case None => Err(ErrNoDocuments)
  }

  /** The public view of a stored user: identity and creation second, never the password hash. */
  function View(u: User): (v: PublicUser)
    ensures v.id == u.id.hex && v.username == u.username && v.email == u.email
    ensures v.createdAt * Second <= u.createdAt < (v.createdAt + 1) * Second
  {
    PublicUser(u.id.hex, u.username, u.email, UnixSeconds(u.createdAt))
  }

  /** The refresh-token document written for a user at time `now`. */
  function RefreshTokenDoc(id: ObjectId, user: User, token: string, now: Time): (d: RefreshToken)
    ensures d.id == id && d.userId == user.id && d.token == token
    ensures d.createdAt == now && d.expiresAt - d.createdAt == 7 * 24 * 3600 * Second
  {
    RefreshToken(id, user.id, token, now + RefreshTokenLifetime, now)
  }

  /**
   * The tail shared by Register and Login: generate an access and a refresh
   * token, insert the refresh-token document without looking at the outcome,
   * and answer with the user's public view and both tokens.
   */
  function IssueTokens(s: Stores, user: User, o: IssueOracle, now: Time): (r: Step)
    ensures r.stores.users == s.users
    ensures s.refreshTokens <= r.stores.refreshTokens
    ensures |r.stores.refreshTokens| <= |s.refreshTokens| + 1
    ensures r.result.Ok? <==> o.AccessFor(user).Ok? && o.RefreshFor(user).Ok?
    ensures r.result.Ok? ==>
              && r.result.value.user == View(user)
              && r.result.value.accessToken == o.generateAccessToken(user.id.hex, user.username, user.email).value
              && r.result.value.refreshToken == o.generateRefreshToken(user.id.hex).value
    ensures r.result.Err? ==>
              && r.stores == s
              && r.result.message == (if o.AccessFor(user).Err? then o.AccessFor(user) else o.RefreshFor(user)).message
  {
    var access := o.AccessFor(user);
    if access.Err? then Step(s, Err(access.message))
    else
      var refresh := o.RefreshFor(user);
      if refresh.Err? then Step(s, Err(refresh.message))
      else
        var tokens := match o.refreshTokenId
          case None => s.refreshTokens
          case Some(id) => s.refreshTokens + [RefreshTokenDoc(id, user, refresh.value, now)];
        Step(Stores(s.users, tokens), Ok(AuthResponse(View(user), access.value, refresh.value)))
  }

  /** The user document Register inserts, before the store gives it an id. */
  function NewUser(id: ObjectId, req: RegisterRequest, hash: string, now: Time): (u: User)
    ensures u.id == id && u.username == req.username && u.email == req.email
    ensures u.passwordHash == hash
    ensures u.createdAt == u.updatedAt == now
  {
    User(id, req.username, req.email, hash, now, now)
  }

  /** `AuthServiceServer.Register`. */
  function RegisterStep(s: Stores, req: RegisterRequest, o: RegisterOracle): (r: Step)
    ensures s.users <= r.stores.users && |r.stores.users| <= |s.users| + 1
    ensures s.refreshTokens <= r.stores.refreshTokens && |r.stores.refreshTokens| <= |s.refreshTokens| + 1
  {
    if FindOne(s.users, req.email, o.lookupFault).Ok? then Step(s, Err(UserAlreadyExists))
    else
      var hashed := o.hash(req.password);
      if hashed.Err? then Step(s, Err(hashed.message))
      else if o.userId.Err? then Step(s, Err(o.userId.message))
      else
        var user := NewUser(o.userId.value, req, hashed.value, o.now);
        IssueTokens(Stores(s.users + [user], s.refreshTokens), user, o.issue, o.now)
  }

  /**
   * `AuthServiceServer.Login`; `checkPassword(hash, password)` is
   * `bcrypt.CompareHashAndPassword(hash, password) == nil`.
   */
  function LoginStep(s: Stores, checkPassword: (string, string) -> bool, req: LoginRequest, o: LoginOracle): (r: Step)
    ensures r.stores.users == s.users
    ensures s.refreshTokens <= r.stores.refreshTokens && |r.stores.refreshTokens| <= |s.refreshTokens| + 1
  {
    var found := FindOne(s.users, req.email, o.lookupFault);
    if found.Err? then Step(s, Err(InvalidCredentials))
    else if !checkPassword(found.value.passwordHash, req.password) then Step(s, Err(InvalidCredentials))
    else IssueTokens(s, found.value, o.issue, o.now)
  }

  /**
   * `AuthServiceServer.ValidateToken`; `validator` is `middleware.ValidateToken`
   * at the time of the request. The Go signature has an error result, which
   * is never used: an invalid token is reported through `valid`.
   */
  function ValidateToken(token: string, validator: string -> Result<Claims>): (r: Result<ValidateTokenResponse>)
    ensures r.Ok?
    ensures r.value.valid <==> validator(token).Ok?
    ensures r.value.user.Some? <==> r.value.valid
    ensures r.value.valid ==>
              var c := validator(token).value;
              r.value.user.value == PublicUser(c.userId, c.username, c.email, 0)
  {
    match validator(token)
    case Err(_) => Ok(ValidateTokenResponse(false, None))
    case Ok(claims) => Ok(ValidateTokenResponse(true, Some(PublicUser(claims.userId, claims.username, claims.email, 0))))
  }

  /** No two users share an id. */
  predicate UserIdsUnique(users: seq<User>)
  {
    forall i, j :: 0 <= i < j < |users| ==> users[i].id != users[j].id
  }

  /** No two users share an email: what the duplicate check in Register aims at. */
  predicate EmailsUnique(users: seq<User>)
  {
    forall i, j :: 0 <= i < j < |users| ==> users[i].email != users[j].email
  }

  /**
   * What both collections keep across Register and Login: ids are unique in
   * each, every refresh token belongs to a stored user, and every refresh
   * token expires seven days after it was created.
   */
  predicate Valid(s: Stores)
  {
    && UserIdsUnique(s.users)
    && (forall i, j :: 0 <= i < j < |s.refreshTokens| ==> s.refreshTokens[i].id != s.refreshTokens[j].id)
    && (forall k :: 0 <= k < |s.refreshTokens| ==> HasUserId(s.users, s.refreshTokens[k].userId))
    && (forall k :: 0 <= k < |s.refreshTokens| ==>
          s.refreshTokens[k].expiresAt == s.refreshTokens[k].createdAt + RefreshTokenLifetime)
  }

  predicate HasUserId(users: seq<User>, id: ObjectId)
  {
    exists i :: 0 <= i < |users| && users[i].id == id
  }

  /** The store hands out an `_id` not already in the collection (a clash is an insert error). */
  predicate FreshUserId(users: seq<User>, id: Result<ObjectId>)
  {
    id.Ok? ==> !HasUserId(users, id.value)
  }

  predicate FreshRefreshTokenId(tokens: seq<RefreshToken>, id: Option<ObjectId>)
  {
    id.Some? ==> forall k :: 0 <= k < |tokens| ==> tokens[k].id != id.value
  }

  /**
   * The middleware's promise: an access token it generated for (id, username,
   * email) validates, while still unexpired, to exactly those claims.
   */
  ghost predicate ValidatesIssued(generateAccessToken: (string, string, string) -> Result<string>,
                                  validator: string -> Result<Claims>)
  {
    forall id, username, email ::
      generateAccessToken(id, username, email).Ok? ==>
        validator(generateAccessToken(id, username, email).value) == Ok(Claims(id, username, email))
  }

  /** bcrypt's promise: a hash it produced for a password verifies against that password. */
  ghost predicate HashAgrees(checkPassword: (string, string) -> bool, hash: string -> Result<string>)
  {
    forall password :: hash(password).Ok? ==> checkPassword(hash(password).value, password)
  }
}
