/**
 * `AuthServiceServer` as an object: the users and refresh_tokens collections
 * are its fields, and Register and Login update them step by step, returning
 * early at each failure, as the Go handlers do.
 */
module Server {
  import opened Wrappers
  import opened Models
  import opened AuthService
  import AuthProperties

  class AuthServiceServer {
    var users: seq<User>
    var refreshTokens: seq<RefreshToken>

    /** `bcrypt.CompareHashAndPassword(hash, password) == nil` */
    const checkPassword: (string, string) -> bool

    function State(): Stores
      reads this
    {
      Stores(users, refreshTokens)
    }

    ghost predicate Valid()
      reads this
    {
      AuthService.Valid(State())
    }

    constructor (checkPassword: (string, string) -> bool)
      ensures Valid() && users == [] && refreshTokens == []
      ensures this.checkPassword == checkPassword
    {
      users, refreshTokens := [], [];
      this.checkPassword := checkPassword;
    }

    /**
     * Generate both tokens, insert the refresh-token document ignoring the
     * outcome, and build the response.
     */
    method IssueAndRecord(user: User, o: IssueOracle, now: Time) returns (r: Result<AuthResponse>)
      modifies this`refreshTokens
      ensures Step(State(), r) == IssueTokens(old(State()), user, o, now)
    {
      var access := o.generateAccessToken(user.id.hex, user.username, user.email);
      if access.Err? {
        return Err(access.message);
      }
      var accessToken := access.value;
      var refresh := o.generateRefreshToken(user.id.hex);
      if refresh.Err? {
        return Err(refresh.message);
      }
      var refreshToken := refresh.value;
      var doc := RefreshToken(NilObjectId, user.id, refreshToken, now + RefreshTokenLifetime, now);
      if o.refreshTokenId.Some? {
        refreshTokens := refreshTokens + [doc.(id := o.refreshTokenId.value)];
      }
      r := Ok(AuthResponse(View(user), accessToken, refreshToken));
    }

    method Register(req: RegisterRequest, o: RegisterOracle) returns (r: Result<AuthResponse>)
      requires Valid()
      requires FreshUserId(users, o.userId) && FreshRefreshTokenId(refreshTokens, o.issue.refreshTokenId)
      modifies this
      ensures Valid()
      ensures Step(State(), r) == RegisterStep(old(State()), req, o)
    {
      ghost var before := State();
      var existing := FindOne(users, req.email, o.lookupFault);
      if existing.Ok? {
        return Err(UserAlreadyExists);
      }
      var hashed := o.hash(req.password);
      if hashed.Err? {
        return Err(hashed.message);
      }
      var user := User(NilObjectId, req.username, req.email, hashed.value, o.now, o.now);
      if o.userId.Err? {
        return Err(o.userId.message);
      }
      user := user.(id := o.userId.value);
      users := users + [user];
      r := IssueAndRecord(user, o.issue, o.now);
      AuthProperties.RegisterPreservesValid(before, req, o);
    }

    method Login(req: LoginRequest, o: LoginOracle) returns (r: Result<AuthResponse>)
      requires Valid()
      requires FreshRefreshTokenId(refreshTokens, o.issue.refreshTokenId)
      modifies this
      ensures Valid()
      ensures Step(State(), r) == LoginStep(old(State()), checkPassword, req, o)
    {
      ghost var before := State();
      var found := FindOne(users, req.email, o.lookupFault);
      if found.Err? {
        return Err(InvalidCredentials);
      }
      var user := found.value;
      if !checkPassword(user.passwordHash, req.password) {
        return Err(InvalidCredentials);
      }
      r := IssueAndRecord(user, o.issue, o.now);
      AuthProperties.LoginPreservesValid(before, checkPassword, req, o);
    }
  }
}
