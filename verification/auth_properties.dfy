/**
 * What Register, Login and ValidateToken promise, stated over the pure model
 * in AuthService: the outcome of each failure point, what each success
 * writes, the store invariants they keep, and how the operations compose.
 */
module AuthProperties {
  import opened Wrappers
  import opened Models
  import opened AuthService

  /** The first user with an email in an extended collection: an older match wins over the new document. */
  lemma {:induction false} FindByEmailAppend(users: seq<User>, u: User, email: string)
    ensures FindByEmail(users + [u], email) ==
              if FindByEmail(users, email).Some? then FindByEmail(users, email)
              else if u.email == email then Some(u)
              else None
  {
    if users != [] {
      assert (users + [u])[1..] == users[1..] + [u];
      FindByEmailAppend(users[1..], u, email);
    }
  }

  // ---------------------------------------------------------------- Register

  /** An email the lookup finds is refused with "User already exists" and neither collection changes. */
  lemma RegisterRejectsDuplicate(s: Stores, req: RegisterRequest, o: RegisterOracle)
    requires o.lookupFault.None? && HasEmail(s.users, req.email)
    ensures RegisterStep(s, req, o) == Step(s, Err(UserAlreadyExists))
  {
  }

  /**
   * A hashing or user-insert failure is returned as it is, and neither
   * collection changes; a lookup fault counts as "no such user".
   */
  lemma RegisterFailsBeforeInsert(s: Stores, req: RegisterRequest, o: RegisterOracle)
    requires o.lookupFault.Some? || !HasEmail(s.users, req.email)
    requires o.hash(req.password).Err? || o.userId.Err?
    ensures RegisterStep(s, req, o).stores == s
    ensures RegisterStep(s, req, o).result ==
              Err(if o.hash(req.password).Err? then o.hash(req.password).message else o.userId.message)
  {
  }

  /**
   * Register succeeds exactly when no user is found and every collaborator
   * succeeds; it then inserts one user holding the bcrypt hash (not the
   * password) and answers with that user's id, username, email and creation
   * second, and the tokens generated for the assigned id, the requested
   * username and the requested email.
   */
  lemma RegisterSucceeds(s: Stores, req: RegisterRequest, o: RegisterOracle)
    ensures var r := RegisterStep(s, req, o);
            r.result.Ok? <==>
              && (o.lookupFault.Some? || !HasEmail(s.users, req.email))
              && o.hash(req.password).Ok? && o.userId.Ok?
              && o.issue.generateAccessToken(o.userId.value.hex, req.username, req.email).Ok?
              && o.issue.generateRefreshToken(o.userId.value.hex).Ok?
    ensures var r := RegisterStep(s, req, o);
            r.result.Ok? ==>
              && r.stores.users == s.users + [User(o.userId.value, req.username, req.email, o.hash(req.password).value, o.now, o.now)]
              && r.result.value == AuthResponse(
                   PublicUser(o.userId.value.hex, req.username, req.email, UnixSeconds(o.now)),
                   o.issue.generateAccessToken(o.userId.value.hex, req.username, req.email).value,
                   o.issue.generateRefreshToken(o.userId.value.hex).value)
  {
  }

  /**
   * A token-generation failure after the insert keeps the new user, writes
   * no refresh token and returns the generator's error.
   */
  lemma RegisterTokenFailureKeepsUser(s: Stores, req: RegisterRequest, o: RegisterOracle)
    requires o.lookupFault.Some? || !HasEmail(s.users, req.email)
    requires o.hash(req.password).Ok? && o.userId.Ok?
    requires o.issue.generateAccessToken(o.userId.value.hex, req.username, req.email).Err?
             || o.issue.generateRefreshToken(o.userId.value.hex).Err?
    ensures RegisterStep(s, req, o).stores ==
              Stores(s.users + [NewUser(o.userId.value, req, o.hash(req.password).value, o.now)], s.refreshTokens)
    ensures var access := o.issue.generateAccessToken(o.userId.value.hex, req.username, req.email);
            RegisterStep(s, req, o).result ==
              Err(if access.Err? then access.message else o.issue.generateRefreshToken(o.userId.value.hex).message)
  {
  }

  /**
   * A successful Register appends one refresh-token document, owned by the
   * new user, holding the returned refresh token and expiring seven days on,
   * when the insert succeeds, and nothing when it fails.
   */
  lemma RegisterRecordsRefreshToken(s: Stores, req: RegisterRequest, o: RegisterOracle)
    requires RegisterStep(s, req, o).result.Ok?
    ensures var r := RegisterStep(s, req, o);
            r.stores.refreshTokens ==
              match o.issue.refreshTokenId
              case None => s.refreshTokens
              case Some(id) => s.refreshTokens + [RefreshToken(id, o.userId.value, r.result.value.refreshToken,
                                                               o.now + RefreshTokenLifetime, o.now)]
  {
  }

  // ------------------------------------------------------------------- Login

  /** An unknown email, a lookup fault and a failed password check all give "Invalid creadentials" and change nothing. */
  lemma LoginRejects(s: Stores, checkPassword: (string, string) -> bool, req: LoginRequest, o: LoginOracle)
    requires o.lookupFault.Some? || !HasEmail(s.users, req.email)
             || !checkPassword(FindByEmail(s.users, req.email).value.passwordHash, req.password)
    ensures LoginStep(s, checkPassword, req, o) == Step(s, Err(InvalidCredentials))
  {
  }

  /**
   * A caller cannot tell an unregistered email from a wrong password: the
   * two answers are the same.
   */
  lemma LoginHidesWhichCheckFailed(s1: Stores, s2: Stores, checkPassword: (string, string) -> bool,
                                   req: LoginRequest, o1: LoginOracle, o2: LoginOracle)
    requires !HasEmail(s1.users, req.email)
    requires HasEmail(s2.users, req.email)
    requires !checkPassword(FindByEmail(s2.users, req.email).value.passwordHash, req.password)
    ensures LoginStep(s1, checkPassword, req, o1).result == LoginStep(s2, checkPassword, req, o2).result
  {
  }

  /**
   * Login succeeds exactly when the lookup finds a user whose hash matches
   * the password and both tokens are generated for that stored user's id,
   * username and email (not the request's); it then answers with the stored
   * user's view, and the users collection is never touched.
   */
  lemma LoginSucceeds(s: Stores, checkPassword: (string, string) -> bool, req: LoginRequest, o: LoginOracle)
    ensures LoginStep(s, checkPassword, req, o).stores.users == s.users
    ensures var r := LoginStep(s, checkPassword, req, o);
            r.result.Ok? <==>
              && o.lookupFault.None? && HasEmail(s.users, req.email)
              && checkPassword(FindByEmail(s.users, req.email).value.passwordHash, req.password)
              && var u := FindByEmail(s.users, req.email).value;
                 o.issue.generateAccessToken(u.id.hex, u.username, u.email).Ok?
                 && o.issue.generateRefreshToken(u.id.hex).Ok?
    ensures var r := LoginStep(s, checkPassword, req, o);
            r.result.Ok? ==>
              var u := FindByEmail(s.users, req.email).value;
              && r.result.value.user == View(u)
              && r.result.value.accessToken == o.issue.generateAccessToken(u.id.hex, u.username, u.email).value
              && r.result.value.refreshToken == o.issue.generateRefreshToken(u.id.hex).value
  {
  }

  /** A successful Login records the refresh token for the stored user, as Register does. */
  lemma LoginRecordsRefreshToken(s: Stores, checkPassword: (string, string) -> bool, req: LoginRequest, o: LoginOracle)
    requires LoginStep(s, checkPassword, req, o).result.Ok?
    ensures var r := LoginStep(s, checkPassword, req, o);
            var u := FindByEmail(s.users, req.email).value;
            r.stores.refreshTokens ==
              match o.issue.refreshTokenId
              case None => s.refreshTokens
              case Some(id) => s.refreshTokens + [RefreshToken(id, u.id, r.result.value.refreshToken,
                                                               o.now + RefreshTokenLifetime, o.now)]
  {
  }

  /** The refresh-token insert is fire-and-forget: its outcome never changes what the caller is told. */
  lemma RefreshTokenInsertIgnored(s: Stores, checkPassword: (string, string) -> bool,
                                  reg: RegisterRequest, ro: RegisterOracle,
                                  login: LoginRequest, lo: LoginOracle, id: Option<ObjectId>)
    ensures RegisterStep(s, reg, ro).result ==
              RegisterStep(s, reg, ro.(issue := ro.issue.(refreshTokenId := id))).result
    ensures LoginStep(s, checkPassword, login, lo).result ==
              LoginStep(s, checkPassword, login, lo.(issue := lo.issue.(refreshTokenId := id))).result
  {
  }

  // ------------------------------------------------------------- Invariants

  lemma IssueTokensPreservesValid(s: Stores, user: User, o: IssueOracle, now: Time)
    requires Valid(s) && HasUserId(s.users, user.id)
    requires FreshRefreshTokenId(s.refreshTokens, o.refreshTokenId)
    ensures Valid(IssueTokens(s, user, o, now).stores)
  {
  }

  /** Register keeps both collections valid, given the store assigns fresh ids. */
  lemma RegisterPreservesValid(s: Stores, req: RegisterRequest, o: RegisterOracle)
    requires Valid(s)
    requires FreshUserId(s.users, o.userId) && FreshRefreshTokenId(s.refreshTokens, o.issue.refreshTokenId)
    ensures Valid(RegisterStep(s, req, o).stores)
  {
    if FindOne(s.users, req.email, o.lookupFault).Err? && o.hash(req.password).Ok? && o.userId.Ok? {
      var user := NewUser(o.userId.value, req, o.hash(req.password).value, o.now);
      var s' := Stores(s.users + [user], s.refreshTokens);
      forall k | 0 <= k < |s'.refreshTokens| ensures HasUserId(s'.users, s'.refreshTokens[k].userId) {
        assert HasUserId(s.users, s.refreshTokens[k].userId);
        var i :| 0 <= i < |s.users| && s.users[i].id == s.refreshTokens[k].userId;
        assert s'.users[i] == s.users[i];
      }
      assert s'.users[|s.users|] == user;
      IssueTokensPreservesValid(s', user, o.issue, o.now);
    }
  }

  /** Login keeps both collections valid, given the store assigns fresh ids. */
  lemma LoginPreservesValid(s: Stores, checkPassword: (string, string) -> bool, req: LoginRequest, o: LoginOracle)
    requires Valid(s)
    requires FreshRefreshTokenId(s.refreshTokens, o.issue.refreshTokenId)
    ensures Valid(LoginStep(s, checkPassword, req, o).stores)
  {
  }

  /** When the lookup answers, Register never lets a second user with the same email in. */
  lemma RegisterKeepsEmailsUnique(s: Stores, req: RegisterRequest, o: RegisterOracle)
    requires EmailsUnique(s.users) && o.lookupFault.None?
    ensures EmailsUnique(RegisterStep(s, req, o).stores.users)
  {
  }

  /**
   * The duplicate check trusts the lookup: when it fails for any reason,
   * Register inserts a second user with an email already stored.
   */
  lemma LookupFaultAdmitsDuplicate(s: Stores, req: RegisterRequest, o: RegisterOracle)
    requires HasEmail(s.users, req.email) && o.lookupFault.Some?
    requires o.hash(req.password).Ok? && o.userId.Ok?
    ensures !EmailsUnique(RegisterStep(s, req, o).stores.users)
  {
    var i :| 0 <= i < |s.users| && s.users[i].email == req.email;
    var users := RegisterStep(s, req, o).stores.users;
    assert users[i].email == users[|s.users|].email;
  }

  // ------------------------------------------------------------ Composition

  /**
   * The user a successful Register stores holds bcrypt's hash of the
   * request's password, and, by bcrypt's promise, that hash verifies
   * against this password.
   */
  lemma RegisterStoresPasswordHash(s: Stores, checkPassword: (string, string) -> bool,
                                   req: RegisterRequest, o: RegisterOracle)
    requires RegisterStep(s, req, o).result.Ok?
    requires HashAgrees(checkPassword, o.hash)
    ensures var users := RegisterStep(s, req, o).stores.users;
            && |users| == |s.users| + 1
            && users[|s.users|].passwordHash == o.hash(req.password).value
            && checkPassword(users[|s.users|].passwordHash, req.password)
  {
    assert o.hash(req.password).Ok?;
  }

  /**
   * Register followed by Login with the same email and password succeeds and
   * shows the same user, provided the registration's lookup answered and
   * bcrypt verifies its own hashes: the stored hash is the one Register
   * computed from the request's password.
   */
  lemma RegisterThenLogin(s: Stores, checkPassword: (string, string) -> bool,
                          req: RegisterRequest, ro: RegisterOracle, lo: LoginOracle)
    requires RegisterStep(s, req, ro).result.Ok? && ro.lookupFault.None? && ro.userId.Ok?
    requires HashAgrees(checkPassword, ro.hash)
    requires lo.lookupFault.None?
    requires lo.issue.generateAccessToken(ro.userId.value.hex, req.username, req.email).Ok?
    requires lo.issue.generateRefreshToken(ro.userId.value.hex).Ok?
    ensures var r := RegisterStep(s, req, ro);
            var l := LoginStep(r.stores, checkPassword, LoginRequest(req.email, req.password), lo);
            && l.result.Ok?
            && l.result.value.user == r.result.value.user
            && l.result.value.accessToken == lo.issue.generateAccessToken(ro.userId.value.hex, req.username, req.email).value
            && l.result.value.refreshToken == lo.issue.generateRefreshToken(ro.userId.value.hex).value
  {
    var user := NewUser(ro.userId.value, req, ro.hash(req.password).value, ro.now);
    RegisterStoresPasswordHash(s, checkPassword, req, ro);
    FindByEmailAppend(s.users, user, req.email);
  }

  /** Registering an email a second time is refused, and the second call writes nothing. */
  lemma RegisterTwiceRejected(s: Stores, req: RegisterRequest, o1: RegisterOracle,
                              req2: RegisterRequest, o2: RegisterOracle)
    requires RegisterStep(s, req, o1).result.Ok?
    requires req2.email == req.email && o2.lookupFault.None?
    ensures var s1 := RegisterStep(s, req, o1).stores;
            RegisterStep(s1, req2, o2) == Step(s1, Err(UserAlreadyExists))
  {
    var s1 := RegisterStep(s, req, o1).stores;
    assert s1.users[|s.users|].email == req.email;
  }

  /**
   * The access token a successful Register returns validates, given the
   * middleware's own promise, to the new user's id, username and email; the
   * creation time is not among the claims and comes back as zero.
   */
  lemma RegisteredTokenValidates(s: Stores, req: RegisterRequest, o: RegisterOracle,
                                 validator: string -> Result<Claims>)
    requires RegisterStep(s, req, o).result.Ok?
    requires ValidatesIssued(o.issue.generateAccessToken, validator)
    ensures var resp := RegisterStep(s, req, o).result.value;
            ValidateToken(resp.accessToken, validator) ==
              Ok(ValidateTokenResponse(true, Some(PublicUser(o.userId.value.hex, req.username, req.email, 0))))
  {
    var access := o.issue.generateAccessToken(o.userId.value.hex, req.username, req.email);
    assert access.Ok? ==> validator(access.value) == Ok(Claims(o.userId.value.hex, req.username, req.email));
  }

  /**
   * The access token a successful Login returns validates to the stored
   * user's id, username and email, with the creation time zero.
   */
  lemma LoggedInTokenValidates(s: Stores, checkPassword: (string, string) -> bool, req: LoginRequest,
                               o: LoginOracle, validator: string -> Result<Claims>)
    requires LoginStep(s, checkPassword, req, o).result.Ok?
    requires ValidatesIssued(o.issue.generateAccessToken, validator)
    ensures var resp := LoginStep(s, checkPassword, req, o).result.value;
            var u := FindByEmail(s.users, req.email).value;
            ValidateToken(resp.accessToken, validator) ==
              Ok(ValidateTokenResponse(true, Some(PublicUser(u.id.hex, u.username, u.email, 0))))
  {
    var u := FindByEmail(s.users, req.email).value;
    var access := o.issue.AccessFor(u);
    assert access.Ok? ==> validator(access.value) == Ok(Claims(u.id.hex, u.username, u.email));
  }

  /** The public view never carries the password hash: users differing only in it look the same. */
  lemma ViewHidesPasswordHash(u: User, hash: string)
    ensures View(u) == View(u.(passwordHash := hash))
  {
  }
}
