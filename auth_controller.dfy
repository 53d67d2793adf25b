/** AuthController: the sign-up, sign-in, token-refresh and logout endpoints. Password
    hashing, the authentication manager and JWT minting are parameters. A reply is an
    HTTP status with a body; an exception that escapes an endpoint is a Failure. */
module AuthControllers {
  import opened Wrappers
  import opened RoleTypes
  import opened Roles
  import opened Users
  import opened RefreshTokens
  import opened Repositories
  import opened Failures
  import opened Principals
  import opened Security
  import opened RefreshTokenServices

  datatype SignUpRequest = SignUpRequest(username: string, email: string, password: string)
  datatype SignInRequest = SignInRequest(username: string, password: string)
  datatype TokenRefreshRequest = TokenRefreshRequest(refreshToken: string)

  datatype Message = Message(message: string)
  datatype SignInResponse = SignInResponse(
    accessToken: string,
    tokenType: string,
    refreshToken: Option<string>,
    username: Option<string>,
    email: Option<string>,
    roles: set<string>)
  datatype TokenRefreshResponse = TokenRefreshResponse(accessToken: string, tokenType: string, refreshToken: string)

  /** A ResponseEntity: status code and body. */
  datatype Reply<T> = Reply(status: int, body: T)

  const UsernameTakenText := "Username is already taken."
  const EmailInUseText := "Email is already in use."
  const RegisteredText := "User registered successfully."
  const LogoutText := "Logout successful."
  const TokenType := "Bearer"

  /** The user table after a successful sign-up under the generated id `id`. */
  function Registered(users: map<int, UserRow>, id: int, req: SignUpRequest, encode: string -> string): map<int, UserRow> {
    users[id := UserRow(req.username, req.email, encode(req.password), {RoleUser})]
  }

  /** A successful sign-up adds exactly one user, under a new id, with the requested name
      and email, the encoded password and the single role ROLE_USER; every other row is
      kept, and names and emails stay unique. */
  lemma RegisteredAddsOneUser(users: map<int, UserRow>, id: int, req: SignUpRequest, encode: string -> string)
    requires UniqueUsernames(users) && UniqueEmails(users)
    requires !UsernameTaken(users, req.username) && !EmailTaken(users, req.email)
    requires id !in users
    ensures var after := Registered(users, id, req, encode);
            && UniqueUsernames(after) && UniqueEmails(after)
            && after.Keys == users.Keys + {id}
            && (forall k :: k in users ==> after[k] == users[k])
            && UserIdOf(after, req.username) == Some(id)
            && after[id].email == req.email && after[id].password == encode(req.password)
            && after[id].roles == {RoleUser}
  {
    var after := Registered(users, id, req, encode);
    assert forall k :: k in after.Keys <==> k in users.Keys + {id};
    UserIdOfUnique(after, req.username, id);
  }

  /** What tokenRefresh answers for a token table: an unknown token is invalid, an
      expired one is reported as expired, and a live one yields a fresh access token for
      its owner, echoing the refresh token. */
  ghost function RefreshOutcome(tokens: map<int, TokenRow>, users: map<int, UserRow>, value: string,
                                now: Instant, mint: Option<string> -> string): Result<Reply<TokenRefreshResponse>, Failure>
    requires forall k :: k in tokens ==> tokens[k].userId in users
  {
    match TokenIdOfValue(tokens, value)
    case None => Failure(TokenRefresh(Some(value), InvalidReason))
    case Some(k) =>
      if IsExpired(tokens[k].expiryDate, now) then Failure(TokenRefresh(Some(value), ExpiredReason))
      else Success(Reply(200, TokenRefreshResponse(mint(Some(users[tokens[k].userId].username)), TokenType, value)))
  }

  /** The token table after tokenRefresh: an expired token is removed. */
  ghost function RefreshTable(tokens: map<int, TokenRow>, value: string, now: Instant): map<int, TokenRow> {
    match TokenIdOfValue(tokens, value)
    case Some(k) => if IsExpired(tokens[k].expiryDate, now) then tokens - {k} else tokens
    case None => tokens
  }

  /** Every answer of tokenRefresh is one of three: the invalid-token failure exactly when
      no token has the value, the expiry failure, or 200 with type "Bearer", the same
      refresh token and an access token minted for the owner. Both failures are 403. */
  lemma RefreshOutcomeMeaning(tokens: map<int, TokenRow>, users: map<int, UserRow>, value: string,
                              now: Instant, mint: Option<string> -> string)
    requires forall k :: k in tokens ==> tokens[k].userId in users
    ensures var r := RefreshOutcome(tokens, users, value, now, mint);
            && (r == Failure(TokenRefresh(Some(value), InvalidReason)) <==> forall k :: k in tokens ==> tokens[k].token != value)
            && (r.Failure? ==> DeclaredStatus(r.error) == Some(403))
            && (r.Success? ==> exists k :: k in tokens && tokens[k].token == value && !IsExpired(tokens[k].expiryDate, now)
                                 && r.value == Reply(200, TokenRefreshResponse(mint(Some(users[tokens[k].userId].username)), "Bearer", value)))
    ensures RefreshTable(tokens, value, now) != tokens ==>
              RefreshOutcome(tokens, users, value, now, mint) == Failure(TokenRefresh(Some(value), ExpiredReason))
  {
  }

  /** Once a token has been refused as expired it is gone: presenting it again, at any
      time, is refused as invalid. */
  lemma RefreshAfterExpiryIsInvalid(tokens: map<int, TokenRow>, users: map<int, UserRow>, value: string,
                                    now: Instant, later: Instant, mint: Option<string> -> string)
    requires forall k :: k in tokens ==> tokens[k].userId in users
    requires UniqueTokenValues(tokens)
    requires RefreshOutcome(tokens, users, value, now, mint) == Failure(TokenRefresh(Some(value), ExpiredReason))
    ensures var after := RefreshTable(tokens, value, now);
            RefreshOutcome(after, users, value, later, mint) == Failure(TokenRefresh(Some(value), InvalidReason))
  {
    var k := TokenIdOfValue(tokens, value).value;
    var after := RefreshTable(tokens, value, now);
    assert after == tokens - {k};
    forall j | j in after ensures after[j].token != value {
      assert tokens[j].token != tokens[k].token;
    }
  }

  /** The token table after logout: the signed-in user's tokens are removed when the
      principal is a UserDetailsImpl naming a stored user. */
  ghost function LogoutTable(tokens: map<int, TokenRow>, users: map<int, UserRow>, a: Authentication): map<int, TokenRow> {
    match a.principal
    case UserPrincipal(d) =>
      if d.username.Some? && UsernameTaken(users, d.username.value) then
        TokensWithout(tokens, UserIdOf(users, d.username.value).value)
      else tokens
    case OtherPrincipal(_) => tokens
  }

  /** After logout, the refresh token the user was issued is refused as invalid. */
  lemma RefreshAfterLogoutIsInvalid(tokens: map<int, TokenRow>, users: map<int, UserRow>, a: Authentication,
                                    value: string, now: Instant, mint: Option<string> -> string)
    requires forall k :: k in tokens ==> tokens[k].userId in users
    requires UniqueUsernames(users) && UniqueTokenValues(tokens)
    requires a.principal.UserPrincipal? && a.principal.details.username.Some?
    requires TokenIdOfValue(tokens, value).Some?
    requires users[tokens[TokenIdOfValue(tokens, value).value].userId].username == a.principal.details.username.value
    ensures RefreshOutcome(LogoutTable(tokens, users, a), users, value, now, mint) == Failure(TokenRefresh(Some(value), InvalidReason))
  {
    var k := TokenIdOfValue(tokens, value).value;
    var uid := tokens[k].userId;
    UserIdOfUnique(users, a.principal.details.username.value, uid);
    DeletedUserHasNoToken(tokens, uid, value);
  }

  class AuthController {
    const db: Database
    const refreshTokenService: RefreshTokenService

    constructor (store: Database, service: RefreshTokenService)
      requires service.db == store
      ensures db == store && refreshTokenService == service
    {
      db := store;
      refreshTokenService := service;
    }

    ghost predicate Valid()
      reads this, db, db.roleObjects.Values
    {
      refreshTokenService.db == db && db.Valid()
    }

    /** signUp: a taken username is refused first, then a taken email, both with 400 and
        nothing saved. Otherwise the user is saved with the encoded password and the role
        ROLE_USER (NoSuchElement if the roles table lacks it), and the reply is 200. */
    method SignUp(req: SignUpRequest, encode: string -> string) returns (r: Result<Reply<Message>, Failure>)
      requires Valid()
      modifies db
      ensures Valid()
      ensures db.tokens == old(db.tokens) && db.roleObjects == old(db.roleObjects)
      ensures db.nextTokenId == old(db.nextTokenId)
      ensures db.nextUserId == if old(db.nextUserId) in db.users then old(db.nextUserId) + 1 else old(db.nextUserId)
      ensures UsernameTaken(old(db.users), req.username) ==>
                r == Success(Reply(400, Message("Username is already taken."))) && db.users == old(db.users)
      ensures !UsernameTaken(old(db.users), req.username) && EmailTaken(old(db.users), req.email) ==>
                r == Success(Reply(400, Message("Email is already in use."))) && db.users == old(db.users)
      ensures !UsernameTaken(old(db.users), req.username) && !EmailTaken(old(db.users), req.email) ==>
                if RoleUser in db.roleObjects then
                  r == Success(Reply(200, Message("User registered successfully.")))
                  && db.users == Registered(old(db.users), old(db.nextUserId), req, encode)
                else
                  r == Failure(NoSuchElement) && db.users == old(db.users)
    {
      var taken := db.ExistsByUsername(req.username);
      if taken {
        return Success(Reply(400, Message(UsernameTakenText)));
      }
      var inUse := db.ExistsByEmail(req.email);
      if inUse {
        return Success(Reply(400, Message(EmailInUseText)));
      }
      r := RegisterUser(req, encode);
    }

    /** The second half of signUp, once the name and email are known to be free: build the
        user with the encoded password and the managed ROLE_USER role, and save it. */
    method RegisterUser(req: SignUpRequest, encode: string -> string) returns (r: Result<Reply<Message>, Failure>)
      requires Valid()
      requires !UsernameTaken(db.users, req.username) && !EmailTaken(db.users, req.email)
      modifies db
      ensures Valid()
      ensures db.tokens == old(db.tokens) && db.roleObjects == old(db.roleObjects)
      ensures db.nextTokenId == old(db.nextTokenId)
      ensures db.nextUserId == if old(db.nextUserId) in db.users then old(db.nextUserId) + 1 else old(db.nextUserId)
      ensures RoleUser in db.roleObjects ==>
                r == Success(Reply(200, Message("User registered successfully.")))
                && db.users == Registered(old(db.users), old(db.nextUserId), req, encode)
      ensures RoleUser !in db.roleObjects ==> r == Failure(NoSuchElement) && db.users == old(db.users)
    {
      var user := new User(req.username, req.email, encode(req.password));
      var userRole := db.FindRoleByType(RoleUser);
      if userRole.None? {
        return Failure(NoSuchElement);
      }
      var roles := new RoleSet();
      var _ := roles.Add(userRole.value);
      user.SetRoles(roles);
      assert roles.elems == {userRole.value};
      assert TypesOf(user.roles.elems) == {RoleUser};
      ghost var expected := Registered(db.users, db.nextUserId, req, encode);
      assert user.username == Some(req.username) && user.email == Some(req.email);
      assert user.password == Some(encode(req.password));
      db.SaveUser(user);
      assert db.users == expected;
      r := Success(Reply(200, Message(RegisteredText)));
    }

    /** signIn: the authentication manager's verdict is stored in the security context;
        a rejection is BadCredentials and a principal that is not a UserDetailsImpl a
        ClassCast. Otherwise the user's refresh token is created or renewed, and the reply
        carries the minted access token, type "Bearer", the new refresh token and the
        principal's username, email and authority names. */
    method SignIn(req: SignInRequest, ctx: SecurityContext, authenticate: (string, string) -> Option<Authentication>,
                  mint: Option<string> -> string, now: Instant, uuid: string)
      returns (r: Result<Reply<SignInResponse>, Failure>)
      requires Valid()
      modifies db, ctx
      ensures Valid()
      ensures db.users == old(db.users) && db.roleObjects == old(db.roleObjects)
      ensures db.nextUserId == old(db.nextUserId)
      ensures db.nextTokenId == if old(db.nextTokenId) in db.tokens then old(db.nextTokenId) + 1 else old(db.nextTokenId)
      ensures authenticate(req.username, req.password).None? ==>
                r == Failure(BadCredentials) && ctx.authentication == old(ctx.authentication) && db.tokens == old(db.tokens)
      ensures authenticate(req.username, req.password).Some? ==> ctx.authentication == authenticate(req.username, req.password)
      ensures authenticate(req.username, req.password).Some? && authenticate(req.username, req.password).value.principal.OtherPrincipal? ==>
                r == Failure(ClassCast) && db.tokens == old(db.tokens)
      ensures authenticate(req.username, req.password).Some? && authenticate(req.username, req.password).value.principal.UserPrincipal? ==>
                var d := authenticate(req.username, req.password).value.principal.details;
                && (d.username.None? || !UsernameTaken(db.users, d.username.value) ==>
                      r == Failure(NoSuchElement) && db.tokens == old(db.tokens))
                && (d.username.Some? && UsernameTaken(db.users, d.username.value) ==>
                      var uid := UserIdOf(db.users, d.username.value).value;
                      var key := UpsertKey(old(db.tokens), old(db.nextTokenId), uid);
                      var row := TokenRow(uid, uuid, PlusMillis(now, refreshTokenService.tokenDuration));
                      && (Conflicts(old(db.tokens), key, row) ==> r == Failure(DataIntegrityViolation) && db.tokens == old(db.tokens))
                      && (!Conflicts(old(db.tokens), key, row) ==> r.Success? && db.tokens == old(db.tokens)[key := row]))
      ensures r.Failure? ==> db.tokens == old(db.tokens)
      ensures r.Success? ==>
                var d := authenticate(req.username, req.password).value.principal.details;
                && d.username.Some? && UsernameTaken(db.users, d.username.value)
                && r.value == Reply(200, SignInResponse(mint(d.username), "Bearer", Some(uuid), d.username, d.email, d.authorities))
                && var uid := UserIdOf(db.users, d.username.value).value;
                   TokenIdsOfUser(db.tokens, uid) != {}
                   && forall k :: k in db.tokens && db.tokens[k].userId == uid ==>
                        db.tokens[k] == TokenRow(uid, uuid, PlusMillis(now, refreshTokenService.tokenDuration))
    {
      var authentication := authenticate(req.username, req.password);
      if authentication.None? {
        return Failure(BadCredentials);
      }
      ctx.SetAuthentication(authentication);
      if !authentication.value.principal.UserPrincipal? {
        return Failure(ClassCast);
      }
      var details := authentication.value.principal.details;
      var jwt := mint(details.username);
      var roles := details.authorities;
      if details.username.None? {
        // findByUsername(null) finds no user, so the .get() in createRefreshToken throws
        return Failure(NoSuchElement);
      }
      ghost var before := db.tokens;
      var created := refreshTokenService.CreateRefreshToken(details.username.value, now, uuid);
      if created.Failure? {
        return Failure(created.error);
      }
      ghost var uid := UserIdOf(db.users, details.username.value).value;
      ghost var key := UpsertKey(before, old(db.nextTokenId), uid);
      UpsertOneTokenPerUser(before, old(db.nextTokenId), TokenRow(uid, uuid, PlusMillis(now, refreshTokenService.tokenDuration)));
      assert key in TokenIdsOfUser(db.tokens, uid);
      r := Success(Reply(200, SignInResponse(jwt, TokenType, created.value.token, details.username, details.email, roles)));
    }

    /** tokenRefresh: look the token up, check its expiry (deleting it if expired), then
        mint an access token for its owner. */
    method TokenRefresh(req: TokenRefreshRequest, now: Instant, mint: Option<string> -> string)
      returns (r: Result<Reply<TokenRefreshResponse>, Failure>)
      requires Valid()
      modifies db
      ensures Valid()
      ensures db.users == old(db.users) && db.roleObjects == old(db.roleObjects)
      ensures db.nextUserId == old(db.nextUserId) && db.nextTokenId == old(db.nextTokenId)
      ensures r == RefreshOutcome(old(db.tokens), db.users, req.refreshToken, now, mint)
      ensures db.tokens == RefreshTable(old(db.tokens), req.refreshToken, now)
    {
      var refreshToken := req.refreshToken;
      var found := refreshTokenService.FindByToken(refreshToken);
      if found.None? {
        return Failure(Failure.TokenRefresh(Some(refreshToken), InvalidReason));
      }
      var verified := refreshTokenService.VerifyExpiration(found.value, now);
      if verified.Failure? {
        return Failure(verified.error);
      }
      var user := verified.value.user;
      var token := mint(user.username);
      r := Success(Reply(200, TokenRefreshResponse(token, TokenType, refreshToken)));
    }

    /** logout: with no authentication in the context the principal lookup dereferences
        null. Otherwise the principal's refresh tokens are deleted when it is a
        UserDetailsImpl, and the reply is always 200 "Logout successful.". */
    method Logout(ctx: SecurityContext) returns (r: Result<Reply<Message>, Failure>)
      requires Valid()
      modifies db
      ensures Valid()
      ensures db.users == old(db.users) && db.roleObjects == old(db.roleObjects)
      ensures db.nextUserId == old(db.nextUserId) && db.nextTokenId == old(db.nextTokenId)
      ensures r.Failure? <==> ctx.authentication.None?
      ensures ctx.authentication.None? ==> r == Failure(NullPointer) && db.tokens == old(db.tokens)
      ensures ctx.authentication.Some? ==>
                && r == Success(Reply(200, Message("Logout successful.")))
                && db.tokens == LogoutTable(old(db.tokens), db.users, ctx.authentication.value)
    {
      if ctx.authentication.None? {
        return Failure(NullPointer);
      }
      match ctx.authentication.value.principal {
        case UserPrincipal(user) =>
          // findByUsername(null) finds no user, so deleteByUsername(null) deletes nothing
          if user.username.Some? {
            var _ := refreshTokenService.DeleteByUsername(user.username.value);
          }
        case OtherPrincipal(_) =>
      }
      r := Success(Reply(200, Message(LogoutText)));
    }
  }
}
