/** The authentication service: registration, admin promotion and demotion,
    login, refresh-token rotation and logout. Each operation commits once, so
    each is one method that reassigns the tables it changes. The clock, the
    random bytes, `Guid.NewGuid()`, the password check and the outcomes of
    the `UserManager` / `RoleManager` calls whose rules live inside ASP.NET
    Identity are parameters. */
module Auth {
  import opened Common
  import opened RefreshTokens
  import opened TokenStore
  import opened Identity
  import opened Tokens
  import Encoding

  const InvalidCredentials: string := "Invalid credentials."
  const InvalidRefreshToken: string := "Invalid or expired refresh token."
  const UserNotFoundForToken: string := "User not found for refresh token."

  /** `AuthenticationResult`; the access token is the descriptor that would be signed. */
  datatype AuthenticationResult = AuthenticationResult(
    succeeded: bool,
    accessToken: Option<SecurityToken>,
    refreshToken: Option<string>,
    accessTokenExpiresUtc: Option<Time>,
    refreshTokenExpiresUtc: Option<Time>,
    roles: Option<seq<string>>,
    errors: Option<seq<string>>)

  /** `new AuthenticationResult(false, Errors: new[] { error })`. */
  function AuthFailure(error: string): (r: AuthenticationResult)
    ensures !r.succeeded && r.errors == Some([error])
    ensures r.accessToken.None? && r.refreshToken.None? && r.roles.None?
    ensures r.accessTokenExpiresUtc.None? && r.refreshTokenExpiresUtc.None?
  {
    AuthenticationResult(false, None, None, None, None, None, Some([error]))
  }

  datatype LoginRequest = LoginRequest(email: string, password: string, ipAddress: Option<string>)

  datatype RefreshRequest = RefreshRequest(refreshToken: string, ipAddress: Option<string>)

  /** `ApplicationUserRegisterDto`; its annotations are checked before the service runs. */
  datatype RegisterDto = RegisterDto(
    email: string,
    password: string,
    confirmPassword: string,
    firstName: string,
    lastName: Option<string>)

  /** The user `RegisterAsync` hands to `CreateAsync`: the email doubles as user name, a
      null last name becomes empty, and the user is not deleted. */
  function NewUser(dto: RegisterDto, id: string, roles: seq<string>): (u: User)
    ensures u.id == id && u.userName == Some(dto.email) && u.email == Some(dto.email)
    ensures u.firstName == dto.firstName && u.lastName == dto.lastName.OrElse("")
    ensures !u.isDeleted && u.roles == roles
  {
    User(id, Some(dto.email), Some(dto.email), dto.firstName, dto.lastName.OrElse(""), false, roles)
  }

  /** The `NotFound` failure of promote and demote. */
  function UserNotFound(userId: string): (r: IdentityResult)
    ensures !r.succeeded && |r.errors| == 1 && r.errors[0].code == "NotFound"
  {
    IdentityFailed([IdentityError("NotFound", "User with id '" + userId + "' not found.")])
  }

  class AuthService {
    const db: ApplicationDbContext
    const tokenService: TokenService
    /** `SHA256.HashData`. */
    const sha256: seq<byte> -> seq<byte>
    /** `SignInManager.CheckPasswordSignInAsync(user, password, false).Succeeded`. */
    const checkPassword: (User, string) -> bool
    /** The `IsExpired` rule the `IsActive` checks use. */
    const isExpired: ExpiryRule

    constructor (db: ApplicationDbContext, tokenService: TokenService, sha256: seq<byte> -> seq<byte>,
                 checkPassword: (User, string) -> bool, isExpired: ExpiryRule)
      ensures this.db == db && this.tokenService == tokenService && this.sha256 == sha256
      ensures this.checkPassword == checkPassword && this.isExpired == isExpired
    {
      this.db := db;
      this.tokenService := tokenService;
      this.sha256 := sha256;
      this.checkPassword := checkPassword;
      this.isExpired := isExpired;
    }

    // -------------------------------------------------------------------
    // Helpers shared by the refresh-token operations
    // -------------------------------------------------------------------

    /** `TokenService.HashToken` on a non-empty plaintext. */
    function TokenHash(plain: string): (h: string)
      requires plain != ""
    {
      HashToken(sha256, plain).value
    }

    /** The expiry instant of a refresh token issued at `now`: the configured number of
        days later, and one day later when fewer than one day is configured. */
    function RefreshExpiry(now: Time): (t: Time)
      ensures t >= now + MinutesPerDay
      ensures t == now + RefreshTokenLifetimeDays(tokenService.settings) * MinutesPerDay
      ensures tokenService.settings.refreshTokenExpirationDays >= 1 ==>
        t == now + tokenService.settings.refreshTokenExpirationDays * MinutesPerDay
      ensures tokenService.settings.refreshTokenExpirationDays < 1 ==> t == now + MinutesPerDay
    {
      now + RefreshTokenLifetimeDays(tokenService.settings) * MinutesPerDay
    }

    /** The record a presented plaintext acts on at `now`: the first record with its hash,
        if that one is active. */
    function Match(plain: string, now: Time): Option<nat>
      requires plain != ""
      reads db
    {
      LiveMatch(isExpired, db.refreshTokens, TokenHash(plain), now)
    }

    /** The login lookup: a user with that email whose password check passes. */
    predicate CredentialsValid(request: LoginRequest)
      reads db
    {
      var k := FindByEmail(db.users, request.email);
      k.Some? && checkPassword(db.users[k.value], request.password)
    }

    /** The successful result for `user` at `now` with access token `access`. */
    function Issued(access: SecurityToken, plain: string, now: Time, user: User): AuthenticationResult {
      AuthenticationResult(true, Some(access), Some(plain),
                           Some(now + AccessTokenLifetime(tokenService.settings)),
                           Some(RefreshExpiry(now)), Some(user.roles), None)
    }

    /** The access-token half of a successful login or refresh: the user's roles
        (`GetRolesAsync`) and `CreateAccessToken`, which cannot throw on a user that exists. */
    method IssueAccessToken(user: User, now: Time, jti: string) returns (access: SecurityToken)
      ensures IsAccessToken(tokenService, access, user, Some(user.roles), now, jti)
    {
      var roles := user.roles;
      var token := CreateAccessToken(tokenService, Some(user), Some(roles), now, jti);
      access := token.value;
    }

    /** The refresh-token half: a fresh plaintext, never empty, and the record that stores
        its hash for `userId`, unrevoked and unlinked, expiring after the refresh lifetime. */
    method IssueRefreshToken(userId: string, ip: Option<string>, now: Time, randomBytes: seq<byte>, recordId: Guid)
      returns (plain: string, entity: RefreshToken)
      requires |randomBytes| == RefreshTokenByteCount(DefaultRefreshTokenSize)
      ensures plain == GenerateRefreshTokenPlaintext(DefaultRefreshTokenSize, randomBytes) && plain != ""
      ensures entity == IssuedToken(recordId, TokenHash(plain), userId, now, RefreshExpiry(now), ip)
    {
      plain := GenerateRefreshTokenPlaintext(DefaultRefreshTokenSize, randomBytes);
      var hash := HashToken(sha256, plain).value;
      var expires := now + RefreshTokenLifetimeDays(tokenService.settings) * MinutesPerDay;
      entity := IssuedToken(recordId, hash, userId, now, expires, ip);
    }

    // -------------------------------------------------------------------
    // Login
    // -------------------------------------------------------------------

    /** `LoginAsync`. Bad credentials of either kind give the same single error and change
        nothing; otherwise exactly one record is appended, holding the hash of the returned
        plaintext, and that plaintext's hash leads back to a record carrying it. */
    method Login(request: LoginRequest, now: Time, randomBytes: seq<byte>, recordId: Guid, jti: string)
      returns (r: AuthenticationResult)
      requires |randomBytes| == RefreshTokenByteCount(DefaultRefreshTokenSize)
      modifies db`refreshTokens
      ensures !CredentialsValid(request) ==>
        r == AuthFailure(InvalidCredentials) && db.refreshTokens == old(db.refreshTokens)
      ensures CredentialsValid(request) ==>
        var user := db.users[FindByEmail(db.users, request.email).value];
        var plain := GenerateRefreshTokenPlaintext(DefaultRefreshTokenSize, randomBytes);
        && r.accessToken.Some?
        && IsAccessToken(tokenService, r.accessToken.value, user, Some(user.roles), now, jti)
        && r == Issued(r.accessToken.value, plain, now, user)
        && db.refreshTokens == old(db.refreshTokens) +
             [IssuedToken(recordId, TokenHash(plain), user.id, now, RefreshExpiry(now), request.ipAddress)]
        && FindByHash(db.refreshTokens, TokenHash(plain)).Some?
      ensures Evolves(old(db.refreshTokens), db.refreshTokens)
      ensures ChainConsistent(old(db.refreshTokens)) ==> ChainConsistent(db.refreshTokens)
    {
      var k := FindByEmail(db.users, request.email);
      if k.None? {
        return AuthFailure(InvalidCredentials);
      }
      var user := db.users[k.value];
      if !checkPassword(user, request.password) {
        return AuthFailure(InvalidCredentials);
      }
      var accessToken := IssueAccessToken(user, now, jti);
      var refreshPlain, refreshEntity := IssueRefreshToken(user.id, request.ipAddress, now, randomBytes, recordId);
      AppendKeepsInvariants(db.refreshTokens, refreshEntity);
      IssueThenFind(db.refreshTokens, refreshEntity);
      db.refreshTokens := db.refreshTokens + [refreshEntity];
      r := Issued(accessToken, refreshPlain, now, user);
    }

    // -------------------------------------------------------------------
    // Refresh (rotation)
    // -------------------------------------------------------------------

    /** `RefreshTokenAsync`. An empty plaintext throws from the hash; no live match, or no
        owner, gives its error and changes nothing; otherwise the matched record is revoked
        and linked to a successor that is appended, nothing else changes, and the presented
        plaintext has no live match afterwards at any instant. */
    method Refresh(request: RefreshRequest, now: Time, randomBytes: seq<byte>, recordId: Guid, jti: string)
      returns (r: Result<AuthenticationResult, Exception>)
      requires |randomBytes| == RefreshTokenByteCount(DefaultRefreshTokenSize)
      modifies db`refreshTokens
      ensures request.refreshToken == "" ==>
        r == Failure(ArgumentNullException("tokenPlaintext")) && db.refreshTokens == old(db.refreshTokens)
      ensures request.refreshToken != "" && old(Match(request.refreshToken, now)).None? ==>
        r == Success(AuthFailure(InvalidRefreshToken)) && db.refreshTokens == old(db.refreshTokens)
      ensures request.refreshToken != "" && old(Match(request.refreshToken, now)).Some? ==>
        var k := old(Match(request.refreshToken, now)).value;
        var owner := FindById(db.users, old(db.refreshTokens)[k].userId);
        && (owner.None? ==>
              r == Success(AuthFailure(UserNotFoundForToken)) && db.refreshTokens == old(db.refreshTokens))
        && (owner.Some? ==>
              var user := db.users[owner.value];
              var plain := GenerateRefreshTokenPlaintext(DefaultRefreshTokenSize, randomBytes);
              var successor := IssuedToken(recordId, TokenHash(plain), old(db.refreshTokens)[k].userId,
                                           now, RefreshExpiry(now), request.ipAddress);
              && db.refreshTokens == RotateAt(old(db.refreshTokens), k, now, request.ipAddress, successor)
              && r.Success? && r.value.accessToken.Some?
              && IsAccessToken(tokenService, r.value.accessToken.value, user, Some(user.roles), now, jti)
              && r.value == Issued(r.value.accessToken.value, plain, now, user))
      ensures r.Success? && r.value.succeeded ==>
        request.refreshToken != "" && forall later :: Match(request.refreshToken, later).None?
      ensures Evolves(old(db.refreshTokens), db.refreshTokens)
      ensures ChainConsistent(old(db.refreshTokens)) ==> ChainConsistent(db.refreshTokens)
    {
      if request.refreshToken == "" {
        return Failure(ArgumentNullException("tokenPlaintext"));
      }
      var incomingHash := HashToken(sha256, request.refreshToken).value;
      var found := FindByHash(db.refreshTokens, incomingHash);
      if found.None? || !ActiveUnder(isExpired, db.refreshTokens[found.value], now) {
        return Success(AuthFailure(InvalidRefreshToken));
      }
      var k := found.value;
      var tokenEntity := db.refreshTokens[k];
      var owner := FindById(db.users, tokenEntity.userId);
      if owner.None? {
        return Success(AuthFailure(UserNotFoundForToken));
      }
      var user := db.users[owner.value];

      var newPlain, newRt := IssueRefreshToken(tokenEntity.userId, request.ipAddress, now, randomBytes, recordId);

      var before := db.refreshTokens;
      RotateKeepsInvariants(before, k, now, request.ipAddress, newRt);
      forall later
        ensures LiveMatch(isExpired, RotateAt(before, k, now, request.ipAddress, newRt), incomingHash, later).None?
      {
        ReplayIsRejected(isExpired, before, incomingHash, k, now, request.ipAddress, newRt, later);
      }
      db.refreshTokens := before[k := Rotated(tokenEntity, now, request.ipAddress, newRt.tokenHash)] + [newRt];

      var newAccess := IssueAccessToken(user, now, jti);
      r := Success(Issued(newAccess, newPlain, now, user));
    }

    // -------------------------------------------------------------------
    // Revoke (logout)
    // -------------------------------------------------------------------

    /** `RevokeRefreshTokenAsync`: true exactly when the plaintext is non-empty and has a live
        match, which alone is revoked; otherwise false and nothing changes. After a true
        answer the plaintext has no live match at any instant, so a second logout is false. */
    method Revoke(plain: string, ipAddress: Option<string>, now: Time) returns (ok: bool)
      modifies db`refreshTokens
      ensures ok <==> plain != "" && old(Match(plain, now)).Some?
      ensures !ok ==> db.refreshTokens == old(db.refreshTokens)
      ensures ok ==> db.refreshTokens == RevokeAt(old(db.refreshTokens), old(Match(plain, now)).value, now, ipAddress)
      ensures ok ==> forall later :: Match(plain, later).None?
      ensures Evolves(old(db.refreshTokens), db.refreshTokens)
      ensures ChainConsistent(old(db.refreshTokens)) ==> ChainConsistent(db.refreshTokens)
    {
      if plain == "" {
        return false;
      }
      var hash := HashToken(sha256, plain).value;
      var found := FindByHash(db.refreshTokens, hash);
      if found.None? || !ActiveUnder(isExpired, db.refreshTokens[found.value], now) {
        return false;
      }
      var k := found.value;
      var before := db.refreshTokens;
      RevokeKeepsInvariants(before, k, now, ipAddress);
      forall later
        ensures LiveMatch(isExpired, RevokeAt(before, k, now, ipAddress), hash, later).None?
      {
        RevokeIsIdempotent(isExpired, before, hash, k, now, ipAddress, later);
      }
      db.refreshTokens := before[k := Revoked(before[k], now, ipAddress)];
      ok := true;
    }

    // -------------------------------------------------------------------
    // Registration and roles
    // -------------------------------------------------------------------

    /** `RegisterAsync`. `createResult` is what `CreateAsync` decides (password rules, a
        duplicate email); `roleLookupFails` says whether `RoleExistsAsync` throws. The
        result is the creation result; on success the new user is stored, holding the
        "User" role exactly when that role exists and the lookup did not fail. */
    method Register(dto: RegisterDto, newId: string, createResult: IdentityResult, roleLookupFails: bool)
      returns (r: IdentityResult)
      modifies db`users
      ensures r == createResult
      ensures !createResult.succeeded ==> db.users == old(db.users)
      ensures createResult.succeeded ==>
        db.users == old(db.users) +
          [NewUser(dto, newId, if UserRole in db.roles && !roleLookupFails then [UserRole] else [])]
    {
      var user := NewUser(dto, newId, []);
      r := createResult;
      if createResult.succeeded {
        var roleExists := if roleLookupFails then false else UserRole in db.roles;
        if roleExists {
          user := user.(roles := AddRole(user.roles, UserRole));
          assert user.roles == [] + [UserRole] == [UserRole];
        }
        db.users := db.users + [user];
      }
    }

    /** `PromoteToAdminAsync`. A blank id throws; an unknown id is `NotFound`; a missing
        Admin role is created first (`roleCreateResult` is what `RoleManager.CreateAsync`
        decides) and a failed creation is returned as is. Otherwise the call succeeds, the
        role exists and the user holds it; an existing admin is left exactly as it was. */
    method PromoteToAdmin(userId: string, roleCreateResult: IdentityResult)
      returns (r: Result<IdentityResult, Exception>)
      modifies db`users, db`roles
      ensures IsNullOrWhiteSpace(userId) ==>
        r == Failure(ArgumentNullException("userId")) && db.users == old(db.users) && db.roles == old(db.roles)
      ensures !IsNullOrWhiteSpace(userId) && FindById(old(db.users), userId).None? ==>
        r == Success(UserNotFound(userId)) && db.users == old(db.users) && db.roles == old(db.roles)
      ensures !IsNullOrWhiteSpace(userId) && FindById(old(db.users), userId).Some? ==>
        var k := FindById(old(db.users), userId).value;
        var user := old(db.users)[k];
        if AdminRole !in old(db.roles) && !roleCreateResult.succeeded then
          r == Success(roleCreateResult) && db.users == old(db.users) && db.roles == old(db.roles)
        else
          && r == Success(IdentitySuccess)
          && db.roles == old(db.roles) + {AdminRole}
          && db.users == old(db.users)[k := user.(roles := AddRole(user.roles, AdminRole))]
          && AdminRole in db.users[k].roles
          && (AdminRole in user.roles ==> db.users == old(db.users))
    {
      if IsNullOrWhiteSpace(userId) {
        return Failure(ArgumentNullException("userId"));
      }
      var found := FindById(db.users, userId);
      if found.None? {
        return Success(UserNotFound(userId));
      }
      var k := found.value;
      var user := db.users[k];
      if AdminRole !in db.roles {
        if !roleCreateResult.succeeded {
          return Success(roleCreateResult);
        }
        db.roles := db.roles + {AdminRole};
      }
      if AdminRole in user.roles {
        return Success(IdentitySuccess);
      }
      db.users := db.users[k := user.(roles := AddRole(user.roles, AdminRole))];
      r := Success(IdentitySuccess);
    }

    /** `DemoteFromAdminAsync`. A blank id throws; an unknown id is `NotFound`; otherwise the
        call succeeds and the user no longer holds the Admin role, keeping every other role;
        a user who was not an admin is left exactly as it was. The role table is untouched. */
    method DemoteFromAdmin(userId: string) returns (r: Result<IdentityResult, Exception>)
      modifies db`users
      ensures IsNullOrWhiteSpace(userId) ==>
        r == Failure(ArgumentNullException("userId")) && db.users == old(db.users)
      ensures !IsNullOrWhiteSpace(userId) && FindById(old(db.users), userId).None? ==>
        r == Success(UserNotFound(userId)) && db.users == old(db.users)
      ensures !IsNullOrWhiteSpace(userId) && FindById(old(db.users), userId).Some? ==>
        var k := FindById(old(db.users), userId).value;
        var user := old(db.users)[k];
        && r == Success(IdentitySuccess)
        && db.users == old(db.users)[k := user.(roles := RemoveRole(user.roles, AdminRole))]
        && AdminRole !in db.users[k].roles
        && (AdminRole !in user.roles ==> db.users == old(db.users))
    {
      if IsNullOrWhiteSpace(userId) {
        return Failure(ArgumentNullException("userId"));
      }
      var found := FindById(db.users, userId);
      if found.None? {
        return Success(UserNotFound(userId));
      }
      var k := found.value;
      var user := db.users[k];
      if AdminRole !in user.roles {
        return Success(IdentitySuccess);
      }
      db.users := db.users[k := user.(roles := RemoveRole(user.roles, AdminRole))];
      r := Success(IdentitySuccess);
    }
  }

  // ---------------------------------------------------------------------
  // Lifecycle scenarios under the two expiry rules
  // ---------------------------------------------------------------------

  /** As written, the refresh token a login hands out is refused by the very next refresh:
      once the clock has reached every record's creation instant, no record is active. */
  method LoginThenRefreshAsWritten(service: AuthService, request: LoginRequest, loginAt: Time, refreshAt: Time,
                                   bytes0: seq<byte>, bytes1: seq<byte>, id0: Guid, id1: Guid,
                                   jti0: string, jti1: string)
    returns (login: AuthenticationResult, refresh: Result<AuthenticationResult, Exception>)
    requires service.isExpired == IsExpired
    requires service.CredentialsValid(request)
    requires |bytes0| == RefreshTokenByteCount(DefaultRefreshTokenSize)
    requires |bytes1| == RefreshTokenByteCount(DefaultRefreshTokenSize)
    requires loginAt <= refreshAt
    requires forall j :: 0 <= j < |service.db.refreshTokens| ==> service.db.refreshTokens[j].createdAtUtc <= refreshAt
    modifies service.db
    ensures login.succeeded && login.refreshToken.Some?
    ensures refresh == Success(AuthFailure(InvalidRefreshToken))
  {
    login := service.Login(request, loginAt, bytes0, id0, jti0);
    var plain := login.refreshToken.value;
    NothingLiveAsWritten(service.db.refreshTokens, service.TokenHash(plain), refreshAt);
    refresh := service.Refresh(RefreshRequest(plain, request.ipAddress), refreshAt, bytes1, id1, jti1);
  }

  /** Under the expiry-instant rule the lifecycle works as the `ExpiresAtUtc` field intends: a refresh with the
      token a login handed out, within its lifetime, succeeds and hands out a different
      token, and presenting the first token again afterwards is refused. */
  method LoginRefreshReplayAtExpiry(service: AuthService, request: LoginRequest,
                                    loginAt: Time, refreshAt: Time, replayAt: Time,
                                    bytes0: seq<byte>, bytes1: seq<byte>, bytes2: seq<byte>,
                                    id0: Guid, id1: Guid, id2: Guid, jti0: string, jti1: string, jti2: string)
    returns (login: AuthenticationResult, refresh: Result<AuthenticationResult, Exception>,
             replay: Result<AuthenticationResult, Exception>)
    requires service.isExpired == IsExpiredAtExpiry
    requires service.CredentialsValid(request)
    requires |bytes0| == RefreshTokenByteCount(DefaultRefreshTokenSize)
    requires |bytes1| == RefreshTokenByteCount(DefaultRefreshTokenSize)
    requires |bytes2| == RefreshTokenByteCount(DefaultRefreshTokenSize)
    requires loginAt <= refreshAt < loginAt + MinutesPerDay
    requires bytes0 != bytes1
    // the new hash collides with no stored one
    requires forall j :: 0 <= j < |service.db.refreshTokens| ==>
      service.db.refreshTokens[j].tokenHash !=
      service.TokenHash(GenerateRefreshTokenPlaintext(DefaultRefreshTokenSize, bytes0))
    modifies service.db
    ensures login.succeeded && login.refreshToken.Some?
    ensures refresh.Success? && refresh.value.succeeded
    ensures refresh.value.refreshToken.Some? && refresh.value.refreshToken != login.refreshToken
    ensures replay == Success(AuthFailure(InvalidRefreshToken))
  {
    ghost var before := service.db.refreshTokens;
    login := service.Login(request, loginAt, bytes0, id0, jti0);
    var plain := login.refreshToken.value;
    ghost var issued := service.db.refreshTokens[|before|];
    IssuedTokenLiveAtExpiryRule(before, issued, refreshAt);
    refresh := service.Refresh(RefreshRequest(plain, request.ipAddress), refreshAt, bytes1, id1, jti1);
    Encoding.EncodeInjective(bytes0, bytes1);
    replay := service.Refresh(RefreshRequest(plain, request.ipAddress), replayAt, bytes2, id2, jti2);
  }

  /** Logging out twice with the same plaintext: the second call finds nothing to revoke. */
  method LogoutTwice(service: AuthService, plain: string, ip: Option<string>, firstAt: Time, secondAt: Time)
    returns (first: bool, second: bool)
    modifies service.db
    ensures first ==> !second
  {
    first := service.Revoke(plain, ip, firstAt);
    second := service.Revoke(plain, ip, secondAt);
  }
}
