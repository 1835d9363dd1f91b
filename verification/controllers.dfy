/**
 * The three public endpoints (sign-up, login, refresh) as flows over the shared
 * database, with their HTTP answers as an `Outcome`. An exception a flow catches
 * becomes an error status; one it does not catch is `Raised`.
 */
module Controllers {
  import opened Entities
  import opened Failures
  import opened Store
  import Jwt
  import Validation
  import RefreshTokens
  import Accounts

  const USER_EXISTS_MESSAGE := "User already exists"
  const SIGNUP_ERROR_MESSAGE := "Internal server error during signup"

  /** 200 with both tokens, 400 or 500 with a message, 401, or an escaping exception. */
  datatype Outcome =
    | Ok(accessToken: string, token: string)
    | BadRequest(message: string)
    | Unauthorized
    | ServerError(message: string)
    | Raised(failure: Failure)

  /** What the authentication manager made of the login credentials. */
  datatype AuthenticationResult =
    | Authenticated(isAuthenticated: bool)
    | BadCredentials
    | AuthenticationFailed

  /** The login request body. */
  datatype AuthRequest = AuthRequest(username: string, password: string)

  /** AuthController: the sign-up endpoint. */
  class AuthController {
    const db: Database
    const jwtService: Jwt.JwtService
    const refreshTokenService: RefreshTokens.RefreshTokenService
    const userDetailsService: Accounts.UserDetailsServiceImpl

    ghost predicate Valid()
      reads db
    {
      refreshTokenService.db == db && userDetailsService.db == db && db.Valid()
    }

    constructor (db: Database, jwtService: Jwt.JwtService,
                 refreshTokenService: RefreshTokens.RefreshTokenService,
                 userDetailsService: Accounts.UserDetailsServiceImpl)
      requires refreshTokenService.db == db && userDetailsService.db == db && db.Valid()
      ensures Valid()
      ensures this.db == db && this.jwtService == jwtService
      ensures this.refreshTokenService == refreshTokenService && this.userDetailsService == userDetailsService
    {
      this.db := db;
      this.jwtService := jwtService;
      this.refreshTokenService := refreshTokenService;
      this.userDetailsService := userDetailsService;
    }

    /**
     * The endpoint over `Accounts.UserDetailsServiceImpl.SignUp` as written. Any
     * exception becomes 500 with a fixed message and "false" becomes 400; since
     * that sign-up never answers true, a valid request for a new username gets
     * 500 and the token steps after it are never reached. Nothing is written.
     */
    method SignUpAsWritten(dto: Accounts.UserInfoDto?) returns (outcome: Outcome)
      requires Valid()
      ensures Validation.ValidateUserAttributes(Accounts.Input(dto)).Err? ==> outcome == ServerError(SIGNUP_ERROR_MESSAGE)
      ensures Validation.ValidateUserAttributes(Accounts.Input(dto)).Ok? ==>
                outcome == (if dto.username.value in db.users then BadRequest(USER_EXISTS_MESSAGE)
                            else ServerError(SIGNUP_ERROR_MESSAGE))
    {
      var isSignedUp := userDetailsService.SignUp(dto);
      if isSignedUp.Err? {
        return ServerError(SIGNUP_ERROR_MESSAGE);
      }
      if !isSignedUp.value {
        return BadRequest(USER_EXISTS_MESSAGE);
      }
      // The sign-up as written never answers true, so the token steps are dead code.
      assert false;
    }

    /**
     * Sign up, then issue a refresh token and an access token for the request's
     * username. The account is created by the corrected sign-up sequence; see
     * `Accounts.UserDetailsServiceImpl.SignUp` for the one as written, with
     * which this flow can only answer 400 or 500.
     */
    method SignUp(dto: Accounts.UserInfoDto?, userId: string, encode: string -> string,
                  tokenValue: string, now: Instant) returns (outcome: Outcome)
      requires Valid()
      requires db.FreshUserId(userId) && |userId| == Accounts.UUID_LENGTH
      requires tokenValue !in db.tokens && |tokenValue| == Accounts.UUID_LENGTH
      modifies db, dto
      ensures Valid()
      ensures Validation.ValidateUserAttributes(old(Accounts.Input(dto))).Err? ==>
                outcome == ServerError(SIGNUP_ERROR_MESSAGE) && db.users == old(db.users) && db.tokens == old(db.tokens)
      ensures Validation.ValidateUserAttributes(old(Accounts.Input(dto))).Ok? && old(dto.username.value) in old(db.users) ==>
                outcome == BadRequest(USER_EXISTS_MESSAGE) && db.users == old(db.users) && db.tokens == old(db.tokens)
      ensures Validation.ValidateUserAttributes(old(Accounts.Input(dto))).Ok? && old(dto.username.value) !in old(db.users) ==>
                var name := old(dto.username.value);
                var user := UserInfo(userId, name, encode(old(dto.password.value)), {});
                && (|name| > USERNAME_COLUMN_LENGTH ==>
                      outcome == ServerError(SIGNUP_ERROR_MESSAGE)
                      && db.users == old(db.users) && db.tokens == old(db.tokens))
                && (|name| <= USERNAME_COLUMN_LENGTH ==>
                      && db.users == old(db.users)[name := user]
                      && db.tokens == old(db.tokens)[tokenValue := RefreshToken(tokenValue, now + RefreshTokens.REFRESH_TOKEN_TTL_MS, user)]
                      && outcome == (if jwtService.SignKey().Ok?
                                     then Ok(jwtService.GenerateToken(name, now).value, tokenValue)
                                     else ServerError(SIGNUP_ERROR_MESSAGE)))
    {
      var isSignedUp := userDetailsService.SignUpCorrected(dto, userId, encode);
      if isSignedUp.Err? {
        return ServerError(SIGNUP_ERROR_MESSAGE);
      }
      if !isSignedUp.value {
        return BadRequest(USER_EXISTS_MESSAGE);
      }
      assert !db.HasTokenFor(userId);
      var refreshToken := refreshTokenService.CreateRefreshToken(dto.username.value, tokenValue, now);
      if refreshToken.Err? {
        return ServerError(SIGNUP_ERROR_MESSAGE);
      }
      var jwtToken := jwtService.GenerateToken(dto.username.value, now);
      if jwtToken.Err? {
        return ServerError(SIGNUP_ERROR_MESSAGE);
      }
      outcome := Ok(jwtToken.value, refreshToken.value.token);
    }
  }

  /** TokenController: the login and refresh endpoints. */
  class TokenController {
    const db: Database
    const jwtService: Jwt.JwtService
    const refreshTokenService: RefreshTokens.RefreshTokenService

    ghost predicate Valid()
      reads db
    {
      refreshTokenService.db == db && db.Valid()
    }

    constructor (db: Database, jwtService: Jwt.JwtService, refreshTokenService: RefreshTokens.RefreshTokenService)
      requires refreshTokenService.db == db && db.Valid()
      ensures Valid()
      ensures this.db == db && this.jwtService == jwtService && this.refreshTokenService == refreshTokenService
    {
      this.db := db;
      this.jwtService := jwtService;
      this.refreshTokenService := refreshTokenService;
    }

    /**
     * Log in: after the credentials are accepted, issue a refresh token and an
     * access token for the request's username. Refused credentials give 401;
     * any other failure, including the refused insert of a second refresh token
     * for the same account, gives 500.
     */
    method Login(request: AuthRequest, authentication: AuthenticationResult, tokenValue: string, now: Instant)
      returns (outcome: Outcome)
      requires Valid() && tokenValue !in db.tokens && |tokenValue| == Accounts.UUID_LENGTH
      modifies db
      ensures Valid() && db.users == old(db.users)
      ensures authentication == BadCredentials || authentication == Authenticated(false) ==>
                outcome == Unauthorized && db.tokens == old(db.tokens)
      ensures authentication == AuthenticationFailed ==>
                outcome == ServerError("") && db.tokens == old(db.tokens)
      ensures authentication == Authenticated(true) ==>
                if request.username in db.users && !old(db.HasTokenFor(db.users[request.username].userId)) then
                  && db.tokens == old(db.tokens)[tokenValue :=
                       Entities.RefreshToken(tokenValue, now + RefreshTokens.REFRESH_TOKEN_TTL_MS, db.users[request.username])]
                  && outcome == (if jwtService.SignKey().Ok?
                                 then Ok(jwtService.GenerateToken(request.username, now).value, tokenValue)
                                 else ServerError(""))
                else
                  outcome == ServerError("") && db.tokens == old(db.tokens)
    {
      match authentication
      case BadCredentials =>
        return Unauthorized;
      case AuthenticationFailed =>
        return ServerError("");
      case Authenticated(isAuthenticated) =>
        if !isAuthenticated {
          return Unauthorized;
        }
        var refreshToken := refreshTokenService.CreateRefreshToken(request.username, tokenValue, now);
        if refreshToken.Err? {
          return ServerError("");
        }
        var accessToken := jwtService.GenerateToken(request.username, now);
        if accessToken.Err? {
          return ServerError("");
        }
        outcome := Ok(accessToken.value, refreshToken.value.token);
    }

    /**
     * Refresh: a stored, unexpired refresh token buys a new access token for its
     * owner, and the same refresh value is handed back. An unknown value, an
     * expired token (which is deleted first) and a key failure are not caught.
     */
    method RefreshToken(requestToken: string, now: Instant) returns (outcome: Outcome)
      requires Valid()
      modifies db
      ensures Valid() && db.users == old(db.users)
      ensures requestToken !in old(db.tokens) ==>
                outcome == Raised(RefreshTokenNotValid) && db.tokens == old(db.tokens)
      ensures requestToken in old(db.tokens) && old(db.tokens[requestToken].expiryDate) < now ==>
                outcome == Raised(RefreshTokenExpired(requestToken))
                && db.tokens == old(db.tokens) - {requestToken}
      ensures requestToken in old(db.tokens) && now <= old(db.tokens[requestToken].expiryDate) ==>
                var owner := old(db.tokens[requestToken].userInfo.username);
                && db.tokens == old(db.tokens)
                && outcome == match jwtService.GenerateToken(owner, now)
                              case Ok(accessToken) => Ok(accessToken, requestToken)
                              case Err(e) => Raised(e)
    {
      var stored := refreshTokenService.FindByToken(requestToken);
      if stored.None? {
        return Raised(RefreshTokenNotValid);
      }
      var verified := refreshTokenService.VerifyExpiration(stored.value, now);
      if verified.Err? {
        return Raised(verified.error);
      }
      var userInfo := verified.value.userInfo;
      var newAccessToken := jwtService.GenerateToken(userInfo.username, now);
      if newAccessToken.Err? {
        return Raised(newAccessToken.error);
      }
      outcome := Ok(newAccessToken.value, requestToken);
    }
  }
}
