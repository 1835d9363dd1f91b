/**
 * JwtAuthFilter: for each request, take the access token from a
 * "Bearer " Authorization header, and when the token names a user and the shared
 * security context holds no authentication yet, load that user and, if the token
 * validates for them, record them as the authenticated principal. The rest of the
 * filter chain then runs.
 */
module Filter {
  import opened Wrappers
  import opened Entities
  import opened Failures
  import Jwt
  import Details
  import Accounts

  /** The parts of an HTTP request the filter reads. */
  datatype Request = Request(authorization: Option<string>, remoteAddress: string, sessionId: Option<string>)

  /** WebAuthenticationDetails: where the request came from. */
  datatype WebAuthenticationDetails = WebAuthenticationDetails(remoteAddress: string, sessionId: Option<string>)

  function BuildDetails(request: Request): WebAuthenticationDetails {
    WebAuthenticationDetails(request.remoteAddress, request.sessionId)
  }

  /** A UsernamePasswordAuthenticationToken after authentication. */
  datatype Authentication = Authentication(
    principal: Details.CustomUserDetails,
    credentials: Option<string>,
    authorities: seq<string>,
    details: WebAuthenticationDetails)

  /** The security context of the current request. */
  class SecurityContext {
    var authentication: Option<Authentication>

    constructor ()
      ensures authentication.None?
    {
      authentication := None;
    }
  }

  const BEARER_PREFIX := "Bearer "

  /** The token of a header that starts, case-sensitively, with "Bearer ". */
  function BearerToken(header: Option<string>): (token: Option<string>)
    ensures token.Some? <==> header.Some? && BEARER_PREFIX <= header.value
    ensures token.Some? ==> header.value == BEARER_PREFIX + token.value
  {
    match header
    case Some(h) =>
      if BEARER_PREFIX <= h then
        assert h == BEARER_PREFIX + h[|BEARER_PREFIX|..];
        Some(h[|BEARER_PREFIX|..])
      else None
    case None => None
  }

  /** "Bearer " followed by a token gives back that token. */
  lemma BearerTokenRoundTrip(token: string)
    ensures BearerToken(Some(BEARER_PREFIX + token)) == Some(token)
  {
    assert BEARER_PREFIX <= BEARER_PREFIX + token;
    assert (BEARER_PREFIX + token)[|BEARER_PREFIX|..] == token;
  }

  /** Another scheme, or the scheme in another case, gives no token. */
  lemma OtherSchemeHasNoToken(token: string)
    ensures BearerToken(Some("bearer " + token)).None?
    ensures BearerToken(Some("Basic " + token)).None?
  {
    assert ("bearer " + token)[0] != BEARER_PREFIX[0];
    assert ("Basic " + token)[1] != BEARER_PREFIX[1];
  }

  /** How a filter invocation ends: the chain runs, or an exception escapes. */
  datatype FilterOutcome = ChainContinued | Raised(failure: Failure)

  class JwtAuthFilter {
    const jwtService: Jwt.JwtService
    const userDetailsService: Accounts.UserDetailsServiceImpl
    const context: SecurityContext

    constructor (jwtService: Jwt.JwtService, userDetailsService: Accounts.UserDetailsServiceImpl, context: SecurityContext)
      ensures this.jwtService == jwtService && this.userDetailsService == userDetailsService && this.context == context
    {
      this.jwtService := jwtService;
      this.userDetailsService := userDetailsService;
      this.context := context;
    }

    /** The username the request's token names, if it carries a token that parses with a subject. */
    function Subject(request: Request, now: Instant): Option<string> {
      match BearerToken(request.authorization)
      case None => None
      case Some(token) => jwtService.ExtractUsername(token, now)
    }

    method DoFilterInternal(request: Request, now: Instant) returns (outcome: FilterOutcome)
      requires userDetailsService.db.Valid()
      modifies context
      ensures Subject(request, now).None? || old(context.authentication).Some? ==>
                outcome == ChainContinued && unchanged(context)
      ensures Subject(request, now).Some? && old(context.authentication).None? ==>
                var username := Subject(request, now).value;
                var token := BearerToken(request.authorization).value;
                && (username !in userDetailsService.db.users ==>
                      outcome == Raised(UsernameNotFound) && unchanged(context))
                && (username in userDetailsService.db.users && jwtService.IsTokenExpired(token, now) ==>
                      outcome == ChainContinued && unchanged(context))
                && (username in userDetailsService.db.users && !jwtService.IsTokenExpired(token, now) ==>
                      && outcome == ChainContinued
                      && context.authentication.Some?
                      && Details.DetailsOf(userDetailsService.db.users[username], context.authentication.value.principal)
                      && context.authentication.value.credentials.None?
                      && context.authentication.value.authorities == context.authentication.value.principal.authorities
                      && context.authentication.value.details == BuildDetails(request))
    {
      var token: Option<string> := None;
      var username: Option<string> := None;
      var bearer := BearerToken(request.authorization);
      if bearer.Some? {
        token := bearer;
        username := jwtService.ExtractUsername(token.value, now);
      }
      if username.Some? && context.authentication.None? {
        var userDetails := userDetailsService.LoadUserByUsername(username.value);
        if userDetails.Err? {
          return Raised(userDetails.error);
        }
        if jwtService.ValidateToken(token.value, userDetails.value, now) {
          var authToken := Authentication(userDetails.value, None, userDetails.value.authorities, BuildDetails(request));
          context.authentication := Some(authToken);
        }
      }
      outcome := ChainContinued;
    }
  }
}
