/**
 * JwtService: issuing and checking the signed access tokens (JSON Web Tokens,
 * RFC 7519, signed with HMAC SHA-256). The signing and parsing library is a pair
 * of function values held in a `Codec`; the only facts used about it are the
 * laws in `Lawful`: parsing a token signed under a key with that key gives back
 * its claims while they are unexpired, and anything that parses was signed under
 * that key and is unexpired.
 */
module Jwt {
  import opened Wrappers
  import opened Entities
  import opened Failures
  import Base64
  import Details

  type Key = seq<Base64.Byte>
  type Token = string

  /** The registered claims the service reads and writes, and any others. */
  datatype Claims = Claims(
    subject: Option<string>,
    issuedAt: Option<Instant>,
    expiration: Option<Instant>,
    extra: map<string, string>)

  /** The parser refuses a token whose expiry is strictly before the current time. */
  predicate ExpiredAt(c: Claims, now: Instant) {
    c.expiration.Some? && c.expiration.value < now
  }

  /** Compact serialisation with a signature, and its checking parser. */
  datatype Codec = Codec(sign: (Key, Claims) -> Token, parse: (Key, Token, Instant) -> Option<Claims>)

  ghost predicate Lawful(codec: Codec) {
    && (forall k, c, now :: codec.parse(k, codec.sign(k, c), now) == if ExpiredAt(c, now) then None else Some(c))
    && (forall k, t, now | codec.parse(k, t, now).Some? ::
          t == codec.sign(k, codec.parse(k, t, now).value) && !ExpiredAt(codec.parse(k, t, now).value, now))
  }

  /**
   * The service: the configured secret in base 64 (as the constructor stores
   * it), the access-token lifetime, and the signing library.
   */
  datatype JwtService = JwtService(secretKey: string, jwtExpirationMs: int, codec: Codec)
  {
    /** The HMAC key: the stored secret decoded from base 64. */
    function SignKey(): (r: Result<Key, Failure>)
      ensures r.Ok? <==> Base64.Decode(secretKey).Ok?
      ensures r.Err? ==> r.error == KeyDecoding
    {
      match Base64.Decode(secretKey)
      case Ok(bytes) => Ok(bytes)
      case Err(_) => Err(KeyDecoding)
    }

    /** Parse and check a token; every failure, including a bad key, is "no claims". */
    function ExtractAllClaims(token: Token, now: Instant): (r: Option<Claims>)
      ensures SignKey().Err? ==> r.None?
      ensures Lawful(codec) && r.Some? ==> token == codec.sign(SignKey().value, r.value) && !ExpiredAt(r.value, now)
    {
      match SignKey()
      case Err(_) => None
      case Ok(key) => codec.parse(key, token, now)
    }

    /** Absent claims propagate as absent; otherwise the resolver's value. */
    function ExtractClaim<T>(token: Token, now: Instant, resolver: Claims -> Option<T>): (r: Option<T>)
      ensures ExtractAllClaims(token, now).None? ==> r.None?
      ensures ExtractAllClaims(token, now).Some? ==> r == resolver(ExtractAllClaims(token, now).value)
    {
      match ExtractAllClaims(token, now)
      case None => None
      case Some(claims) => resolver(claims)
    }

    function ExtractUsername(token: Token, now: Instant): (r: Option<string>)
      ensures r.Some? <==> ExtractAllClaims(token, now).Some? && ExtractAllClaims(token, now).value.subject.Some?
      ensures r.Some? ==> r.value == ExtractAllClaims(token, now).value.subject.value
    {
      ExtractClaim(token, now, (c: Claims) => c.subject)
    }

    function ExtractExpiration(token: Token, now: Instant): (r: Option<Instant>)
      ensures r.Some? <==> ExtractAllClaims(token, now).Some? && ExtractAllClaims(token, now).value.expiration.Some?
      ensures r.Some? ==> r.value == ExtractAllClaims(token, now).value.expiration.value
    {
      ExtractClaim(token, now, (c: Claims) => c.expiration)
    }

    /** A missing expiry counts as expired; otherwise strictly-before. */
    function IsTokenExpired(token: Token, now: Instant): (expired: bool)
      ensures ExtractExpiration(token, now).None? ==> expired
      ensures ExtractExpiration(token, now).Some? ==> (expired <==> ExtractExpiration(token, now).value < now)
    {
      match ExtractExpiration(token, now)
      case None => true
      case Some(expiration) => expiration < now
    }

    function ValidateToken(token: Token, userDetails: Details.CustomUserDetails, now: Instant): (valid: bool)
      ensures ExtractUsername(token, now).None? ==> !valid
      ensures valid <==> ExtractUsername(token, now) == Some(userDetails.username) && !IsTokenExpired(token, now)
    {
      match ExtractUsername(token, now)
      case None => false
      case Some(username) => username == userDetails.username && !IsTokenExpired(token, now)
    }

    /** The claims a token issued at `now` carries. */
    function IssuedClaims(extraClaims: map<string, string>, username: string, now: Instant): Claims {
      Claims(Some(username), Some(now), Some(now + jwtExpirationMs), extraClaims)
    }

    function CreateToken(extraClaims: map<string, string>, username: string, now: Instant): (r: Result<Token, Failure>)
      ensures r.Ok? <==> SignKey().Ok?
      ensures r.Ok? ==> r.value == codec.sign(SignKey().value, IssuedClaims(extraClaims, username, now))
    {
      match SignKey()
      case Err(e) => Err(e)
      case Ok(key) => Ok(codec.sign(key, IssuedClaims(extraClaims, username, now)))
    }

    /** A token naming `username`, issued at `now`, expiring after the configured lifetime, with no other claims. */
    function GenerateToken(username: string, now: Instant): (r: Result<Token, Failure>)
      ensures r.Err? <==> SignKey().Err?
      ensures r.Err? ==> r.error == SignKey().error
      ensures r.Ok? ==> r.value == codec.sign(SignKey().value, Claims(Some(username), Some(now), Some(now + jwtExpirationMs), map[]))
    {
      CreateToken(map[], username, now)
    }
  }

  /** The constructor stores the secret's base 64 encoding. */
  function NewJwtService(secret: seq<Base64.Byte>, jwtExpirationMs: int, codec: Codec): (svc: JwtService)
    ensures svc.jwtExpirationMs == jwtExpirationMs && svc.codec == codec
    ensures |svc.secretKey| % 4 == 0
  {
    JwtService(Base64.Encode(secret), jwtExpirationMs, codec)
  }

  // ---------------------------------------------------------------------------
  // Properties.

  /** The signing key is exactly the configured secret's bytes: decode undoes encode. */
  lemma SignKeyIsSecret(secret: seq<Base64.Byte>, jwtExpirationMs: int, codec: Codec)
    ensures NewJwtService(secret, jwtExpirationMs, codec).SignKey() == Ok(secret)
  {
    Base64.DecodeEncode(secret);
  }

  /**
   * A generated token read back at any time up to its expiry carries no extra
   * claims, the username as subject, issued-at `issued` and expiry `issued + ttl`.
   */
  lemma GeneratedTokenClaims(svc: JwtService, username: string, issued: Instant, now: Instant)
    requires Lawful(svc.codec) && svc.SignKey().Ok?
    requires now <= issued + svc.jwtExpirationMs
    ensures svc.GenerateToken(username, issued).Ok?
    ensures svc.ExtractAllClaims(svc.GenerateToken(username, issued).value, now)
            == Some(Claims(Some(username), Some(issued), Some(issued + svc.jwtExpirationMs), map[]))
  {
    var claims := svc.IssuedClaims(map[], username, issued);
    assert !ExpiredAt(claims, now);
  }

  /**
   * For a generated token, validation succeeds exactly when the principal has the
   * token's username and the check is made no later than the expiry.
   */
  lemma ValidateGeneratedToken(svc: JwtService, username: string, issued: Instant,
                               userDetails: Details.CustomUserDetails, now: Instant)
    requires Lawful(svc.codec) && svc.SignKey().Ok?
    ensures svc.GenerateToken(username, issued).Ok?
    ensures svc.ValidateToken(svc.GenerateToken(username, issued).value, userDetails, now)
            <==> userDetails.username == username && now <= issued + svc.jwtExpirationMs
  {
    var token := svc.GenerateToken(username, issued).value;
    var claims := svc.IssuedClaims(map[], username, issued);
    assert svc.ExtractAllClaims(token, now) == if ExpiredAt(claims, now) then None else Some(claims);
  }

  /** A token that validates was signed under the service key for that user and is unexpired. */
  lemma ValidTokenWasIssued(svc: JwtService, token: Token, userDetails: Details.CustomUserDetails, now: Instant)
    requires Lawful(svc.codec)
    requires svc.ValidateToken(token, userDetails, now)
    ensures svc.SignKey().Ok?
    ensures exists c :: token == svc.codec.sign(svc.SignKey().value, c)
                        && c.subject == Some(userDetails.username)
                        && c.expiration.Some? && now <= c.expiration.value
  {
    var c := svc.ExtractAllClaims(token, now).value;
    assert token == svc.codec.sign(svc.SignKey().value, c);
  }

  /** A token not signed under the service key (tampered or forged) yields no claims. */
  lemma UnsignedTokenHasNoClaims(svc: JwtService, token: Token, now: Instant)
    requires Lawful(svc.codec) && svc.SignKey().Ok?
    requires forall c :: token != svc.codec.sign(svc.SignKey().value, c)
    ensures svc.ExtractAllClaims(token, now).None?
    ensures svc.ExtractUsername(token, now).None? && svc.ExtractExpiration(token, now).None?
    ensures svc.IsTokenExpired(token, now)
  {
  }

  /**
   * Because the parser already refuses expired tokens, the service's own expiry
   * check only fires for a token that does not parse or carries no expiry.
   */
  lemma ExpiryCheckAfterParse(svc: JwtService, token: Token, now: Instant)
    requires Lawful(svc.codec)
    ensures svc.IsTokenExpired(token, now)
            <==> svc.ExtractAllClaims(token, now).None? || svc.ExtractAllClaims(token, now).value.expiration.None?
  {
  }
}
