/**
 * RefreshTokenService: issues long-lived refresh tokens, looks them up by value,
 * and retires them once expired. Every token lives in the shared database, whose
 * invariant gives each account at most one token.
 */
module RefreshTokens {
  import opened Wrappers
  import opened Entities
  import opened Failures
  import opened Store

  /** Duration.ofDays(7), in milliseconds. */
  const REFRESH_TOKEN_TTL_MS := 7 * 24 * 60 * 60 * 1000

  class RefreshTokenService {
    const db: Database

    constructor (db: Database)
      ensures this.db == db
    {
      this.db := db;
    }

    /**
     * Issue a refresh token for `username`, worth `value` (a random UUID chosen
     * by the caller, distinct from every stored value), expiring seven days
     * after `now`. The account must exist; the insert is the only change, and
     * the table refuses it when the account already holds a token.
     */
    method CreateRefreshToken(username: string, value: string, now: Instant) returns (r: Result<RefreshToken, Failure>)
      requires db.Valid() && value !in db.tokens
      modifies db
      ensures db.Valid() && db.users == old(db.users)
      ensures username !in old(db.users) ==> r == Err(UsernameNotFound)
      ensures username in old(db.users) ==>
                (r.Ok? <==> !old(db.HasTokenFor(db.users[username].userId)) && |value| <= TOKEN_COLUMN_LENGTH)
      ensures username in old(db.users) && old(db.HasTokenFor(db.users[username].userId)) ==>
                r == Err(IntegrityViolation(UniqueTokenOwner))
      ensures r.Ok? ==> r.value == RefreshToken(value, now + REFRESH_TOKEN_TTL_MS, old(db.users)[username])
      ensures r.Ok? ==> db.tokens == old(db.tokens)[value := r.value] && db.HasTokenFor(r.value.userInfo.userId)
      ensures r.Err? ==> db.tokens == old(db.tokens)
    {
      var owner := db.FindByUsername(username);
      if owner.None? {
        return Err(UsernameNotFound);
      }
      var refreshToken := RefreshToken(value, now + REFRESH_TOKEN_TTL_MS, owner.value);
      r := db.SaveToken(refreshToken);
      if r.Ok? {
        assert db.tokens[value].userInfo.userId == owner.value.userId;
      }
    }

    /** Lookup by value; it changes nothing. */
    function FindByToken(value: string): (r: Option<RefreshToken>)
      reads db
      requires db.Valid()
      ensures r.Some? <==> value in db.tokens
      ensures r.Some? ==> r.value == db.tokens[value] && r.value.token == value
    {
      db.FindByToken(value)
    }

    /**
     * A token whose expiry is strictly before `now` is deleted and reported as
     * expired; any other token is returned as it is, with nothing changed.
     */
    method VerifyExpiration(token: RefreshToken, now: Instant) returns (r: Result<RefreshToken, Failure>)
      requires db.Valid()
      modifies db
      ensures db.Valid() && db.users == old(db.users)
      ensures token.expiryDate < now ==>
                r == Err(RefreshTokenExpired(token.token)) && db.tokens == old(db.tokens) - {token.token}
      ensures token.expiryDate < now ==> FindByToken(token.token).None?
      ensures now <= token.expiryDate ==> r == Ok(token) && db.tokens == old(db.tokens)
    {
      if token.expiryDate < now {
        db.DeleteToken(token);
        return Err(RefreshTokenExpired(token.token));
      }
      r := Ok(token);
    }
  }
}
