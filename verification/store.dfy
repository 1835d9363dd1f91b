/**
 * The two repositories (UserRepository, RefreshTokenRepository) as one object
 * holding accounts by username and refresh tokens by value. Its invariant is the
 * set of table constraints: unique usernames and user ids, column lengths, and
 * one token per owning account, each owner an existing account. An insert that
 * would break a constraint is rejected and leaves the tables as they were.
 */
module Store {
  import opened Wrappers
  import opened Entities
  import opened Failures

  /** `users` is keyed by username; ids are unique; columns fit. */
  ghost predicate UsersWellFormed(users: map<string, UserInfo>) {
    && (forall name | name in users :: users[name].username == name && UserColumnsFit(users[name]))
    && (forall n1, n2 | n1 in users && n2 in users && users[n1].userId == users[n2].userId :: n1 == n2)
  }

  /** `user` is the stored account of its username. */
  predicate IsStoredUser(users: map<string, UserInfo>, user: UserInfo) {
    user.username in users && users[user.username] == user
  }

  /**
   * `tokens` is keyed by token value; every token fits its column and belongs to
   * a stored account; no two tokens share an owner (`user_id` is unique in `tokens`).
   */
  ghost predicate TokensWellFormed(users: map<string, UserInfo>, tokens: map<string, RefreshToken>) {
    && (forall v | v in tokens ::
          tokens[v].token == v && TokenColumnsFit(tokens[v]) && IsStoredUser(users, tokens[v].userInfo))
    && (forall v1, v2 | v1 in tokens && v2 in tokens && tokens[v1].userInfo.userId == tokens[v2].userInfo.userId
          :: v1 == v2)
  }

  class Database {
    var users: map<string, UserInfo>
    var tokens: map<string, RefreshToken>

    ghost predicate Valid()
      reads this
    {
      UsersWellFormed(users) && TokensWellFormed(users, tokens)
    }

    constructor ()
      ensures Valid() && users == map[] && tokens == map[]
    {
      users, tokens := map[], map[];
    }

    /** UserRepository.findByUsername, read as returning an Optional. */
    function FindByUsername(username: string): (r: Option<UserInfo>)
      reads this
      requires Valid()
      ensures r.Some? <==> username in users
      ensures r.Some? ==> r.value.username == username && r.value == users[username]
    {
      if username in users then Some(users[username]) else None
    }

    /** No stored account has this id. */
    predicate FreshUserId(userId: string)
      reads this
    {
      forall name | name in users :: users[name].userId != userId
    }

    /** The constraint an insert of `user` would break, if any. */
    function UserRejection(user: UserInfo): Option<Constraint>
      reads this
    {
      if user.username in users then Some(UniqueUsername)
      else if |user.username| > USERNAME_COLUMN_LENGTH then Some(UsernameLength)
      else if |user.userId| > USER_ID_MAX_LENGTH then Some(UserIdLength)
      else None
    }

    /**
     * UserRepository.save of a new account. The id is a freshly generated UUID,
     * so it is assumed to collide with no stored id.
     */
    method SaveUser(user: UserInfo) returns (r: Result<UserInfo, Failure>)
      requires Valid() && FreshUserId(user.userId)
      modifies this
      ensures Valid() && tokens == old(tokens)
      ensures old(UserRejection(user)).None? ==> r == Ok(user) && users == old(users)[user.username := user]
      ensures old(UserRejection(user)).Some? ==>
                r == Err(IntegrityViolation(old(UserRejection(user)).value)) && users == old(users)
    {
      var rejection := UserRejection(user);
      if rejection.Some? {
        return Err(IntegrityViolation(rejection.value));
      }
      users := users[user.username := user];
      r := Ok(user);
    }

    /** RefreshTokenRepository.findByToken. */
    function FindByToken(value: string): (r: Option<RefreshToken>)
      reads this
      requires Valid()
      ensures r.Some? <==> value in tokens
      ensures r.Some? ==> r.value.token == value && IsStoredUser(users, r.value.userInfo)
    {
      if value in tokens then Some(tokens[value]) else None
    }

    /** Some stored token belongs to the account with this id. */
    predicate HasTokenFor(userId: string)
      reads this
    {
      exists v | v in tokens :: tokens[v].userInfo.userId == userId
    }

    /** The constraint an insert of `t` would break, if any. */
    function TokenRejection(t: RefreshToken): Option<Constraint>
      reads this
    {
      if !IsStoredUser(users, t.userInfo) then Some(TokenOwnerExists)
      else if HasTokenFor(t.userInfo.userId) then Some(UniqueTokenOwner)
      else if |t.token| > TOKEN_COLUMN_LENGTH then Some(TokenLength)
      else None
    }

    /**
     * RefreshTokenRepository.save of a new token. The `token` column is not
     * unique, so a value already stored is excluded by assumption on the caller's
     * random value rather than by the table.
     */
    method SaveToken(t: RefreshToken) returns (r: Result<RefreshToken, Failure>)
      requires Valid() && t.token !in tokens
      modifies this
      ensures Valid() && users == old(users)
      ensures old(TokenRejection(t)).None? ==> r == Ok(t) && tokens == old(tokens)[t.token := t]
      ensures old(TokenRejection(t)).Some? ==>
                r == Err(IntegrityViolation(old(TokenRejection(t)).value)) && tokens == old(tokens)
    {
      var rejection := TokenRejection(t);
      if rejection.Some? {
        return Err(IntegrityViolation(rejection.value));
      }
      tokens := tokens[t.token := t];
      r := Ok(t);
    }

    /** RefreshTokenRepository.delete. */
    method DeleteToken(t: RefreshToken)
      requires Valid()
      modifies this
      ensures Valid() && users == old(users)
      ensures tokens == old(tokens) - {t.token}
    {
      tokens := tokens - {t.token};
    }
  }
}
