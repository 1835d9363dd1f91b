/**
 * UserDetailsServiceImpl: loading a principal by username, and signing up a new
 * account (validate, check for an existing account, hash the password, insert).
 *
 * The repository's `findByUsername` is read as returning an optional account,
 * which is how every caller uses it. Under that reading the existence check
 * raises "not found" for a new username, so `SignUp` as written never reaches
 * its insert; `SignUpCorrected` is the sequence the method evidently intends.
 */
module Accounts {
  import opened Wrappers
  import opened Entities
  import opened Failures
  import opened Store
  import Validation
  import Details

  /** The sign-up request body (UserInfoDto): a username and a password, either possibly null. */
  class UserInfoDto {
    var username: Option<string>
    var password: Option<string>

    constructor (username: Option<string>, password: Option<string>)
      ensures this.username == username && this.password == password
    {
      this.username := username;
      this.password := password;
    }
  }

  /** What the validator sees of a possibly-null request. */
  function Input(dto: UserInfoDto?): (i: Option<Validation.SignupInput>)
    reads dto
    ensures i.None? <==> dto == null
    ensures i.Some? ==> i.value.username == dto.username && i.value.password == dto.password
  {
    if dto == null then None else Some(Validation.SignupInput(dto.username, dto.password))
  }

  /** A string form of a random UUID has 36 characters. */
  const UUID_LENGTH := 36

  class UserDetailsServiceImpl {
    const db: Database

    constructor (db: Database)
      ensures this.db == db
    {
      this.db := db;
    }

    /** The principal of the stored account with this username, or not-found; nothing is written. */
    method LoadUserByUsername(username: string) returns (r: Result<Details.CustomUserDetails, Failure>)
      requires db.Valid()
      ensures username !in db.users ==> r == Err(UsernameNotFound)
      ensures username in db.users ==> r.Ok? && Details.DetailsOf(db.users[username], r.value)
    {
      var user := db.FindByUsername(username);
      if user.None? {
        return Err(UsernameNotFound);
      }
      var details := Details.NewCustomUserDetails(user.value);
      r := Ok(details);
    }

    /**
     * checkIfUserAlreadyExist: the account wrapped in an optional, or not-found
     * raised by the lookup. It never reports an absent account as such.
     */
    function CheckIfUserAlreadyExist(username: string): (r: Result<Option<UserInfo>, Failure>)
      reads db
      requires db.Valid()
      ensures r.Err? <==> username !in db.users
      ensures r.Err? ==> r.error == UsernameNotFound
      ensures r.Ok? ==> r.value == Some(db.users[username])
    {
      match db.FindByUsername(username)
      case None => Err(UsernameNotFound)
      case Some(user) => Ok(Some(user))
    }

    /**
     * signUp as written. A rejected request raises the validation failure; an
     * existing username gives false; a new username raises not-found from the
     * existence check, so the hashing and the insert are never reached and the
     * method never answers true. Nothing is written.
     */
    method SignUp(dto: UserInfoDto?) returns (r: Result<bool, Failure>)
      requires db.Valid()
      ensures Validation.ValidateUserAttributes(Input(dto)).Err? ==>
                r == Err(UserValidation(Validation.ValidateUserAttributes(Input(dto)).error))
      ensures Validation.ValidateUserAttributes(Input(dto)).Ok? ==>
                dto != null && dto.username.Some? &&
                r == (if dto.username.value in db.users then Ok(false) else Err(UsernameNotFound))
      ensures r != Ok(true)
    {
      var checked := Validation.ValidateUserAttributes(Input(dto));
      if checked.Err? {
        return Err(UserValidation(checked.error));
      }
      var existing := CheckIfUserAlreadyExist(dto.username.value);
      if existing.Err? {
        return Err(existing.error);
      }
      assert existing.value.Some?;
      r := Ok(false);
    }

    /**
     * signUp with the existence check reporting an absent account as absent.
     * A new account gets the fresh id, the request's username as given (not
     * trimmed), the hash of the request's password and no roles; the request's
     * password field is overwritten with the hash before the insert, which the
     * table may still refuse.
     */
    method SignUpCorrected(dto: UserInfoDto?, userId: string, encode: string -> string) returns (r: Result<bool, Failure>)
      requires db.Valid() && db.FreshUserId(userId) && |userId| == UUID_LENGTH
      modifies db, dto
      ensures db.Valid() && db.tokens == old(db.tokens)
      ensures var checked := Validation.ValidateUserAttributes(old(Input(dto)));
              checked.Err? ==>
                r == Err(UserValidation(checked.error)) && db.users == old(db.users) && (dto != null ==> unchanged(dto))
      ensures Validation.ValidateUserAttributes(old(Input(dto))).Ok? ==> dto != null && old(dto.username).Some?
      ensures Validation.ValidateUserAttributes(old(Input(dto))).Ok? && old(dto.username.value) in old(db.users) ==>
                r == Ok(false) && db.users == old(db.users) && unchanged(dto)
      ensures Validation.ValidateUserAttributes(old(Input(dto))).Ok? && old(dto.username.value) !in old(db.users) ==>
                var name := old(dto.username.value);
                var hash := encode(old(dto.password.value));
                && dto.username == old(dto.username) && dto.password == Some(hash)
                && (|name| <= USERNAME_COLUMN_LENGTH ==>
                      r == Ok(true) && db.users == old(db.users)[name := UserInfo(userId, name, hash, {})])
                && (|name| > USERNAME_COLUMN_LENGTH ==>
                      r == Err(IntegrityViolation(UsernameLength)) && db.users == old(db.users))
    {
      var checked := Validation.ValidateUserAttributes(Input(dto));
      if checked.Err? {
        return Err(UserValidation(checked.error));
      }
      if dto.username.value in db.users {
        return Ok(false);
      }
      r := Register(dto, userId, encode);
    }

    /**
     * The second half of sign-up, for a request that passed validation and
     * names no stored account: hash the password into the request, build the
     * account and insert it. Only the username column's length can refuse it.
     */
    method Register(dto: UserInfoDto, userId: string, encode: string -> string) returns (r: Result<bool, Failure>)
      requires db.Valid() && db.FreshUserId(userId) && |userId| == UUID_LENGTH
      requires dto.username.Some? && dto.password.Some? && dto.username.value !in db.users
      modifies db, dto
      ensures db.Valid() && db.tokens == old(db.tokens)
      ensures dto.username == old(dto.username) && dto.password == Some(encode(old(dto.password.value)))
      ensures |dto.username.value| <= USERNAME_COLUMN_LENGTH ==>
                r == Ok(true)
                && db.users == old(db.users)[dto.username.value := UserInfo(userId, dto.username.value, dto.password.value, {})]
      ensures |dto.username.value| > USERNAME_COLUMN_LENGTH ==>
                r == Err(IntegrityViolation(UsernameLength)) && db.users == old(db.users)
    {
      dto.password := Some(encode(dto.password.value));
      var userInfo := UserInfo(userId, dto.username.value, dto.password.value, {});
      var saved := db.SaveUser(userInfo);
      if saved.Err? {
        return Err(saved.error);
      }
      r := Ok(true);
    }
  }

  // ---------------------------------------------------------------------------
  // Properties.

  /**
   * Validation looks at the trimmed username, but the account stores the
   * username as given: "alice1" followed by 25 or more blanks is accepted,
   * yet longer than the 30-character column.
   */
  lemma PaddedUsernameAcceptedButTooLong(username: string, pad: string, password: string)
    requires username == "alice1" + pad && |pad| >= 25 && forall k :: 0 <= k < |pad| ==> pad[k] == ' '
    requires password == "Str0ng!Pass"
    ensures Validation.ValidateUserAttributes(Some(Validation.SignupInput(Some(username), Some(password)))) == Ok(())
    ensures |username| > USERNAME_COLUMN_LENGTH
  {
    Validation.TrimIgnoresTrailingPadding("alice1", pad);
    Validation.ChainOnInput(username, password);
    Validation.ChainOnInput("alice1", password);
    Validation.StrongCredentialsAccepted("alice1", password);
  }
}
