/**
 * The sign-up input validator (ValidationUtil): an ordered chain of checks on the
 * trimmed username and password, where the first failing check decides the error.
 * The regular expressions of the source are written out as predicates over the
 * ASCII character classes they use.
 */
module Validation {
  import opened Wrappers

  /** The two fields of the sign-up request the validator reads; either may be null. */
  datatype SignupInput = SignupInput(username: Option<string>, password: Option<string>)

  /** One constructor per rule of the chain, in the order the rules run. */
  datatype ValidationError =
    | NullInput
    | UsernameEmpty
    | UsernameLength
    | InvalidEmail
    | InvalidUsernameChars
    | BlacklistedUsername
    | PasswordEmpty
    | PasswordTooShort
    | PasswordTooLong
    | WeakPassword
    | PasswordContainsUsername
  {
    predicate IsUsernameRule() {
      UsernameEmpty? || UsernameLength? || InvalidEmail? || InvalidUsernameChars? || BlacklistedUsername?
    }

    predicate IsPasswordRule() {
      PasswordEmpty? || PasswordTooShort? || PasswordTooLong? || WeakPassword? || PasswordContainsUsername?
    }
  }

  const BLACKLISTED_USERNAMES: seq<string> := ["admin", "user", "system", "root", "guest", "superuser"]
  const USERNAME_MIN_LENGTH := 3
  const USERNAME_MAX_LENGTH := 30
  const PASSWORD_MIN_LENGTH := 8
  const PASSWORD_MAX_LENGTH := 128

  // ---------------------------------------------------------------------------
  // Trimming: Java's String.trim drops every leading and trailing character
  // whose code is at most U+0020.

  /** `sub` is the slice of `s` that starts at offset `i`. */
  predicate OccursAt(s: string, sub: string, i: int) {
    0 <= i && i + |sub| <= |s| && s[i..i + |sub|] == sub
  }

  predicate IsTrimmable(c: char) {
    c <= ' '
  }

  function TrimStart(s: string): (t: string)
    ensures |t| <= |s| && t == s[|s| - |t|..]
    ensures forall i :: 0 <= i < |s| - |t| ==> IsTrimmable(s[i])
    ensures t == [] || !IsTrimmable(t[0])
  {
    if s != [] && IsTrimmable(s[0]) then TrimStart(s[1..]) else s
  }

  function TrimEnd(s: string): (t: string)
    ensures |t| <= |s| && t == s[..|t|]
    ensures forall i :: |t| <= i < |s| ==> IsTrimmable(s[i])
    ensures t == [] || !IsTrimmable(t[|t| - 1])
  {
    if s != [] && IsTrimmable(s[|s| - 1]) then TrimEnd(s[..|s| - 1]) else s
  }

  lemma PrefixOfSuffix(s: string, a: int, n: int)
    requires 0 <= a <= |s| && 0 <= n <= |s| - a
    ensures s[a..][..n] == s[a..a + n]
  {
  }

  /** `t` is the slice of `s` at offset `i`, and every character of `s` around it is trimmable. */
  predicate TrimmedAt(s: string, t: string, i: int) {
    && OccursAt(s, t, i)
    && (forall k :: 0 <= k < i ==> IsTrimmable(s[k]))
    && (forall k :: i + |t| <= k < |s| ==> IsTrimmable(s[k]))
  }

  lemma TrimStartThenEnd(s: string)
    ensures TrimmedAt(s, TrimEnd(TrimStart(s)), |s| - |TrimStart(s)|)
  {
    var head := TrimStart(s);
    var t := TrimEnd(head);
    var i := |s| - |head|;
    assert head == s[i..];
    assert t == head[..|t|];
    PrefixOfSuffix(s, i, |t|);
    assert OccursAt(s, t, i);
    assert forall k :: 0 <= k < i ==> IsTrimmable(s[k]);
    forall k | i + |t| <= k < |s|
      ensures IsTrimmable(s[k])
    {
      assert s[k] == head[k - i];
    }
  }

  /**
   * The result is the slice of `s` between its trimmable prefix and suffix: only
   * characters at most U+0020 are dropped, and only from the two ends.
   */
  function Trim(s: string): (t: string)
    ensures exists i :: TrimmedAt(s, t, i)
    ensures t == [] || (!IsTrimmable(t[0]) && !IsTrimmable(t[|t| - 1]))
    ensures t == [] <==> forall i :: 0 <= i < |s| ==> IsTrimmable(s[i])
  {
    TrimStartThenEnd(s);
    TrimEnd(TrimStart(s))
  }

  function SafeTrim(value: Option<string>): (r: Option<string>)
    ensures r.Some? <==> value.Some?
    ensures r.Some? ==> r.value == Trim(value.value)
  {
    match value
    case None => None
    case Some(v) => Some(Trim(v))
  }

  // ---------------------------------------------------------------------------
  // Character classes used by the three patterns (ASCII only, as in Java's
  // default, non-Unicode pattern mode).

  predicate IsAsciiUpper(c: char) { 'A' <= c <= 'Z' }
  predicate IsAsciiLower(c: char) { 'a' <= c <= 'z' }
  predicate IsAsciiDigit(c: char) { '0' <= c <= '9' }
  predicate IsAsciiLetter(c: char) { IsAsciiUpper(c) || IsAsciiLower(c) }

  /** `\w`: letters, digits and the underscore. */
  predicate IsWordChar(c: char) { IsAsciiLetter(c) || IsAsciiDigit(c) || c == '_' }

  /** `[\w.-]` */
  predicate IsUsernameChar(c: char) { IsWordChar(c) || c == '.' || c == '-' }

  /** `[A-Za-z0-9._%+-]` */
  predicate IsEmailLocalChar(c: char) {
    IsAsciiLetter(c) || IsAsciiDigit(c) || c == '.' || c == '_' || c == '%' || c == '+' || c == '-'
  }

  /** `[A-Za-z0-9.-]` */
  predicate IsEmailDomainChar(c: char) { IsAsciiLetter(c) || IsAsciiDigit(c) || c == '.' || c == '-' }

  /** `\p{Punct}`: the 32 printable ASCII characters that are neither letters, digits nor space. */
  predicate IsPunct(c: char) {
    ('!' <= c <= '/') || (':' <= c <= '@') || ('[' <= c <= '`') || ('{' <= c <= '~')
  }

  /** The characters `.` refuses to match outside DOTALL mode. */
  predicate IsLineTerminator(c: char) {
    c == '\n' || c == '\r' || c == '\U{85}' || c == '\U{2028}' || c == '\U{2029}'
  }

  // ---------------------------------------------------------------------------
  // The patterns, matched against the whole string.

  /** `^[A-Za-z0-9._%+-]+@[A-Za-z0-9.-]+\.[A-Za-z]{2,6}$`, by its split points. */
  predicate MatchesEmail(s: string) {
    exists at, dot | 0 < at < dot < |s| ::
      && s[at] == '@' && s[dot] == '.'
      && at + 1 < dot
      && 2 <= |s| - dot - 1 <= 6
      && (forall k | 0 <= k < at :: IsEmailLocalChar(s[k]))
      && (forall k | at < k < dot :: IsEmailDomainChar(s[k]))
      && (forall k | dot < k < |s| :: IsAsciiLetter(s[k]))
  }

  /** `^[\w.-]+$` */
  predicate MatchesUsernamePattern(s: string) {
    |s| > 0 && forall k | 0 <= k < |s| :: IsUsernameChar(s[k])
  }

  /**
   * `^(?=.*[0-9])(?=.*[a-z])(?=.*[A-Z])(?=.*[\p{Punct}]).+$`: since `.+` has to
   * cover the whole string and `.` never matches a line terminator, the string is
   * non-empty, free of line terminators and holds one character of each class.
   */
  predicate MatchesStrongPassword(s: string) {
    && |s| > 0
    && (forall k | 0 <= k < |s| :: !IsLineTerminator(s[k]))
    && (exists k | 0 <= k < |s| :: IsAsciiDigit(s[k]))
    && (exists k | 0 <= k < |s| :: IsAsciiLower(s[k]))
    && (exists k | 0 <= k < |s| :: IsAsciiUpper(s[k]))
    && (exists k | 0 <= k < |s| :: IsPunct(s[k]))
  }

  // ---------------------------------------------------------------------------
  // Case folding (toLowerCase(Locale.ROOT), restricted to ASCII) and substring search.

  function LowerChar(c: char): (d: char)
    ensures IsAsciiUpper(c) ==> d as int == c as int + 32
    ensures !IsAsciiUpper(c) ==> d == c
  {
    if IsAsciiUpper(c) then (c as int + 32) as char else c
  }

  function ToLower(s: string): (t: string)
    ensures |t| == |s| && forall k :: 0 <= k < |s| ==> t[k] == LowerChar(s[k])
  {
    seq(|s|, k requires 0 <= k < |s| => LowerChar(s[k]))
  }

  /** String.contains: `sub` occurs in `s` at some offset. */
  predicate Contains(s: string, sub: string) {
    exists i | 0 <= i <= |s| - |sub| :: OccursAt(s, sub, i)
  }

  // ---------------------------------------------------------------------------
  // The declarative rules: what an accepted input satisfies, in no particular order.

  predicate UsernameAcceptable(u: string) {
    && USERNAME_MIN_LENGTH <= |u| <= USERNAME_MAX_LENGTH
    && if '@' in u then MatchesEmail(u)
       else MatchesUsernamePattern(u) && ToLower(u) !in BLACKLISTED_USERNAMES
  }

  predicate PasswordAcceptable(p: string, u: string) {
    && PASSWORD_MIN_LENGTH <= |p| <= PASSWORD_MAX_LENGTH
    && MatchesStrongPassword(p)
    && !Contains(ToLower(p), ToLower(u))
  }

  /** The rules hold of the trimmed username and the trimmed password. */
  predicate Acceptable(i: SignupInput) {
    && i.username.Some? && i.password.Some?
    && UsernameAcceptable(Trim(i.username.value))
    && PasswordAcceptable(Trim(i.password.value), Trim(i.username.value))
  }

  // ---------------------------------------------------------------------------
  // The chain of checks.

  /** validateUsername: the first rule the username breaks decides the error. */
  function ValidateUsername(username: Option<string>): (r: Result<(), ValidationError>)
    ensures r.Ok? <==> username.Some? && UsernameAcceptable(username.value)
    ensures r.Err? ==> r.error.IsUsernameRule()
    ensures username.None? || username.value == [] ==> r == Err(UsernameEmpty)
    ensures username.Some? && username.value != [] ==>
              var u := username.value;
              var inRange := USERNAME_MIN_LENGTH <= |u| <= USERNAME_MAX_LENGTH;
              && (!inRange ==> r == Err(UsernameLength))
              && (inRange && '@' in u && !MatchesEmail(u) ==> r == Err(InvalidEmail))
              && (inRange && '@' !in u && !MatchesUsernamePattern(u) ==> r == Err(InvalidUsernameChars))
              && (var blacklisted := ToLower(u) in BLACKLISTED_USERNAMES;
                  inRange && '@' !in u && MatchesUsernamePattern(u) && blacklisted ==> r == Err(BlacklistedUsername))
  {
    if username.None? || username.value == [] then Err(UsernameEmpty)
    else
      var u := username.value;
      if |u| < USERNAME_MIN_LENGTH || |u| > USERNAME_MAX_LENGTH then Err(UsernameLength)
      else if '@' in u then
        if MatchesEmail(u) then Ok(()) else Err(InvalidEmail)
      else if !MatchesUsernamePattern(u) then Err(InvalidUsernameChars)
      else if ToLower(u) in BLACKLISTED_USERNAMES then Err(BlacklistedUsername)
      else Ok(())
  }

  /** validatePassword: the first rule the password breaks decides the error. */
  function ValidatePassword(password: Option<string>, username: Option<string>): (r: Result<(), ValidationError>)
    ensures username.Some? ==> (r.Ok? <==> password.Some? && PasswordAcceptable(password.value, username.value))
    ensures r.Err? ==> r.error.IsPasswordRule()
    ensures password.None? || password.value == [] ==> r == Err(PasswordEmpty)
    ensures password.Some? && password.value != [] ==>
              var p := password.value;
              var inRange := PASSWORD_MIN_LENGTH <= |p| <= PASSWORD_MAX_LENGTH;
              && (|p| < PASSWORD_MIN_LENGTH ==> r == Err(PasswordTooShort))
              && (|p| > PASSWORD_MAX_LENGTH ==> r == Err(PasswordTooLong))
              && (inRange && !MatchesStrongPassword(p) ==> r == Err(WeakPassword))
              && (var holdsName := username.Some? && Contains(ToLower(p), ToLower(username.value));
                  inRange && MatchesStrongPassword(p) && holdsName ==> r == Err(PasswordContainsUsername))
  {
    if password.None? || password.value == [] then Err(PasswordEmpty)
    else
      var p := password.value;
      if |p| < PASSWORD_MIN_LENGTH then Err(PasswordTooShort)
      else if |p| > PASSWORD_MAX_LENGTH then Err(PasswordTooLong)
      else if !MatchesStrongPassword(p) then Err(WeakPassword)
      else if username.Some? && Contains(ToLower(p), ToLower(username.value)) then Err(PasswordContainsUsername)
      else Ok(())
  }

  /**
   * validateUserAttributes: null request first, then every username rule on the
   * trimmed username, then every password rule on the trimmed password.
   */
  function ValidateUserAttributes(dto: Option<SignupInput>): (r: Result<(), ValidationError>)
    ensures dto.None? ==> r == Err(NullInput)
    ensures r.Ok? <==> dto.Some? && Acceptable(dto.value)
    ensures dto.Some? && !(dto.value.username.Some? && UsernameAcceptable(Trim(dto.value.username.value)))
            ==> r.Err? && r.error.IsUsernameRule()
    ensures r.Err? && r.error.IsPasswordRule()
            ==> dto.Some? && dto.value.username.Some? && UsernameAcceptable(Trim(dto.value.username.value))
  {
    match dto
    case None => Err(NullInput)
    case Some(input) =>
      var username := SafeTrim(input.username);
      var password := SafeTrim(input.password);
      match ValidateUsername(username)
      case Err(e) => assert !e.IsPasswordRule(); Err(e)
      case Ok(_) => ValidatePassword(password, username)
  }

  // ---------------------------------------------------------------------------
  // Properties of the chain.

  lemma BlacklistIsLowercaseWords(w: string)
    requires w in BLACKLISTED_USERNAMES
    ensures USERNAME_MIN_LENGTH <= |w| <= USERNAME_MAX_LENGTH
    ensures forall k :: 0 <= k < |w| ==> IsAsciiLower(w[k])
  {
  }

  /** A reserved name, in any case, fails the username rules as blacklisted. */
  lemma BlacklistedNameFailsUsernameRule(u: string)
    requires ToLower(u) in BLACKLISTED_USERNAMES
    ensures ValidateUsername(Some(u)) == Err(BlacklistedUsername)
  {
    var w := ToLower(u);
    BlacklistIsLowercaseWords(w);
    forall k | 0 <= k < |u|
      ensures IsAsciiLetter(u[k])
    {
      assert w[k] == LowerChar(u[k]);
    }
    assert '@' !in u;
    assert MatchesUsernamePattern(u);
  }

  /**
   * A username whose trimmed, lower-cased form is reserved is refused as
   * blacklisted, whatever the password (for instance "admin", " Root ", "GUEST").
   */
  lemma BlacklistedUsernameRejected(username: string, password: Option<string>)
    requires ToLower(Trim(username)) in BLACKLISTED_USERNAMES
    ensures ValidateUserAttributes(Some(SignupInput(Some(username), password))) == Err(BlacklistedUsername)
  {
    BlacklistedNameFailsUsernameRule(Trim(username));
    ChainOnUsername(username, password);
  }

  lemma AdminIsReserved(u: string)
    requires u == "admin"
    ensures ToLower(u) in BLACKLISTED_USERNAMES
  {
    assert ToLower(u) == u;
  }

  lemma ReservedNameAdminRejected(username: string, password: Option<string>)
    requires username == "admin"
    ensures ValidateUserAttributes(Some(SignupInput(Some(username), password))) == Err(BlacklistedUsername)
  {
    TrimmedExample(username);
    AdminIsReserved(username);
    BlacklistedUsernameRejected(username, password);
  }

  /** The blacklist only applies to usernames without '@'. */
  lemma EmailNeverBlacklisted(u: string)
    requires '@' in u
    ensures ValidateUsername(Some(u)) != Err(BlacklistedUsername)
  {
  }

  lemma EmailUsernameNotBlacklisted(username: string, password: Option<string>)
    requires '@' in Trim(username)
    ensures ValidateUserAttributes(Some(SignupInput(Some(username), password))) != Err(BlacklistedUsername)
  {
    EmailNeverBlacklisted(Trim(username));
    ChainOnUsername(username, password);
  }

  /**
   * A password of admissible length that holds a line terminator fails the
   * strength pattern, since `.` does not match line terminators.
   */
  lemma LineTerminatorFailsStrength(password: string, username: Option<string>, k: int)
    requires PASSWORD_MIN_LENGTH <= |password| <= PASSWORD_MAX_LENGTH
    requires 0 <= k < |password| && IsLineTerminator(password[k])
    ensures ValidatePassword(Some(password), username) == Err(WeakPassword)
  {
  }

  /** A string with no trimmable character at either end is its own trim. */
  lemma TrimmedExample(s: string)
    requires s != [] && !IsTrimmable(s[0]) && !IsTrimmable(s[|s| - 1])
    ensures Trim(s) == s
  {
  }

  lemma {:induction false} TrimEndPadding(s: string, pad: string)
    requires s == [] || !IsTrimmable(s[|s| - 1])
    requires forall k :: 0 <= k < |pad| ==> IsTrimmable(pad[k])
    ensures TrimEnd(s + pad) == s
    decreases |pad|
  {
    if pad == [] {
      assert s + pad == s;
    } else {
      var shorter := pad[..|pad| - 1];
      assert (s + pad)[..|s + pad| - 1] == s + shorter;
      TrimEndPadding(s, shorter);
    }
  }

  /** Trailing blanks and control characters after a trimmed string are trimmed away. */
  lemma TrimIgnoresTrailingPadding(s: string, pad: string)
    requires s != [] && !IsTrimmable(s[0]) && !IsTrimmable(s[|s| - 1])
    requires forall k :: 0 <= k < |pad| ==> IsTrimmable(pad[k])
    ensures Trim(s + pad) == s
  {
    assert TrimStart(s + pad) == s + pad;
    TrimEndPadding(s, pad);
  }

  /** validateUserAttributes on a request with a username: the username rules, then the password rules. */
  lemma ChainOnUsername(username: string, password: Option<string>)
    ensures ValidateUserAttributes(Some(SignupInput(Some(username), password)))
            == match ValidateUsername(Some(Trim(username)))
               case Err(e) => Err(e)
               case Ok(_) => ValidatePassword(SafeTrim(password), Some(Trim(username)))
  {
  }

  /** validateUserAttributes on a non-null request: the username rules, then the password rules. */
  lemma ChainOnInput(username: string, password: string)
    ensures ValidateUserAttributes(Some(SignupInput(Some(username), Some(password))))
            == match ValidateUsername(Some(Trim(username)))
               case Err(e) => Err(e)
               case Ok(_) => ValidatePassword(Some(Trim(password)), Some(Trim(username)))
  {
  }

  lemma UsernamePassw0rdAccepted(u: string)
    requires u == "Passw0rd"
    ensures ValidateUsername(Some(u)) == Ok(())
  {
    assert ToLower(u) == "passw0rd";
    assert !('@' in u);
    assert MatchesUsernamePattern(u);
  }

  lemma PasswordHoldsUsername(p: string, u: string)
    requires u == "Passw0rd" && p == "Passw0rd!"
    ensures ValidatePassword(Some(p), Some(u)) == Err(PasswordContainsUsername)
  {
    assert IsAsciiDigit(p[5]) && IsAsciiLower(p[1]) && IsAsciiUpper(p[0]) && IsPunct(p[8]);
    assert MatchesStrongPassword(p);
    assert OccursAt(ToLower(p), ToLower(u), 0);
  }

  /** A password that contains the username, ignoring case, is refused. */
  lemma PasswordContainingUsernameRejected(username: string, password: string)
    requires username == "Passw0rd" && password == "Passw0rd!"
    ensures ValidateUserAttributes(Some(SignupInput(Some(username), Some(password))))
            == Err(PasswordContainsUsername)
  {
    TrimmedExample(username);
    TrimmedExample(password);
    UsernamePassw0rdAccepted(username);
    PasswordHoldsUsername(password, username);
    ChainOnInput(username, password);
  }

  /** A password without upper case, digit or punctuation is too weak. */
  lemma LowercaseOnlyPasswordIsWeak(password: string, username: Option<string>)
    requires password == "password"
    ensures ValidatePassword(Some(password), username) == Err(WeakPassword)
  {
    assert forall k | 0 <= k < |password| :: !IsAsciiUpper(password[k]);
  }

  lemma PlainUsernameAccepted(u: string)
    requires u == "alice1"
    ensures ValidateUsername(Some(u)) == Ok(())
  {
    assert !('@' in u);
    assert MatchesUsernamePattern(u);
    assert ToLower(u) == u;
    assert u !in BLACKLISTED_USERNAMES;
  }

  lemma StrongPasswordAccepted(p: string, u: string)
    requires u == "alice1" && p == "Str0ng!Pass"
    ensures ValidatePassword(Some(p), Some(u)) == Ok(())
  {
    assert IsAsciiDigit(p[3]) && IsAsciiLower(p[1]) && IsAsciiUpper(p[0]) && IsPunct(p[6]);
    var lp := ToLower(p);
    assert lp == "str0ng!pass";
    assert ToLower(u) == u;
    forall i | 0 <= i <= |lp| - |u|
      ensures !OccursAt(lp, u, i)
    {
      assert lp[i] != u[0];
    }
  }

  /** A username and password that satisfy every rule are accepted. */
  lemma StrongCredentialsAccepted(username: string, password: string)
    requires username == "alice1" && password == "Str0ng!Pass"
    ensures ValidateUserAttributes(Some(SignupInput(Some(username), Some(password)))) == Ok(())
  {
    TrimmedExample(username);
    TrimmedExample(password);
    PlainUsernameAccepted(username);
    StrongPasswordAccepted(password, username);
    ChainOnInput(username, password);
  }
}
