# Credential lifecycle of the expense tracker's auth service, in Dafny

This project models the part of the auth service that decides who gets credentials and when they stop working:

- the sign-up input validator (`ValidationUtil`);
- the access-token service (`JwtService`), with its base 64 key set-up;
- the refresh-token service (`RefreshTokenService`), over the `users` and `tokens` tables (`UserInfo`, `RefreshToken`);
- the account directory and sign-up (`UserDetailsServiceImpl`);
- the principal built from an account (`CustomUserDetails`);
- the per-request authentication filter (`JwtAuthFilter`);
- the sign-up, login and refresh endpoints (`AuthController`, `TokenController`).

## Layout

| file | module | models |
|---|---|---|
| `wrappers.dfy` | `Wrappers` | `Option` and `Result` |
| `validation.dfy` | `Validation` | `ValidationUtil`: Java's `trim`, and the three regular expressions written as character-class predicates |
| `base64.dfy` | `Base64` | the base 64 encoding of section 4 of RFC 4648, with its round trip |
| `entities.dfy` | `Entities` | `UserInfo`, `UserRole`, `RefreshToken` and their column lengths |
| `failures.dfy` | `Failures` | the exceptions the services raise, as values |
| `store.dfy` | `Store` | both repositories as one `Database` class (two maps) whose invariant is the table constraints |
| `details.dfy` | `Details` | `CustomUserDetails` and its constructor loop |
| `jwt.dfy` | `Jwt` | `JwtService`; signing and parsing are a `Codec` of two function values constrained by `Lawful` |
| `refresh_tokens.dfy` | `RefreshTokens` | `RefreshTokenService` |
| `accounts.dfy` | `Accounts` | `UserDetailsServiceImpl` and the request body `UserInfoDto` |
| `filter.dfy` | `Filter` | `JwtAuthFilter.doFilterInternal` over a mutable `SecurityContext` |
| `controllers.dfy` | `Controllers` | the three endpoints, answering with an `Outcome` |

## Modelling choices

**Collaborators as parameters.** Each operation takes these as inputs:

- the clock, as `now`, in milliseconds, read once per request;
- random UUIDs, as `userId` and `tokenValue`;
- the password encoder, as `encode: string -> string`;
- the authentication manager's verdict on a login.

**Failures.** Exceptions become `Result` values. A controller maps a caught exception to `ServerError` or `Unauthorized`. An exception it does not catch becomes `Raised`.

**The codec laws.** The JWT library is not modelled. `Jwt.Lawful` states the two facts the service relies on:

1. Parsing `sign(k, c)` with the same key `k` gives back `c` unless `c` has expired. It gives nothing once `c` has expired.
2. Whatever parses under `k` was signed under `k`, and it has not expired.

**Repository lookups return an optional.** The repository interface declares `findByUsername` as returning a bare account (`UserRepository.java:9`). Every caller treats the result as an optional and calls `orElseThrow` on it. The model follows the callers.

**Expiry and token lifetime, as the code has them.**

- Access tokens:
  - The service counts a token as expired only when its expiry is strictly before now (`Date.before`).
  - The JWT parser itself already refuses a token whose expiry has passed, so on any token that parses the service's own check answers "not expired" (`Jwt.ExpiryCheckAfterParse`).
- Refresh tokens:
  - `verifyExpiration` deletes and refuses a token only when its expiry is strictly before now (`isBefore`).
  - `createRefreshToken` only inserts. It never replaces an existing token. Because the owner column is unique, a second token for the same account is refused by the table. As a result, a second login by the same user answers 500.
- Sign-up:
  - As written, sign-up never stores an account (see Findings).
  - Validation checks the trimmed username, but the account stores the raw one. A padded username therefore passes validation and is then refused by the 30-character column. `Accounts.PaddedUsernameAcceptedButTooLong` shows this.

## Model

| member | source | states |
|---|---|---|
| Validation.Trim | app/src/main/java/com/eta/authservice/utils/ValidationUtil.java:88-90 | the result is the slice of the input at some offset such that every character before it and every character after it is ≤ U+0020; it has no character ≤ U+0020 at either end, and it is empty exactly when every character is ≤ U+0020 (so only blanks and control characters are dropped, and only at the ends) |
| Validation.SafeTrim | app/src/main/java/com/eta/authservice/utils/ValidationUtil.java:88-90 | null stays null; otherwise the value is trimmed |
| Validation.MatchesEmail | app/src/main/java/com/eta/authservice/utils/ValidationUtil.java:45 | (definition) the whole name splits as a non-empty local part over `[A-Za-z0-9._%+-]`, '@', a non-empty domain over `[A-Za-z0-9.-]`, '.', and 2 to 6 ASCII letters |
| Validation.MatchesUsernamePattern | app/src/main/java/com/eta/authservice/utils/ValidationUtil.java:49 | (definition) the name is non-empty and every character is an ASCII letter, digit, '_', '.' or '-' |
| Validation.MatchesStrongPassword | app/src/main/java/com/eta/authservice/utils/ValidationUtil.java:77 | (definition) the password is non-empty, holds no line terminator (which `.` does not match), and has an ASCII digit, lower-case letter, upper-case letter and punctuation character |
| Validation.ToLower | app/src/main/java/com/eta/authservice/utils/ValidationUtil.java:53 | same length; each character is lower-cased in the ASCII range and left unchanged outside it |
| Validation.ValidateUsername | app/src/main/java/com/eta/authservice/utils/ValidationUtil.java:33-57 | accepts exactly the usernames that meet the declarative rules (length 3 to 30; email shape if the name contains '@'; otherwise only `[A-Za-z0-9_.-]` and not a blacklisted word in any case); and the first failing check decides the error: null or empty gives UsernameEmpty, a length outside 3 to 30 gives UsernameLength, a bad email gives InvalidEmail, a bad character gives InvalidUsernameChars, a reserved name gives BlacklistedUsername |
| Validation.ValidatePassword | app/src/main/java/com/eta/authservice/utils/ValidationUtil.java:60-86 | with a username, accepts exactly the passwords of length 8 to 128 that have a digit, a lower-case letter, an upper-case letter and an ASCII punctuation character, have no line terminator, and do not contain the username in any case; and the first failing check decides the error: null or empty gives PasswordEmpty, under 8 PasswordTooShort, over 128 PasswordTooLong, a missing character class or a line terminator WeakPassword, containing the username PasswordContainsUsername |
| Validation.ValidateUserAttributes | app/src/main/java/com/eta/authservice/utils/ValidationUtil.java:20-30 | a null request is refused before anything else; the request is accepted exactly when its trimmed username and trimmed password meet every rule; a bad username always wins over a bad password |
| Validation.BlacklistIsLowercaseWords | app/src/main/java/com/eta/authservice/utils/ValidationUtil.java:11 | every blacklisted name is a lower-case word within the username length bounds |
| Validation.BlacklistedNameFailsUsernameRule | app/src/main/java/com/eta/authservice/utils/ValidationUtil.java:49-55 | a well-formed username whose lower-cased form is blacklisted fails the username check as blacklisted |
| Validation.BlacklistedUsernameRejected | app/src/main/java/com/eta/authservice/utils/ValidationUtil.java:11-55 | any username whose trimmed, lower-cased form is blacklisted is refused as blacklisted, whatever the password |
| Validation.ReservedNameAdminRejected | app/src/main/java/com/eta/authservice/utils/ValidationUtil.java:53-55 | "admin" is refused as blacklisted with any password |
| Validation.EmailNeverBlacklisted | app/src/main/java/com/eta/authservice/utils/ValidationUtil.java:42-47 | the username check never refuses a name containing '@' as blacklisted |
| Validation.EmailUsernameNotBlacklisted | app/src/main/java/com/eta/authservice/utils/ValidationUtil.java:42-47 | a username containing '@' is never refused by the blacklist |
| Validation.LineTerminatorFailsStrength | app/src/main/java/com/eta/authservice/utils/ValidationUtil.java:77 | a password of valid length that contains a line terminator fails the strength check |
| Validation.PasswordContainingUsernameRejected | app/src/main/java/com/eta/authservice/utils/ValidationUtil.java:83-85 | "Passw0rd!" with username "Passw0rd" is refused because it contains the username |
| Validation.LowercaseOnlyPasswordIsWeak | app/src/main/java/com/eta/authservice/utils/ValidationUtil.java:77-81 | "password" fails the strength check |
| Validation.StrongCredentialsAccepted | app/src/main/java/com/eta/authservice/utils/ValidationUtil.java:20-86 | "alice1" with "Str0ng!Pass" passes every rule |
| Validation.TrimIgnoresTrailingPadding | app/src/main/java/com/eta/authservice/utils/ValidationUtil.java:89 | trailing blanks after a trimmed string disappear under trim |
| Base64.Index64 | app/src/main/java/com/eta/authservice/service/JwtService.java:34 | a character that decodes to a value is exactly the alphabet character of that value |
| Base64.Encode | app/src/main/java/com/eta/authservice/service/JwtService.java:29 | the output length is a multiple of four, and the output is empty exactly when the input is |
| Base64.Decode | app/src/main/java/com/eta/authservice/service/JwtService.java:34 | input whose length is not a multiple of four is refused |
| Base64.DecodeEncodeGroup | app/src/main/java/com/eta/authservice/service/JwtService.java:28-36 | a full three-byte group survives encoding and decoding |
| Base64.Byte0OfSextets | app/src/main/java/com/eta/authservice/service/JwtService.java:28-36 | the first byte is rebuilt from the first two 6-bit values of its group |
| Base64.Byte1OfSextets | app/src/main/java/com/eta/authservice/service/JwtService.java:28-36 | the second byte is rebuilt from the second and third 6-bit values of its group |
| Base64.Byte2OfSextets | app/src/main/java/com/eta/authservice/service/JwtService.java:28-36 | the third byte is rebuilt from the last two 6-bit values of its group |
| Base64.DecodeEncode | app/src/main/java/com/eta/authservice/service/JwtService.java:28-36 | decoding undoes encoding for every byte string |
| Jwt.JwtService.SignKey | app/src/main/java/com/eta/authservice/service/JwtService.java:33-36 | the key is obtained exactly when the stored secret is valid base 64; otherwise the result is a key-decoding failure |
| Jwt.JwtService.ExtractAllClaims | app/src/main/java/com/eta/authservice/service/JwtService.java:38-52 | never fails: a bad key gives no claims, and under the codec laws any claims returned belong to a token signed with the service key and are unexpired |
| Jwt.JwtService.ExtractClaim | app/src/main/java/com/eta/authservice/service/JwtService.java:54-58 | absent claims give absent; otherwise the resolver is applied to the claims |
| Jwt.JwtService.ExtractUsername | app/src/main/java/com/eta/authservice/service/JwtService.java:60-62 | present exactly when the claims are present and carry a subject, and then it is that subject |
| Jwt.JwtService.ExtractExpiration | app/src/main/java/com/eta/authservice/service/JwtService.java:64-66 | present exactly when the claims are present and carry an expiry, and then it is that expiry |
| Jwt.JwtService.IsTokenExpired | app/src/main/java/com/eta/authservice/service/JwtService.java:68-72 | a missing expiry counts as expired; otherwise the token is expired exactly when its expiry is strictly before now |
| Jwt.JwtService.ValidateToken | app/src/main/java/com/eta/authservice/service/JwtService.java:74-78 | false when no subject can be read; otherwise true exactly when the subject is the principal's username and the token is not expired |
| Jwt.JwtService.CreateToken | app/src/main/java/com/eta/authservice/service/JwtService.java:80-88 | succeeds exactly when the key can be derived, and then signs subject = username, issued-at = now, expiry = now + ttl plus the extra claims |
| Jwt.JwtService.GenerateToken | app/src/main/java/com/eta/authservice/service/JwtService.java:90-93 | fails exactly when the key cannot be built, with that failure; otherwise the token is the signature, under the service key, of the claims: subject the username, issued now, expiring now plus the configured lifetime, no other claims |
| Jwt.NewJwtService | app/src/main/java/com/eta/authservice/service/JwtService.java:28-31 | keeps the ttl and the codec, and stores the secret as base 64 text |
| Jwt.Lawful | app/src/main/java/com/eta/authservice/service/JwtService.java:38-52 | (definition) the two facts assumed of the JWT library: a token signed under a key parses under it to its claims until they expire and to nothing after; and whatever parses under a key is that key's signature of the parsed claims and has not expired |
| Jwt.SignKeyIsSecret | app/src/main/java/com/eta/authservice/service/JwtService.java:28-36 | the signing key bytes are exactly the configured secret's bytes |
| Jwt.GeneratedTokenClaims | app/src/main/java/com/eta/authservice/service/JwtService.java:80-93 | a generated token read back up to its expiry has no extra claims, subject = username, issued-at = issue time and expiry = issue time + ttl |
| Jwt.ValidateGeneratedToken | app/src/main/java/com/eta/authservice/service/JwtService.java:74-93 | a generated token validates exactly for its own username, and only while now ≤ issue time + ttl |
| Jwt.ValidTokenWasIssued | app/src/main/java/com/eta/authservice/service/JwtService.java:74-78 | a token that validates was signed with the service key over claims naming that user with an unexpired expiry |
| Jwt.UnsignedTokenHasNoClaims | app/src/main/java/com/eta/authservice/service/JwtService.java:38-52 | a tampered or foreign token gives no claims, no username and no expiry, and counts as expired |
| Jwt.ExpiryCheckAfterParse | app/src/main/java/com/eta/authservice/service/JwtService.java:68-72 | under the codec laws, the expiry check fires only for a token that does not parse or that has no expiry |
| Store.Database.constructor | app/src/main/java/com/eta/authservice/entities/UserInfo.java:18-35 | an empty database satisfies every table constraint |
| Store.UsersWellFormed | app/src/main/java/com/eta/authservice/entities/UserInfo.java:18-27 | (definition) accounts are keyed by their username, so usernames are unique; ids are unique; the id fits 255 characters and the username 30 |
| Store.TokensWellFormed | app/src/main/java/com/eta/authservice/entities/RefreshToken.java:29-37 | (definition) tokens are keyed by their value, which fits 255 characters; each token's owner is a stored account; no two tokens share an owner id |
| Store.Database.Valid | app/src/main/java/com/eta/authservice/entities/RefreshToken.java:29-37 | (definition) both tables meet their constraints; every mutating operation keeps this |
| Store.Database.FindByUsername | app/src/main/java/com/eta/authservice/entities/UserInfo.java:23-24 | finds the account stored under that username, if there is one |
| Store.Database.SaveUser | app/src/main/java/com/eta/authservice/entities/UserInfo.java:18-27 | inserts the account unless its username is taken, its username is longer than 30, or its id is longer than 255; a refused insert changes nothing; the constraints still hold |
| Store.Database.FindByToken | app/src/main/java/com/eta/authservice/entities/RefreshToken.java:29-37 | finds the token with that value; its owner is a stored account |
| Store.Database.SaveToken | app/src/main/java/com/eta/authservice/entities/RefreshToken.java:29-37 | inserts the token unless its owner is not stored, the owner already holds a token, or the value is longer than 255; a refused insert changes nothing; the token value must be fresh, since that column is not unique |
| Store.Database.DeleteToken | app/src/main/java/com/eta/authservice/entities/RefreshToken.java:26-37 | removes exactly that token and keeps the constraints |
| RefreshTokens.RefreshTokenService.CreateRefreshToken | app/src/main/java/com/eta/authservice/service/RefreshTokenService.java:25-35 | an unknown username fails with not-found and stores nothing; otherwise it inserts one token (the given value, expiry now + 7 days, owner = the stored account) and deletes nothing; if the account already holds a token, the insert is refused and nothing changes |
| RefreshTokens.RefreshTokenService.FindByToken | app/src/main/java/com/eta/authservice/service/RefreshTokenService.java:37-39 | a read-only lookup by value |
| RefreshTokens.RefreshTokenService.VerifyExpiration | app/src/main/java/com/eta/authservice/service/RefreshTokenService.java:41-47 | a token whose expiry is strictly before now is deleted and reported as expired, and a later lookup of its value finds nothing; any other token is returned unchanged and nothing is written |
| Details.ToUpper | app/src/main/java/com/eta/authservice/service/CustomUserDetails.java:26 | ASCII upper-casing, character by character, with the length preserved |
| Details.ToUpperIdempotent | app/src/main/java/com/eta/authservice/service/CustomUserDetails.java:26 | an upper-cased name has no lower-case ASCII letter, and upper-casing it again changes nothing |
| Details.AuthoritiesOfIndex | app/src/main/java/com/eta/authservice/service/CustomUserDetails.java:25-27 | the i-th authority is the upper-cased name of the i-th role visited |
| Details.NewCustomUserDetails | app/src/main/java/com/eta/authservice/service/CustomUserDetails.java:19-29 | copies the username and password; the authorities are the upper-cased role names in some visiting order that lists each role exactly once, with as many authorities as roles |
| Details.AuthoritiesMatchRoles | app/src/main/java/com/eta/authservice/service/CustomUserDetails.java:23-28 | every role yields its upper-cased name as an authority, and every authority is some role's upper-cased name |
| Details.CaseVariantRolesCollide | app/src/main/java/com/eta/authservice/service/CustomUserDetails.java:25-27 | roles "admin" and "ADMIN" give two equal authorities "ADMIN" |
| Details.StatusFlagsAlwaysTrue | app/src/main/java/com/eta/authservice/service/CustomUserDetails.java:46-64 | all four account-status flags hold for every principal |
| Accounts.Input | app/src/main/java/com/eta/authservice/utils/ValidationUtil.java:20-26 | the validator sees a null request as absent, and otherwise sees the request's username and password fields |
| Accounts.UserDetailsServiceImpl.LoadUserByUsername | app/src/main/java/com/eta/authservice/service/UserDetailsServiceImpl.java:30-39 | an unknown username fails with not-found; otherwise it returns the principal of the stored account; it never writes |
| Accounts.UserDetailsServiceImpl.CheckIfUserAlreadyExist | app/src/main/java/com/eta/authservice/service/UserDetailsServiceImpl.java:41-43 | fails with not-found exactly when the username is absent, and otherwise wraps the stored account; it never reports "absent" as an empty optional |
| Accounts.UserDetailsServiceImpl.SignUp | app/src/main/java/com/eta/authservice/service/UserDetailsServiceImpl.java:45-67 | as written: a refused request raises the validation failure before any lookup; an existing username gives false; a new username raises not-found; it never answers true and never writes |
| Accounts.UserDetailsServiceImpl.SignUpCorrected | app/src/main/java/com/eta/authservice/service/UserDetailsServiceImpl.java:45-67 | a refused request and an existing username write nothing; a new username overwrites the request's password with its hash and inserts exactly one account (the fresh id, the raw username, the hash, no roles), answering true, unless the raw username is longer than 30, in which case the insert is refused |
| Accounts.UserDetailsServiceImpl.Register | app/src/main/java/com/eta/authservice/service/UserDetailsServiceImpl.java:53-66 | for a validated request naming no stored account: the request's password is replaced by its hash, the username is kept, and the account with the fresh id, raw username, hash and no roles is inserted unless the username exceeds the 30-character column, in which case nothing is inserted; refresh tokens are untouched |
| Accounts.PaddedUsernameAcceptedButTooLong | app/src/main/java/com/eta/authservice/service/UserDetailsServiceImpl.java:58 | "alice1" followed by 25 blanks passes validation, although the raw name does not fit the 30-character column |
| Filter.BearerToken | app/src/main/java/com/eta/authservice/auth/JwtAuthFilter.java:33-36 | a token is taken exactly from a header that starts, case-sensitively, with "Bearer ", and the header is "Bearer " followed by the token |
| Filter.BearerTokenRoundTrip | app/src/main/java/com/eta/authservice/auth/JwtAuthFilter.java:33-34 | "Bearer " followed by t gives back t |
| Filter.OtherSchemeHasNoToken | app/src/main/java/com/eta/authservice/auth/JwtAuthFilter.java:33 | "bearer " (lower case) and "Basic " headers give no token |
| Filter.JwtAuthFilter.DoFilterInternal | app/src/main/java/com/eta/authservice/auth/JwtAuthFilter.java:27-55 | no token subject, or an existing authentication, leaves the context unchanged and continues the chain; an unknown subject raises not-found; a token that fails validation leaves the context unchanged; otherwise the context holds the user's principal, null credentials, the principal's authorities and the request details, and the chain continues |
| Controllers.AuthController.SignUpAsWritten | app/src/main/java/com/eta/authservice/controller/AuthController.java:31-56 | over the sign-up as written: a refused request answers 500 with the generic message; an accepted request answers 400 "User already exists" for a stored username and 500 with the generic message for a new one; nothing is written, so no request ever obtains tokens |
| Controllers.AuthController.SignUp | app/src/main/java/com/eta/authservice/controller/AuthController.java:31-56 | a refused request answers 500 with the generic message and writes nothing; an existing username answers 400 "User already exists" and creates no token; otherwise it stores the account and its first refresh token and answers both tokens, with the refresh value being the stored one; a key failure after the insert answers 500 |
| Controllers.TokenController.Login | app/src/main/java/com/eta/authservice/controller/TokenController.java:32-66 | bad credentials and an unauthenticated result both answer 401 and write nothing; another authentication failure answers 500; when authenticated, it inserts one refresh token and answers both tokens; if the account already holds a token or does not exist, it answers 500 and writes nothing |
| Controllers.TokenController.RefreshToken | app/src/main/java/com/eta/authservice/controller/TokenController.java:69-88 | an unknown value raises "not valid or expired"; an expired token is deleted and its expiry failure raised; a live token gets a new access token for its owner and the same refresh value, with nothing written |

## Findings

| source | as written | input that shows it | evidently intended | confidence | as-written member | corrected member |
|---|---|---|---|---|---|---|
| app/src/main/java/com/eta/authservice/service/UserDetailsServiceImpl.java:41-51 | the existence check calls `orElseThrow` on the lookup, so an absent username raises not-found instead of giving an empty optional; `signUp` never reaches its insert | a valid request "alice1" / "Str0ng!Pass" on an empty database: not-found is raised, no account is stored, and the endpoint answers 500 | an absent username gives an empty optional; `signUp` hashes the password, stores the account and answers true | high, not executed | Accounts.UserDetailsServiceImpl.SignUp | Accounts.UserDetailsServiceImpl.SignUpCorrected |

## Left out

- Signing and parsing of JSON Web Tokens are not modelled. This covers HMAC SHA-256, the compact serialisation, the weak-key check of `Keys.hmacShaKeyFor`, clock skew and the seconds resolution of NumericDate. They are library code and are represented by `Jwt.Codec` and `Jwt.Lawful`.
- The bytes of the configured secret are not derived from its characters. `String.getBytes` uses the platform charset, so `Jwt.NewJwtService` takes the secret's bytes directly.
- Bcrypt is not modelled. It becomes the `encode` parameter, and its cost factor plays no part.
- The authentication manager (`DaoAuthenticationProvider` with the password check) is not modelled. `Controllers.TokenController.Login` takes its verdict as a parameter.
- The clock and UUID generation are not modelled. `now`, `userId` and `tokenValue` are parameters, and `createToken`'s two clock reads are one `now`.
- Instants are integers in milliseconds, and the model has no 64-bit overflow on `now + ttl`.
- Lengths are counted in Unicode scalar values, not UTF-16 code units. Case mapping is ASCII only; locale-sensitive `toUpperCase` is not modelled.
- The auto-generated `tokenId` key of the `tokens` table is not modelled. Tokens are keyed by their value, and the freshness of a new value is a precondition.
- JPA's merge on an already-used id is not modelled. A new account's id is assumed fresh, which stands in for the UUID's uniqueness.
- The no-argument constructor of `UserInfo` and the extra fields of `UserInfoDto` are not modelled.
- `loadUserByUsername`'s second `user == null` check is not modelled, because it can never fire.
- Logging, Spring wiring, servlet types and `ResponseEntity` bodies are not modelled. Only the status, and the message where the code sets one, are kept.
- The texts of the validation exceptions are not modelled. Each rule is a `ValidationError` constructor, and the sign-up endpoint answers every failure with one fixed message.
- Base64.Decode: is the strict decoder of RFC 4648, which refuses a length that is not a multiple of four; the library decoder of the key also accepts unpadded input. The stored secret is always an encoder output, so the difference is never reached.
- Concurrent requests and database transactions are not modelled. Each operation runs alone against the database.
- Accounts.UserDetailsServiceImpl.SignUp: stands for the method exactly as written; the corrected sequence is the one the sign-up endpoint uses.
- Controllers.AuthController.SignUp: uses the corrected sign-up, since with the as-written one its success path cannot be reached; `Controllers.AuthController.SignUpAsWritten` is the endpoint over the sign-up as written.
