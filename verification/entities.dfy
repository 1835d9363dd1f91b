/**
 * The persisted records: accounts (UserInfo) with their roles (UserRole), and
 * refresh tokens (RefreshToken), with the column constraints of their tables.
 */
module Entities {

  /** An instant in milliseconds since the epoch (java.util.Date and Instant, at millisecond resolution). */
  type Instant = int

  /** A row of the `roles` table; the name is what becomes an authority. */
  datatype UserRole = UserRole(roleId: int, name: string)

  /** A row of the `users` table; `password` holds the hash, never the plain text. */
  datatype UserInfo = UserInfo(userId: string, username: string, password: string, roles: set<UserRole>)

  /** A row of the `tokens` table: the opaque value, its expiry, and its owner. */
  datatype RefreshToken = RefreshToken(token: string, expiryDate: Instant, userInfo: UserInfo)

  const USER_ID_MAX_LENGTH := 255
  const USERNAME_COLUMN_LENGTH := 30
  const TOKEN_COLUMN_LENGTH := 255

  /** `user_id` has length 255 and `username` length 30. */
  predicate UserColumnsFit(user: UserInfo) {
    |user.userId| <= USER_ID_MAX_LENGTH && |user.username| <= USERNAME_COLUMN_LENGTH
  }

  /** `token` has length 255. */
  predicate TokenColumnsFit(t: RefreshToken) {
    |t.token| <= TOKEN_COLUMN_LENGTH
  }
}
