/** The exceptions the credential services raise, as values. */
module Failures {
  import Validation

  /** The database constraint an insert broke (DataIntegrityViolationException). */
  datatype Constraint =
    | UniqueUsername
    | UsernameLength
    | UserIdLength
    | UniqueTokenOwner
    | TokenOwnerExists
    | TokenLength

  datatype Failure =
    | UserValidation(reason: Validation.ValidationError)   // UserValidationException
    | UsernameNotFound                                     // UsernameNotFoundException("User not found")
    | IntegrityViolation(constraint: Constraint)           // a rejected insert
    | RefreshTokenExpired(token: string)                   // "<token> Refresh token is expired. Please login again...!"
    | RefreshTokenNotValid                                 // "Refresh Token is not valid or expired"
    | KeyDecoding                                          // the configured key is not base 64
}
