/**
 * Request and response shapes of the authentication service. A request body
 * is checked field by field: a `Field(min_length=...)` constraint first, then
 * the field's validator, if it has one.
 */
module AuthSchemas {
  import opened Results
  import opened Models

  /** Shortest password any request accepts. */
  const MinPasswordLength: nat := 8

  /** The token type every login reports. */
  const BearerTokenType: string := "bearer"

  /** Why a request body was refused: a length constraint, or a validator raising `ValueError`. */
  datatype ValidationError = StringTooShort(field: string) | ValueError(field: string)

  /** `validate_password` on `UserCreate.password` and on `PasswordChange.new_password`. */
  function ValidatePassword(field: string, value: string): (r: Result<string, ValidationError>)
    ensures r.Ok? <==> |value| >= MinPasswordLength
    ensures r.Ok? ==> r.value == value
    ensures r.Err? ==> r.error == ValueError(field)
  {
    if |value| < MinPasswordLength then Err(ValueError(field)) else Ok(value)
  }

  /** Checks a value against `Field(min_length=8)`. */
  function CheckMinLength(field: string, value: string): (r: Result<string, ValidationError>)
    ensures r.Ok? <==> |value| >= MinPasswordLength
    ensures r.Ok? ==> r.value == value
    ensures r.Err? ==> r.error == StringTooShort(field)
  {
    if |value| < MinPasswordLength then Err(StringTooShort(field)) else Ok(value)
  }

  datatype UserCreate = UserCreate(username: string, email: string, password: string)

  /**
   * Parses a registration body. The length constraint rejects a short password
   * before the validator sees it, so the validator never raises here.
   */
  function ParseUserCreate(username: string, email: string, password: string): (r: Result<UserCreate, ValidationError>)
    ensures r.Ok? <==> |password| >= MinPasswordLength
    ensures r.Ok? ==> r.value == UserCreate(username, email, password)
    ensures r.Err? ==> r.error == StringTooShort("password")
  {
    match CheckMinLength("password", password)
    case Err(e) => Err(e)
    case Ok(p) =>
      match ValidatePassword("password", p)
      case Err(e) => Err(e)
      case Ok(p') => Ok(UserCreate(username, email, p'))
  }

  datatype UserLogin = UserLogin(username: string, password: string)

  /** Parses a login body; only the length constraint applies. */
  function ParseUserLogin(username: string, password: string): (r: Result<UserLogin, ValidationError>)
    ensures r.Ok? <==> |password| >= MinPasswordLength
    ensures r.Ok? ==> r.value == UserLogin(username, password)
  {
    match CheckMinLength("password", password)
    case Err(e) => Err(e)
    case Ok(p) => Ok(UserLogin(username, p))
  }

  datatype PasswordChange = PasswordChange(username: string, oldPassword: string, newPassword: string)

  /**
   * Parses a password-change body: the old password is unconstrained, the new
   * one passes the length constraint and then the validator.
   */
  function ParsePasswordChange(username: string, oldPassword: string, newPassword: string): (r: Result<PasswordChange, ValidationError>)
    ensures r.Ok? <==> |newPassword| >= MinPasswordLength
    ensures r.Ok? ==> r.value == PasswordChange(username, oldPassword, newPassword)
    ensures r.Err? ==> r.error == StringTooShort("new_password")
  {
    match CheckMinLength("new_password", newPassword)
    case Err(e) => Err(e)
    case Ok(p) =>
      match ValidatePassword("new_password", p)
      case Err(e) => Err(e)
      case Ok(p') => Ok(PasswordChange(username, oldPassword, p'))
  }

  /** The public view of a user: no password hash. */
  datatype UserResponse = UserResponse(id: int, username: string, email: string, balance: real)

  function ToUserResponse(u: User): UserResponse {
    UserResponse(u.id, u.username, u.email, u.balance)
  }

  datatype Token = Token(accessToken: string, tokenType: string)
}
