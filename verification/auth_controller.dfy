/** `AuthController`: request validation and the mapping of the service's
    outcome to an HTTP status and body. The injected `AuthService` is a
    function value, so that what the controller passes to it, and whether
    it calls it at all, can be stated. */
module AuthController {
  import opened Wrappers
  import opened JavaString
  import opened Entities
  import AuthService
  import JwtTokens

  const BAD_REQUEST: int := 400
  const UNAUTHORIZED: int := 401
  const OK: int := 200
  const INVALID_CLIENT_REQUEST: string := "Invalid client request! Check your parameters."
  const INVALID_CREDENTIALS: string := "Invalid credentials. Unable to sign in."

  datatype Body = Text(text: string) | Token(token: TokenDTO)

  datatype ResponseEntity = ResponseEntity(status: int, body: Body)

  /** An `AuthService` call: it returns a token, returns null, or throws. */
  type SignInService = AccountCredentials -> Result<Option<TokenDTO>, AuthError>
  type RefreshService = (string, string) -> Result<Option<TokenDTO>, AuthError>

  /** `s == null || s.isBlank()`. */
  predicate NullOrBlank(s: Option<string>) {
    s.None? || IsBlank(s.value)
  }

  /** A string is blank exactly when `strip()` empties it, so a parameter is
      null or blank exactly when it is null or strips to nothing. */
  lemma NullOrBlankIffStripsToEmpty(s: Option<string>)
    ensures NullOrBlank(s) <==> s.None? || Strip(s.value) == []
  {
    if s.Some? {
      BlankIffStripsToEmpty(s.value);
    }
  }

  /** `checkIfParamsAreInvalidForSignIn`: a request is rejected exactly when
      the DTO or a field is null, or a field strips to the empty string. */
  predicate InvalidForSignIn(request: Option<AccountCredentialsDTO>): (r: bool)
    ensures r <==>
              || request.None?
              || request.value.username.None? || Strip(request.value.username.value) == []
              || request.value.password.None? || Strip(request.value.password.value) == []
  {
    if request.None? then
      true
    else
      NullOrBlankIffStripsToEmpty(request.value.username);
      NullOrBlankIffStripsToEmpty(request.value.password);
      NullOrBlank(request.value.username) || NullOrBlank(request.value.password)
  }

  /** `checkIfParamsAreInvalidForRefreshToken`: rejected exactly when the
      header or the path name is null or strips to the empty string. */
  predicate InvalidForRefreshToken(username: Option<string>, refreshToken: Option<string>): (r: bool)
    ensures r <==>
              || refreshToken.None? || Strip(refreshToken.value) == []
              || username.None? || Strip(username.value) == []
  {
    NullOrBlankIffStripsToEmpty(refreshToken);
    NullOrBlankIffStripsToEmpty(username);
    NullOrBlank(refreshToken) || NullOrBlank(username)
  }

  /** The tail both endpoints share once the service has been called. */
  function Respond(reply: Result<Option<TokenDTO>, AuthError>): (r: Result<ResponseEntity, AuthError>)
    ensures r.Failure? <==> reply.Failure?
    ensures r.Failure? ==> r.error == reply.error
    ensures r.Success? ==> (r.value.status == OK <==> reply.value.Some?)
    ensures r.Success? && r.value.status == OK ==> r.value.body == Token(reply.value.value)
    ensures r.Success? && r.value.status != OK ==> r.value == ResponseEntity(UNAUTHORIZED, Text(INVALID_CREDENTIALS))
  {
    match reply
    case Failure(e) => Failure(e)
    case Success(None) => Success(ResponseEntity(UNAUTHORIZED, Text(INVALID_CREDENTIALS)))
    case Success(Some(token)) => Success(ResponseEntity(OK, Token(token)))
  }

  /** Every response is 400, 401 or 200, and 200 exactly when the body is a token. */
  predicate WellFormed(response: ResponseEntity) {
    && response.status in {BAD_REQUEST, UNAUTHORIZED, OK}
    && (response.status == OK <==> response.body.Token?)
    && (response.status == BAD_REQUEST ==> response.body == Text(INVALID_CLIENT_REQUEST))
    && (response.status == UNAUTHORIZED ==> response.body == Text(INVALID_CREDENTIALS))
  }

  /** `signIn` (POST /api/auth/sign-in). */
  function SignIn(request: Option<AccountCredentialsDTO>, service: SignInService): (r: Result<ResponseEntity, AuthError>)
    ensures r.Success? ==> WellFormed(r.value)
    ensures InvalidForSignIn(request) ==> r == Success(ResponseEntity(BAD_REQUEST, Text(INVALID_CLIENT_REQUEST)))
    ensures !InvalidForSignIn(request) ==>
              r == Respond(service(AccountCredentials(request.value.username.value, request.value.password.value)))
  {
    if InvalidForSignIn(request) then
      Success(ResponseEntity(BAD_REQUEST, Text(INVALID_CLIENT_REQUEST)))
    else
      Respond(service(AccountCredentials(request.value.username.value, request.value.password.value)))
  }

  /** `refreshToken` (PUT /api/auth/refresh-token/{username}). */
  function RefreshToken(username: Option<string>, refreshToken: Option<string>, service: RefreshService)
    : (r: Result<ResponseEntity, AuthError>)
    ensures r.Success? ==> WellFormed(r.value)
    ensures InvalidForRefreshToken(username, refreshToken) ==>
              r == Success(ResponseEntity(BAD_REQUEST, Text(INVALID_CLIENT_REQUEST)))
    ensures !InvalidForRefreshToken(username, refreshToken) ==> r == Respond(service(username.value, refreshToken.value))
  {
    if InvalidForRefreshToken(username, refreshToken) then
      Success(ResponseEntity(BAD_REQUEST, Text(INVALID_CLIENT_REQUEST)))
    else
      Respond(service(username.value, refreshToken.value))
  }

  // ---------------------------------------------------------------------------
  // Wiring to the real service

  /** A service call that returns normally never returns null. */
  function NonNull(reply: Result<TokenDTO, AuthError>): Result<Option<TokenDTO>, AuthError> {
    match reply
    case Success(token) => Success(Some(token))
    case Failure(e) => Failure(e)
  }

  /** The sign-in endpoint with `AuthServiceImpl` injected. */
  function SignInEndpoint(jwt: JwtLibrary, p: JwtTokens.ProviderState, users: UserRepository,
                          matches: (string, string) -> bool, request: Option<AccountCredentialsDTO>,
                          now: Long, issuerUrl: string): Result<ResponseEntity, AuthError> {
    SignIn(request, credentials => NonNull(AuthService.SignIn(jwt, p, users, matches, credentials, now, issuerUrl)))
  }

  /** The refresh endpoint with `AuthServiceImpl` injected. */
  function RefreshTokenEndpoint(jwt: JwtLibrary, p: JwtTokens.ProviderState, users: UserRepository,
                                username: Option<string>, refreshToken: Option<string>,
                                verifiedAt: Long, now: Long, issuerUrl: string): Result<ResponseEntity, AuthError> {
    RefreshToken(username, refreshToken,
                 (name, header) => NonNull(AuthService.RefreshToken(jwt, p, users, name, header, verifiedAt, now, issuerUrl)))
  }

  // ---------------------------------------------------------------------------
  // Properties

  /** A bad request is answered without the service: any two services give the same response. */
  lemma BadRequestSkipsService(request: Option<AccountCredentialsDTO>, username: Option<string>,
                               refreshToken: Option<string>, signIn1: SignInService, signIn2: SignInService,
                               refresh1: RefreshService, refresh2: RefreshService)
    ensures InvalidForSignIn(request) ==> SignIn(request, signIn1) == SignIn(request, signIn2)
    ensures InvalidForRefreshToken(username, refreshToken) ==>
              RefreshToken(username, refreshToken, refresh1) == RefreshToken(username, refreshToken, refresh2)
  {
  }

  /** The requests the controller's own unit tests send. */
  lemma ControllerTestRequests()
    ensures InvalidForSignIn(Some(AccountCredentialsDTO(Some(""), Some(""))))
    ensures !InvalidForSignIn(Some(AccountCredentialsDTO(Some("user"), Some("password"))))
    ensures InvalidForRefreshToken(Some(""), Some(""))
    ensures !InvalidForRefreshToken(Some("user"), Some("validRefreshToken"))
    ensures InvalidForSignIn(Some(AccountCredentialsDTO(Some(" \t"), Some("password"))))
    ensures InvalidForSignIn(None)
  {
    assert !IsWhitespace("user"[0]);
    assert !IsWhitespace("password"[0]);
    assert !IsWhitespace("validRefreshToken"[0]);
  }

  /** With the real service the 401 branch of `signIn` is never taken: a
      failed sign-in leaves the controller as a BadCredentialsException. */
  lemma RealSignInNeverAnswers401(jwt: JwtLibrary, p: JwtTokens.ProviderState, users: UserRepository,
                                  matches: (string, string) -> bool, request: Option<AccountCredentialsDTO>,
                                  now: Long, issuerUrl: string)
    requires !InvalidForSignIn(request)
    ensures var r := SignInEndpoint(jwt, p, users, matches, request, now, issuerUrl);
            var name := request.value.username.value;
            var password := request.value.password.value;
            && (name in users && matches(password, users[name].password) ==>
                  r == Success(ResponseEntity(OK, Token(
                         JwtTokens.CreateAccessToken(jwt, p, Some(name), users[name].permissions, now, issuerUrl)))))
            && (!(name in users && matches(password, users[name].password)) ==>
                  r == Failure(BadCredentials(AuthService.INVALID_USERNAME_PASSWORD)))
  {
  }

  /** With the real service a refresh for an unknown user leaves the
      controller as a UsernameNotFoundException, never as a 401 response. */
  lemma RealRefreshNeverAnswers401(jwt: JwtLibrary, p: JwtTokens.ProviderState, users: UserRepository,
                                   username: Option<string>, refreshToken: Option<string>, verifiedAt: Long, now: Long,
                                   issuerUrl: string)
    requires !InvalidForRefreshToken(username, refreshToken)
    ensures var r := RefreshTokenEndpoint(jwt, p, users, username, refreshToken, verifiedAt, now, issuerUrl);
            && (r.Success? ==> r.value.status == OK)
            && (username.value !in users ==>
                  r == Failure(UsernameNotFound(AuthService.UsernameNotFoundMessage(username.value))))
  {
  }
}
