/** `AuthServiceImpl`: the sign-in and refresh decisions over the user
    repository `users` and the password encoder's `matches(raw, hash)`. */
module AuthService {
  import opened Wrappers
  import opened Entities
  import opened JwtTokens

  const INVALID_USERNAME_PASSWORD: string := "Invalid username/password supplied!"

  function UsernameNotFoundMessage(username: string): string {
    "Username: " + username + " not found"
  }

  /** The body of the `try` block in `signIn`: an unknown user and a wrong
      password still throw different exceptions with different messages. */
  function AttemptSignIn(jwt: JwtLibrary, p: ProviderState, users: UserRepository, matches: (string, string) -> bool,
                         credentials: AccountCredentials, now: Long, issuerUrl: string): (r: Result<TokenDTO, AuthError>)
    ensures credentials.username !in users ==> r == Failure(UsernameNotFound(UsernameNotFoundMessage(credentials.username)))
    ensures credentials.username in users && !matches(credentials.password, users[credentials.username].password) ==>
              r == Failure(BadCredentials(INVALID_USERNAME_PASSWORD))
  {
    match FindByUsername(users, Some(credentials.username))
    case Some(user) =>
      if matches(credentials.password, user.password) then
        Success(CreateAccessToken(jwt, p, Some(credentials.username), user.permissions, now, issuerUrl))
      else
        Failure(BadCredentials(INVALID_USERNAME_PASSWORD))
    case None =>
      Failure(UsernameNotFound(UsernameNotFoundMessage(credentials.username)))
  }

  /** `signIn`: a token pair exactly when the user exists and the password
      matches its hash; otherwise one and the same BadCredentialsException. */
  function SignIn(jwt: JwtLibrary, p: ProviderState, users: UserRepository, matches: (string, string) -> bool,
                  credentials: AccountCredentials, now: Long, issuerUrl: string): (r: Result<TokenDTO, AuthError>)
    ensures r.Success? <==> credentials.username in users && matches(credentials.password, users[credentials.username].password)
    ensures r.Success? ==>
              r.value == CreateAccessToken(jwt, p, Some(credentials.username), users[credentials.username].permissions, now, issuerUrl)
    ensures r.Failure? ==> r.error == BadCredentials(INVALID_USERNAME_PASSWORD)
  {
    match AttemptSignIn(jwt, p, users, matches, credentials, now, issuerUrl)
    case Failure(BadCredentials(_)) => Failure(BadCredentials(INVALID_USERNAME_PASSWORD))
    case Failure(UsernameNotFound(_)) => Failure(BadCredentials(INVALID_USERNAME_PASSWORD))
    case other => other
  }

  /** `refreshToken`: the named user must exist; the header is then handed
      to `createRefreshToken` unchanged. */
  function RefreshToken(jwt: JwtLibrary, p: ProviderState, users: UserRepository, username: string, refreshToken: string,
                        verifiedAt: Long, now: Long, issuerUrl: string): (r: Result<TokenDTO, AuthError>)
    ensures username !in users ==> r == Failure(UsernameNotFound(UsernameNotFoundMessage(username)))
    ensures username in users ==> r == CreateRefreshToken(jwt, p, refreshToken, verifiedAt, now, issuerUrl)
  {
    match FindByUsername(users, Some(username))
    case Some(_) => CreateRefreshToken(jwt, p, refreshToken, verifiedAt, now, issuerUrl)
    case None => Failure(UsernameNotFound(UsernameNotFoundMessage(username)))
  }

  // ---------------------------------------------------------------------------
  // Properties

  /** Inside the `try` the two failures differ; `signIn` turns both into the
      same result, so a caller cannot tell an unknown user from a wrong password. */
  lemma UnknownUserAndWrongPasswordLookAlike(jwt: JwtLibrary, p: ProviderState, users: UserRepository,
                                             matches: (string, string) -> bool, unknown: AccountCredentials,
                                             known: AccountCredentials, now: Long, issuerUrl: string)
    requires unknown.username !in users
    requires known.username in users && !matches(known.password, users[known.username].password)
    ensures AttemptSignIn(jwt, p, users, matches, unknown, now, issuerUrl)
            != AttemptSignIn(jwt, p, users, matches, known, now, issuerUrl)
    ensures SignIn(jwt, p, users, matches, unknown, now, issuerUrl)
            == SignIn(jwt, p, users, matches, known, now, issuerUrl)
            == Failure(BadCredentials(INVALID_USERNAME_PASSWORD))
  {
  }

  /** The password encoder is consulted only for a user the repository found. */
  lemma MatcherOnlyForKnownUsers(jwt: JwtLibrary, p: ProviderState, users: UserRepository,
                                 matches: (string, string) -> bool, otherMatches: (string, string) -> bool,
                                 credentials: AccountCredentials, now: Long, issuerUrl: string)
    requires credentials.username !in users
    ensures SignIn(jwt, p, users, matches, credentials, now, issuerUrl)
            == SignIn(jwt, p, users, otherMatches, credentials, now, issuerUrl)
  {
  }

  /** A successful sign-in issues a pair whose tokens carry the user's
      current permission descriptions and the requested user name. */
  lemma SignInTokensCarryDirectoryRoles(jwt: JwtLibrary, p: ProviderState, users: UserRepository,
                                        matches: (string, string) -> bool, credentials: AccountCredentials,
                                        now: Long, issuerUrl: string)
    requires jwt.Sound()
    requires credentials.username in users && matches(credentials.password, users[credentials.username].password)
    ensures var r := SignIn(jwt, p, users, matches, credentials, now, issuerUrl);
            var name := credentials.username;
            && r.Success? && r.value.authenticated && r.value.username == Some(name)
            && jwt.Carries(p.algorithm, r.value.accessToken,
                           AccessClaims(Some(name), users[name].permissions, now, r.value.expiration, issuerUrl))
            && jwt.Carries(p.algorithm, r.value.refreshToken, RefreshClaims(p, Some(name), users[name].permissions, now))
  {
  }

  /** The name in the request only gates the refresh: any two known names
      give the same result, and the new pair keeps the token's own roles
      rather than the directory's. */
  lemma RefreshIgnoresDirectoryRoles(jwt: JwtLibrary, p: ProviderState, users: UserRepository,
                                     requester: string, other: string, subject: Option<string>,
                                     tokenRoles: seq<Permission>, issued: Long, issuerUrl: string,
                                     verifiedAt: Long, now: Long, newIssuerUrl: string)
    requires jwt.Sound() && requester in users && other in users
    requires issued <= verifiedAt <= RefreshExpiry(p, issued)
    ensures var issuedPair := CreateAccessToken(jwt, p, subject, tokenRoles, issued, issuerUrl);
            var r := RefreshToken(jwt, p, users, requester, issuedPair.refreshToken, verifiedAt, now, newIssuerUrl);
            && r == RefreshToken(jwt, p, users, other, issuedPair.refreshToken, verifiedAt, now, newIssuerUrl)
            && r.Success? && r.value.username == subject
            && jwt.Carries(p.algorithm, r.value.accessToken,
                           AccessClaims(subject, tokenRoles, now, r.value.expiration, newIssuerUrl))
  {
    RefreshRotatesPair(jwt, p, subject, tokenRoles, issued, issuerUrl, verifiedAt, now, newIssuerUrl, ' ');
  }
}
