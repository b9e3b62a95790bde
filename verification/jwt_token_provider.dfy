/** `JwtTokenProvider`: issuing the access/refresh token pair, reading the
    bearer token of a request, and checking a token's expiry. The JWT
    library is the `JwtLibrary` value `jwt`; the clock reading `new Date()`
    is the parameter `now` and the issuer URL of the current request is the
    parameter `issuerUrl`. */
module JwtTokens {
  import opened Wrappers
  import opened JavaString
  import opened Entities

  const BEARER: string := "Bearer "
  /** `security.jwt.token.expire-length` when not configured: one hour. */
  const DEFAULT_VALIDITY: Long := 3600000
  const INVALID_TOKEN_MESSAGE: string := "Expired or invalid JWT token!"

  /** The provider's fields once `init` has run. */
  datatype ProviderState = ProviderState(
    secretKey: string,
    validityInMilliseconds: Long,
    algorithm: Algorithm,
    userRepository: UserRepository)

  /** The signing key is derived from the current secret, as `init` leaves it. */
  predicate Initialized(p: ProviderState) {
    p.algorithm == HMAC256(p.secretKey)
  }

  /** The `roles` claim: the permission descriptions, in order. */
  function Descriptions(roles: seq<Permission>): seq<string> {
    seq(|roles|, i requires 0 <= i < |roles| => roles[i].description)
  }

  /** The permissions `createRefreshToken` rebuilds from a `roles` claim:
      fresh objects with only a description. */
  function RolesAsPermissions(roles: seq<string>): seq<Permission> {
    seq(|roles|, i requires 0 <= i < |roles| => Permission(None, roles[i]))
  }

  /** `now.getTime() + validityInMilliseconds`, a `long` sum. */
  function AccessExpiry(p: ProviderState, now: Long): Long {
    WrapLong(now + p.validityInMilliseconds)
  }

  /** `now.getTime() + validityInMilliseconds * 3`, in `long` arithmetic. */
  function RefreshExpiry(p: ProviderState, now: Long): Long {
    WrapLong(now + WrapLong(p.validityInMilliseconds * 3))
  }

  function AccessClaims(username: Option<string>, roles: seq<Permission>, now: Long, validity: Long, issuerUrl: string): Claims {
    Claims(Some(Descriptions(roles)), Some(now), Some(validity), username, Some(issuerUrl))
  }

  function RefreshClaims(p: ProviderState, username: Option<string>, roles: seq<Permission>, now: Long): Claims {
    Claims(Some(Descriptions(roles)), Some(now), Some(RefreshExpiry(p, now)), username, None)
  }

  /** The `.strip()` applied to a signed token changes nothing. */
  lemma SignedTokenSurvivesStrip(jwt: JwtLibrary, a: Algorithm, c: Claims)
    ensures jwt.Sound() ==> Strip(jwt.sign(a, c)) == jwt.sign(a, c)
  {
    if jwt.Sound() {
      CompactTokenIsClean(jwt.sign(a, c));
      StripEndsKeepsClean(jwt.sign(a, c), IsWhitespace);
    }
  }

  /** A response pair issued at `now` for `subject` with the `roles` claim
      `roles`: authenticated, living `validity` milliseconds, and, for a
      sound library, an access token and a refresh token that verify to
      exactly these claims whenever they are timely. */
  ghost predicate PairFor(jwt: JwtLibrary, p: ProviderState, pair: TokenDTO, subject: Option<string>, roles: seq<string>,
                          now: Long, issuerUrl: string) {
    && pair.username == subject && pair.authenticated
    && pair.created == now && pair.expiration == AccessExpiry(p, now)
    && (jwt.Sound() ==>
          && jwt.Carries(p.algorithm, pair.accessToken, Claims(Some(roles), Some(now), Some(pair.expiration), subject, Some(issuerUrl)))
          && jwt.Carries(p.algorithm, pair.refreshToken, Claims(Some(roles), Some(now), Some(RefreshExpiry(p, now)), subject, None)))
  }

  /** `getAccessToken`: a token whose claims are the roles, the issue and
      expiry dates, the subject and the issuer. */
  function GetAccessToken(jwt: JwtLibrary, p: ProviderState, username: Option<string>, roles: seq<Permission>,
                          now: Long, validity: Long, issuerUrl: string): (token: string)
    ensures jwt.Sound() ==> jwt.Carries(p.algorithm, token, AccessClaims(username, roles, now, validity, issuerUrl))
  {
    var claims := AccessClaims(username, roles, now, validity, issuerUrl);
    SignedTokenSurvivesStrip(jwt, p.algorithm, claims);
    Strip(jwt.sign(p.algorithm, claims))
  }

  /** `getRefreshToken`: the same claims with three times the lifetime and no issuer. */
  function GetRefreshToken(jwt: JwtLibrary, p: ProviderState, username: Option<string>, roles: seq<Permission>,
                           now: Long): (token: string)
    ensures jwt.Sound() ==> jwt.Carries(p.algorithm, token, RefreshClaims(p, username, roles, now))
  {
    var claims := RefreshClaims(p, username, roles, now);
    SignedTokenSurvivesStrip(jwt, p.algorithm, claims);
    Strip(jwt.sign(p.algorithm, claims))
  }

  /** `createAccessToken`: the response for an authenticated user. */
  function CreateAccessToken(jwt: JwtLibrary, p: ProviderState, username: Option<string>, roles: seq<Permission>,
                             now: Long, issuerUrl: string): (r: TokenDTO)
    ensures PairFor(jwt, p, r, username, Descriptions(roles), now, issuerUrl)
  {
    var validity := AccessExpiry(p, now);
    var accessToken := GetAccessToken(jwt, p, username, roles, now, validity, issuerUrl);
    var refreshToken := GetRefreshToken(jwt, p, username, roles, now);
    TokenDTO(username, true, now, validity, accessToken, refreshToken)
  }

  /** Lines 54-58 of `createRefreshToken`: the string handed to the verifier.
      The prefix test is `contains`, but the first seven characters are cut
      wherever the prefix occurred, and the last character is always cut. */
  function RefreshCandidate(refreshToken: string): (r: Result<string, AuthError>)
    ensures !Contains(refreshToken, BEARER) ==> r == Success(refreshToken)
    ensures Contains(refreshToken, BEARER) && |refreshToken| == |BEARER| ==> r == Failure(StringIndexOutOfBounds)
    ensures Contains(refreshToken, BEARER) && |refreshToken| > |BEARER| ==>
              r == Success(Trim(refreshToken[|BEARER|..|refreshToken| - 1]))
  {
    if Contains(refreshToken, BEARER) then
      match Substring(refreshToken, |BEARER|, |refreshToken|)
      case Failure(_) => Failure(StringIndexOutOfBounds)
      case Success(withoutPrefix) =>
        match Substring(withoutPrefix, 0, |withoutPrefix| - 1)
        case Failure(_) => Failure(StringIndexOutOfBounds)
        case Success(shortened) =>
          assert shortened == refreshToken[|BEARER|..|refreshToken| - 1];
          Success(Trim(shortened))
    else
      Success(refreshToken)
  }

  /** Rebuilding permissions from a `roles` claim and reading their
      descriptions back gives the claim itself, in order. */
  lemma {:induction false} RolesSurviveRebuild(roles: seq<string>)
    ensures Descriptions(RolesAsPermissions(roles)) == roles
  {
    var again := Descriptions(RolesAsPermissions(roles));
    assert |again| == |roles|;
    forall k | 0 <= k < |roles| ensures again[k] == roles[k] {
      assert RolesAsPermissions(roles)[k] == Permission(None, roles[k]);
    }
  }

  /** `createRefreshToken`: verifies the presented token with the signing
      key and issues a new pair for its subject and its own roles. The clock
      is read twice: `verifiedAt` is the reading of the verifier that
      checks the presented token, and `now` is the `new Date()` with which
      `createAccessToken` dates the new pair. */
  function CreateRefreshToken(jwt: JwtLibrary, p: ProviderState, refreshToken: string, verifiedAt: Long, now: Long,
                              issuerUrl: string): (r: Result<TokenDTO, AuthError>)
    ensures RefreshCandidate(refreshToken).Failure? ==> r == Failure(RefreshCandidate(refreshToken).error)
    ensures RefreshCandidate(refreshToken).Success? ==>
              var claims := jwt.verify(p.algorithm, RefreshCandidate(refreshToken).value, verifiedAt);
              && (claims.None? <==> r == Failure(JwtVerification))
              && (claims.Some? && claims.value.roles.None? <==> r == Failure(NullPointer))
              && (claims.Some? && claims.value.roles.Some? <==> r.Success?)
              && (r.Success? ==> PairFor(jwt, p, r.value, claims.value.subject, claims.value.roles.value, now, issuerUrl))
  {
    var token :- RefreshCandidate(refreshToken);
    match jwt.verify(p.algorithm, token, verifiedAt)
    case None => Failure(JwtVerification)
    case Some(claims) =>
      match claims.roles
      case None => Failure(NullPointer)
      case Some(roles) =>
        RolesSurviveRebuild(roles);
        Success(CreateAccessToken(jwt, p, claims.subject, RolesAsPermissions(roles), now, issuerUrl))
  }

  /** `decodeToken`: verification at `now` with a key rebuilt from
      `secretKey`, which after `init` is the key the provider signs with. */
  function DecodeToken(jwt: JwtLibrary, p: ProviderState, token: string, now: Long): (r: Option<Claims>)
    ensures Initialized(p) ==> r == jwt.verify(p.algorithm, token, now)
  {
    jwt.verify(HMAC256(p.secretKey), token, now)
  }

  /** `getAuthentication`: binds the directory user named by the token's
      subject, with that user's current permissions. */
  function GetAuthentication(jwt: JwtLibrary, p: ProviderState, token: string, now: Long)
    : (r: Result<Authentication, AuthError>)
    ensures DecodeToken(jwt, p, token, now).None? ==> r == Failure(JwtVerification)
    ensures DecodeToken(jwt, p, token, now).Some? ==>
              (r.Success? <==> FindByUsername(p.userRepository, DecodeToken(jwt, p, token, now).value.subject).Some?)
    ensures DecodeToken(jwt, p, token, now).Some? && r.Failure? ==> r == Failure(NullPointer)
    ensures r.Success? ==>
              && DecodeToken(jwt, p, token, now).Some?
              && FindByUsername(p.userRepository, DecodeToken(jwt, p, token, now).value.subject) == Some(r.value.principal)
              && r.value.authorities == r.value.principal.permissions
              && r.value.credentials == ""
  {
    match DecodeToken(jwt, p, token, now)
    case None => Failure(JwtVerification)
    case Some(claims) =>
      match FindByUsername(p.userRepository, claims.subject)
      case None => Failure(NullPointer)
      case Some(user) => Success(Authentication(user, "", user.permissions))
  }

  /** `resolveToken`: the token of an `Authorization: Bearer <token>` header, or null. */
  function ResolveToken(authorization: Option<string>): (token: Option<string>)
    ensures token.Some? <==> authorization.Some? && StartsWith(authorization.value, BEARER)
    ensures token.Some? ==> authorization.value == BEARER + token.value
  {
    if authorization.Some? && StartsWith(authorization.value, BEARER) then
      Some(authorization.value[|BEARER|..])
    else
      None
  }

  /** `validateToken`: false exactly when the expiry lies strictly before
      `now`. The clock is read twice: `verifiedAt` is the verifier's reading
      inside `decodeToken`, and `now` is the `new Date()` of the expiry comparison. */
  function ValidateToken(jwt: JwtLibrary, p: ProviderState, token: string, verifiedAt: Long, now: Long)
    : (r: Result<bool, AuthError>)
    ensures DecodeToken(jwt, p, token, verifiedAt).None? <==> r == Failure(JwtVerification)
    ensures r.Success? <==>
              DecodeToken(jwt, p, token, verifiedAt).Some? && DecodeToken(jwt, p, token, verifiedAt).value.expiresAt.Some?
    ensures r.Success? ==> (r.value <==> now <= DecodeToken(jwt, p, token, verifiedAt).value.expiresAt.value)
    ensures r.Failure? && r != Failure(JwtVerification) ==> r == Failure(Runtime(INVALID_TOKEN_MESSAGE))
  {
    match DecodeToken(jwt, p, token, verifiedAt)
    case None => Failure(JwtVerification)
    case Some(claims) =>
      match claims.expiresAt
      case None => Failure(Runtime(INVALID_TOKEN_MESSAGE))
      case Some(expiresAt) => Success(!(expiresAt < now))
  }

  // ---------------------------------------------------------------------------
  // Properties of issuance

  /** The two tokens of a pair share subject, issue date and ordered roles;
      only the access token names an issuer, and the refresh token lives
      until `RefreshExpiry`. */
  lemma PairSharesClaims(jwt: JwtLibrary, p: ProviderState, username: Option<string>, roles: seq<Permission>,
                         now: Long, issuerUrl: string, at: Long)
    requires jwt.Sound() && now <= at <= AccessExpiry(p, now) && at <= RefreshExpiry(p, now)
    ensures var r := CreateAccessToken(jwt, p, username, roles, now, issuerUrl);
            var access := jwt.verify(p.algorithm, r.accessToken, at);
            var refresh := jwt.verify(p.algorithm, r.refreshToken, at);
            && access.Some? && refresh.Some?
            && access.value.subject == refresh.value.subject == username
            && access.value.issuedAt == refresh.value.issuedAt == Some(now)
            && access.value.roles == refresh.value.roles == Some(Descriptions(roles))
            && access.value.issuer == Some(issuerUrl) && refresh.value.issuer == None
            && access.value.expiresAt == Some(r.expiration)
            && refresh.value.expiresAt == Some(RefreshExpiry(p, now))
  {
  }

  /** Without `long` overflow the access token lives `validity` and the
      refresh token three times as long, so the refresh token outlives it. */
  lemma RefreshOutlivesAccess(p: ProviderState, now: Long)
    requires 0 < p.validityInMilliseconds
    requires now + 3 * p.validityInMilliseconds <= MAX_LONG
    ensures AccessExpiry(p, now) == now + p.validityInMilliseconds
    ensures RefreshExpiry(p, now) == now + 3 * p.validityInMilliseconds
    ensures AccessExpiry(p, now) < RefreshExpiry(p, now)
  {
  }

  /** With the default validity of one hour the refresh token lives three hours. */
  lemma DefaultLifetimes(p: ProviderState, now: Long)
    requires p.validityInMilliseconds == DEFAULT_VALIDITY
    requires now <= MAX_LONG - 3 * DEFAULT_VALIDITY
    ensures AccessExpiry(p, now) == now + 3600000
    ensures RefreshExpiry(p, now) == now + 10800000
  {
    RefreshOutlivesAccess(p, now);
  }

  /** A validity above a third of `Long.MAX_VALUE` makes the refresh expiry
      wrap around to a date before the access expiry. */
  lemma RefreshExpiryWrapsAround(p: ProviderState)
    requires p.validityInMilliseconds == 0x4000_0000_0000_0000
    ensures AccessExpiry(p, 0) == 0x4000_0000_0000_0000
    ensures RefreshExpiry(p, 0) == -0x4000_0000_0000_0000
    ensures RefreshExpiry(p, 0) < AccessExpiry(p, 0)
  {
  }

  // ---------------------------------------------------------------------------
  // Properties of the bearer-prefix handling

  /** `resolveToken` undoes `"Bearer " + token`. */
  lemma ResolveTokenRoundTrip(token: string)
    ensures ResolveToken(Some(BEARER + token)) == Some(token)
  {
    assert (BEARER + token)[..|BEARER|] == BEARER;
  }

  /** A bare compact token contains no space, so it reaches the verifier unchanged. */
  lemma CompactTokenPassesUnchanged(token: string)
    requires IsCompact(token)
    ensures RefreshCandidate(token) == Success(token)
  {
    CompactTokenIsClean(token);
    assert ' ' in BEARER by { assert BEARER[6] == ' '; }
    MissingCharNotContained(token, BEARER, ' ');
  }

  /** `"Bearer " + token` followed by any one character of the Basic
      Multilingual Plane (one UTF-16 unit) yields the token. */
  lemma BearerHeaderWithExtraCharYieldsToken(token: string, extra: char)
    requires IsCompact(token) && extra < '\U{10000}'
    ensures RefreshCandidate(BEARER + token + [extra]) == Success(token)
  {
    var header := BEARER + token + [extra];
    assert header[..|BEARER|] == BEARER;
    assert header[|BEARER|..|header| - 1] == token;
    CompactTokenIsClean(token);
    StripEndsKeepsClean(token, IsTrimmed);
  }

  /** A well-formed `"Bearer " + token` loses the token's last character. */
  lemma BearerHeaderLosesLastChar(token: string)
    requires IsCompact(token) && token != []
    ensures RefreshCandidate(BEARER + token) == Success(token[..|token| - 1])
  {
    var header := BEARER + token;
    assert header[..|BEARER|] == BEARER;
    assert header[|BEARER|..|header| - 1] == token[..|token| - 1];
    var shortened := token[..|token| - 1];
    assert shortened == [] || (shortened[0] == token[0] && shortened[|shortened| - 1] == token[|token| - 2]);
    CompactTokenIsClean(token);
    StripEndsKeepsClean(shortened, IsTrimmed);
  }

  /** A header of exactly `"Bearer "` makes `substring(0, -1)` throw. */
  lemma BarePrefixFails(jwt: JwtLibrary, p: ProviderState, verifiedAt: Long, now: Long, issuerUrl: string)
    ensures CreateRefreshToken(jwt, p, BEARER, verifiedAt, now, issuerUrl) == Failure(StringIndexOutOfBounds)
  {
    assert StartsWith(BEARER, BEARER);
  }

  // ---------------------------------------------------------------------------
  // Properties of refreshing

  /** Whatever string leads to a token signed with the provider's key, and
      still timely when the verifier reads the clock, is exchanged for a new
      pair with the token's subject and roles, dated at the later reading. */
  lemma RefreshOfSignedToken(jwt: JwtLibrary, p: ProviderState, claims: Claims, refreshToken: string,
                             verifiedAt: Long, now: Long, issuerUrl: string)
    requires jwt.Sound() && claims.roles.Some? && TimelyAt(claims, verifiedAt)
    requires RefreshCandidate(refreshToken) == Success(jwt.sign(p.algorithm, claims))
    ensures CreateRefreshToken(jwt, p, refreshToken, verifiedAt, now, issuerUrl)
            == Success(CreateAccessToken(jwt, p, claims.subject, RolesAsPermissions(claims.roles.value), now, issuerUrl))
  {
  }

  /** A token signed with the provider's key is refused with a verification
      failure once it has expired, or before its issue date. */
  lemma UntimelySignedTokenRejected(jwt: JwtLibrary, p: ProviderState, claims: Claims, refreshToken: string,
                                    verifiedAt: Long, now: Long, issuerUrl: string)
    requires jwt.Sound() && !TimelyAt(claims, verifiedAt)
    requires RefreshCandidate(refreshToken) == Success(jwt.sign(p.algorithm, claims))
    ensures CreateRefreshToken(jwt, p, refreshToken, verifiedAt, now, issuerUrl) == Failure(JwtVerification)
  {
  }

  /** Presenting an issued refresh token within its lifetime (bare, or as
      `"Bearer "` plus one trailing BMP character) yields a new pair for the
      same subject with the same ordered roles and fresh dates. */
  lemma RefreshRotatesPair(jwt: JwtLibrary, p: ProviderState, username: Option<string>, roles: seq<Permission>,
                           issued: Long, issuerUrl: string, verifiedAt: Long, now: Long, newIssuerUrl: string, extra: char)
    requires jwt.Sound() && issued <= verifiedAt <= RefreshExpiry(p, issued) && extra < '\U{10000}'
    ensures var issuedPair := CreateAccessToken(jwt, p, username, roles, issued, issuerUrl);
            var newPair := CreateAccessToken(jwt, p, username, RolesAsPermissions(Descriptions(roles)), now, newIssuerUrl);
            && CreateRefreshToken(jwt, p, issuedPair.refreshToken, verifiedAt, now, newIssuerUrl) == Success(newPair)
            && CreateRefreshToken(jwt, p, BEARER + issuedPair.refreshToken + [extra], verifiedAt, now, newIssuerUrl)
               == Success(newPair)
            && newPair.username == username && newPair.created == now
            && jwt.Carries(p.algorithm, newPair.accessToken, AccessClaims(username, roles, now, newPair.expiration, newIssuerUrl))
  {
    var claims := RefreshClaims(p, username, roles, issued);
    SignedTokenSurvivesStrip(jwt, p.algorithm, claims);
    var token := jwt.sign(p.algorithm, claims);
    CompactTokenPassesUnchanged(token);
    BearerHeaderWithExtraCharYieldsToken(token, extra);
    RefreshOfSignedToken(jwt, p, claims, token, verifiedAt, now, newIssuerUrl);
    RefreshOfSignedToken(jwt, p, claims, BEARER + token + [extra], verifiedAt, now, newIssuerUrl);
    RolesSurviveRebuild(Descriptions(roles));
  }

  /** An issued refresh token that the verifier sees after its expiry, or
      before its issue date, is refused with a verification failure in
      either form. */
  lemma RefreshOutsideLifetimeRejected(jwt: JwtLibrary, p: ProviderState, username: Option<string>, roles: seq<Permission>,
                                       issued: Long, issuerUrl: string, verifiedAt: Long, now: Long, newIssuerUrl: string,
                                       extra: char)
    requires jwt.Sound() && (verifiedAt < issued || RefreshExpiry(p, issued) < verifiedAt) && extra < '\U{10000}'
    ensures var issuedPair := CreateAccessToken(jwt, p, username, roles, issued, issuerUrl);
            && CreateRefreshToken(jwt, p, issuedPair.refreshToken, verifiedAt, now, newIssuerUrl) == Failure(JwtVerification)
            && CreateRefreshToken(jwt, p, BEARER + issuedPair.refreshToken + [extra], verifiedAt, now, newIssuerUrl)
               == Failure(JwtVerification)
  {
    var claims := RefreshClaims(p, username, roles, issued);
    SignedTokenSurvivesStrip(jwt, p.algorithm, claims);
    var token := jwt.sign(p.algorithm, claims);
    CompactTokenPassesUnchanged(token);
    BearerHeaderWithExtraCharYieldsToken(token, extra);
    UntimelySignedTokenRejected(jwt, p, claims, token, verifiedAt, now, newIssuerUrl);
    UntimelySignedTokenRejected(jwt, p, claims, BEARER + token + [extra], verifiedAt, now, newIssuerUrl);
  }

  /** Nothing tells the kinds apart: an access token within its lifetime is
      accepted for a refresh too. */
  lemma AccessTokenAlsoRefreshes(jwt: JwtLibrary, p: ProviderState, username: Option<string>, roles: seq<Permission>,
                                 issued: Long, issuerUrl: string, verifiedAt: Long, now: Long, newIssuerUrl: string)
    requires jwt.Sound() && issued <= verifiedAt <= AccessExpiry(p, issued)
    ensures var issuedPair := CreateAccessToken(jwt, p, username, roles, issued, issuerUrl);
            CreateRefreshToken(jwt, p, issuedPair.accessToken, verifiedAt, now, newIssuerUrl)
            == Success(CreateAccessToken(jwt, p, username, RolesAsPermissions(Descriptions(roles)), now, newIssuerUrl))
  {
    var validity := AccessExpiry(p, issued);
    var claims := AccessClaims(username, roles, issued, validity, issuerUrl);
    SignedTokenSurvivesStrip(jwt, p.algorithm, claims);
    var token := jwt.sign(p.algorithm, claims);
    CompactTokenPassesUnchanged(token);
    RefreshOfSignedToken(jwt, p, claims, token, verifiedAt, now, newIssuerUrl);
  }

  // ---------------------------------------------------------------------------
  // Properties of checking

  /** After `init`, `validateToken` on the provider's own tokens throws
      unless the verifier's reading lies between the issue date and the
      expiry; when it does, the answer is whether the second reading is
      not past the expiry. At a single instant a token is still valid at the
      very millisecond it expires. */
  lemma ValidateIssuedTokens(jwt: JwtLibrary, p: ProviderState, username: Option<string>, roles: seq<Permission>,
                             issued: Long, issuerUrl: string, verifiedAt: Long, now: Long)
    requires jwt.Sound() && Initialized(p)
    ensures var r := CreateAccessToken(jwt, p, username, roles, issued, issuerUrl);
            && ValidateToken(jwt, p, r.accessToken, verifiedAt, now)
               == (if issued <= verifiedAt <= r.expiration then Success(now <= r.expiration) else Failure(JwtVerification))
            && ValidateToken(jwt, p, r.refreshToken, verifiedAt, now)
               == (if issued <= verifiedAt <= RefreshExpiry(p, issued) then Success(now <= RefreshExpiry(p, issued))
                   else Failure(JwtVerification))
            && (issued <= r.expiration ==> ValidateToken(jwt, p, r.accessToken, r.expiration, r.expiration) == Success(true))
  {
  }

  /** The verifier and the expiry comparison read the clock separately: a token signed
      with the provider's key that is still timely at the verifier's reading
      but has expired by the second reading is answered `false`. */
  lemma ValidateFalseBetweenReadings(jwt: JwtLibrary, p: ProviderState, claims: Claims, verifiedAt: Long, now: Long)
    requires jwt.Sound() && Initialized(p) && TimelyAt(claims, verifiedAt)
    requires claims.expiresAt.Some? && claims.expiresAt.value < now
    ensures ValidateToken(jwt, p, jwt.sign(p.algorithm, claims), verifiedAt, now) == Success(false)
  {
  }

  /** `getAuthentication` binds the directory's current permissions of the
      token's subject, whatever roles the token carries; a subject missing
      from the directory ends in a NullPointerException. */
  lemma AuthenticationUsesDirectoryRoles(jwt: JwtLibrary, p: ProviderState, username: string, tokenRoles: seq<Permission>,
                                         issued: Long, issuerUrl: string, now: Long)
    requires jwt.Sound() && Initialized(p) && issued <= now <= AccessExpiry(p, issued)
    ensures var r := CreateAccessToken(jwt, p, Some(username), tokenRoles, issued, issuerUrl);
            && (username in p.userRepository ==>
                  GetAuthentication(jwt, p, r.accessToken, now)
                  == Success(Authentication(p.userRepository[username], "", p.userRepository[username].permissions)))
            && (username !in p.userRepository ==> GetAuthentication(jwt, p, r.accessToken, now) == Failure(NullPointer))
  {
  }
}

/** The provider object itself: its configuration fields, the `init` step
    that overwrites two of them, and `createRefreshToken` written as the
    sequence of reassignments it is. */
module JwtProvider {
  import opened Wrappers
  import opened JavaString
  import opened Entities
  import opened JwtTokens

  class JwtTokenProvider {
    var secretKey: string
    const validityInMilliseconds: Long
    const userRepository: UserRepository
    /** Null until `init` has run. */
    var algorithm: Option<Algorithm>

    /** Injection of the configured secret, validity and user repository. */
    constructor (secretKey: string, validityInMilliseconds: Long, userRepository: UserRepository)
      ensures this.secretKey == secretKey && this.validityInMilliseconds == validityInMilliseconds
      ensures this.userRepository == userRepository && algorithm == None
    {
      this.secretKey := secretKey;
      this.validityInMilliseconds := validityInMilliseconds;
      this.userRepository := userRepository;
      algorithm := None;
    }

    /** `init` has run: the algorithm is the HMAC-SHA256 key of the current secret. */
    predicate Valid()
      reads this
    {
      algorithm == Some(HMAC256(secretKey))
    }

    function State(): ProviderState
      reads this
      requires algorithm.Some?
    {
      ProviderState(secretKey, validityInMilliseconds, algorithm.value, userRepository)
    }

    /** `init`: replaces the secret by its Base64 encoding and derives the
        HMAC-SHA256 key from the encoded secret. `encodeBase64` stands for
        `Base64.getEncoder().encodeToString(s.getBytes())`. */
    method Init(encodeBase64: string -> string)
      modifies this
      ensures secretKey == encodeBase64(old(secretKey))
      ensures algorithm == Some(HMAC256(encodeBase64(old(secretKey))))
      ensures Valid() && Initialized(State())
    {
      secretKey := encodeBase64(secretKey);
      algorithm := Some(HMAC256(secretKey));
    }

    /** `createRefreshToken`. */
    method CreateRefreshToken(jwt: JwtLibrary, refreshToken: string, verifiedAt: Long, now: Long, issuerUrl: string)
      returns (r: Result<TokenDTO, AuthError>)
      requires Valid()
      ensures r == JwtTokens.CreateRefreshToken(jwt, State(), refreshToken, verifiedAt, now, issuerUrl)
    {
      var token := refreshToken;
      if Contains(token, BEARER) {
        ContainsIsLongEnough(token, BEARER);
        token := token[|BEARER|..];
        if |token| - 1 < 0 {
          return Failure(StringIndexOutOfBounds);
        }
        assert token[..|token| - 1] == refreshToken[|BEARER|..|refreshToken| - 1];
        token := token[..|token| - 1];
        token := Trim(token);
      }
      assert RefreshCandidate(refreshToken) == Success(token);
      var decoded := jwt.verify(algorithm.value, token, verifiedAt);
      if decoded.None? {
        return Failure(JwtVerification);
      }
      var roles := decoded.value.roles;
      if roles.None? {
        return Failure(NullPointer);
      }
      r := Success(CreateAccessToken(jwt, State(), decoded.value.subject, RolesAsPermissions(roles.value), now, issuerUrl));
    }
  }
}
