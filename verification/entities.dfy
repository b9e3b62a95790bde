/** The records the authentication core passes around: the `Permission` and
    `User` entities, the `AccountCredentialsDTO` and `TokenDTO` transfer
    objects, the claims a JWT carries, the signing algorithm, the exceptions
    the core throws, and Java's 64-bit `long` arithmetic. */
module Entities {
  import opened Wrappers
  import opened JavaString

  // ---------------------------------------------------------------------------
  // Java `long`

  const MIN_LONG: int := -0x8000_0000_0000_0000
  const MAX_LONG: int := 0x7FFF_FFFF_FFFF_FFFF
  const LONG_MODULUS: int := 0x1_0000_0000_0000_0000

  /** A Java `long`, such as the milliseconds of a `java.util.Date`. */
  type Long = x: int | MIN_LONG <= x <= MAX_LONG

  /** Two's-complement wrap-around of a `long` addition or multiplication. */
  function WrapLong(x: int): (r: Long)
    ensures (r - x) % LONG_MODULUS == 0
    ensures MIN_LONG <= x <= MAX_LONG ==> r == x
  {
    (x - MIN_LONG) % LONG_MODULUS + MIN_LONG
  }

  // ---------------------------------------------------------------------------
  // Entities and transfer objects

  /** Stands for a `java.util.UUID` primary key. */
  type Uuid = nat

  /** A granted authority; `getAuthority()` is its `description`. */
  datatype Permission = Permission(uuid: Option<Uuid>, description: string)

  /** The user fields the authentication core reads: the login name, the
      password hash and the ordered permission list. */
  datatype User = User(username: string, password: string, permissions: seq<Permission>)

  /** The user table, keyed by user name (the column is unique). */
  type UserRepository = map<string, User>

  /** `userRepository.findByUsername(username)`; `None` is a null result. */
  function FindByUsername(users: UserRepository, username: Option<string>): Option<User> {
    if username.Some? && username.value in users then Some(users[username.value]) else None
  }

  /** The sign-in request body; either field may be null. */
  datatype AccountCredentialsDTO = AccountCredentialsDTO(username: Option<string>, password: Option<string>)

  /** Sign-in credentials once the controller has rejected null fields. */
  datatype AccountCredentials = AccountCredentials(username: string, password: string)

  /** The sign-in and refresh response. Dates are milliseconds since the epoch. */
  datatype TokenDTO = TokenDTO(
    username: Option<string>,
    authenticated: bool,
    created: Long,
    expiration: Long,
    accessToken: string,
    refreshToken: string)

  /** Spring's `UsernamePasswordAuthenticationToken(principal, credentials, authorities)`. */
  datatype Authentication = Authentication(principal: User, credentials: string, authorities: seq<Permission>)

  // ---------------------------------------------------------------------------
  // JWT

  /** The payload claims of a JWT as the library hands them back: each is
      absent (`null` from its getter) when the token does not carry it. */
  datatype Claims = Claims(
    roles: Option<seq<string>>,
    issuedAt: Option<Long>,
    expiresAt: Option<Long>,
    subject: Option<string>,
    issuer: Option<string>)

  /** `Algorithm.HMAC256(secret.getBytes())`: HMAC-SHA256 keyed by `secret`. */
  datatype Algorithm = HMAC256(secret: string)

  /** The characters of a compact JWS: the base64url alphabet and the dots
      that separate header, payload and signature. */
  predicate IsCompactChar(c: char) {
    ('A' <= c <= 'Z') || ('a' <= c <= 'z') || ('0' <= c <= '9') || c == '-' || c == '_' || c == '.'
  }

  predicate IsCompact(token: string) {
    forall k :: 0 <= k < |token| ==> IsCompactChar(token[k])
  }

  /** Whether the library's verifier accepts a token with these claims at
      time `at`: it rejects a token whose `exp` lies before `at` and one whose
      `iat` lies after `at` (a token used before it was issued). */
  predicate TimelyAt(c: Claims, at: Long) {
    && (c.expiresAt.None? || at <= c.expiresAt.value)
    && (c.issuedAt.None? || c.issuedAt.value <= at)
  }

  /** What verifying a correctly signed token with these claims gives at `at`. */
  function VerifiedAt(c: Claims, at: Long): (r: Option<Claims>)
    ensures r.Some? <==> TimelyAt(c, at)
    ensures r.Some? ==> r.value == c
  {
    if TimelyAt(c, at) then Some(c) else None
  }

  /** The JWT library: `sign` builds and signs a compact token for the
      claims; `verify` checks a token's signature and its dates against the
      clock reading `at` and gives back its claims, or `None` when it throws
      `JWTVerificationException` (including `TokenExpiredException`). */
  datatype JwtLibrary = JwtLibrary(
    sign: (Algorithm, Claims) -> string,
    verify: (Algorithm, string, Long) -> Option<Claims>)
  {
    /** What the model relies on from RFC 7519 compact serialisation with
        the HS256 algorithm of section 3.2 of RFC 7518, and from the
        verifier's default date checks: verifying a token with the key that
        signed it gives back exactly the signed claims while the token is
        timely and fails otherwise, and a signed token is made of base64url
        characters and dots only. */
    ghost predicate Sound() {
      && (forall a, c, at :: verify(a, sign(a, c), at) == VerifiedAt(c, at))
      && (forall a, c :: IsCompact(sign(a, c)))
    }

    /** `token` verifies with key `a` to the claims `c` at every time at
        which `c` is timely, and fails at every other time. */
    ghost predicate Carries(a: Algorithm, token: string, c: Claims) {
      forall at: Long :: verify(a, token, at) == VerifiedAt(c, at)
    }
  }

  /** A compact token has no character that `trim` or `strip` removes and no space. */
  lemma CompactTokenIsClean(token: string)
    requires IsCompact(token)
    ensures token == [] || (!IsTrimmed(token[0]) && !IsTrimmed(token[|token| - 1]))
    ensures token == [] || (!IsWhitespace(token[0]) && !IsWhitespace(token[|token| - 1]))
    ensures ' ' !in token
  {
  }

  // ---------------------------------------------------------------------------
  // Exceptions

  /** The exceptions that leave the authentication core. */
  datatype AuthError =
    | JwtVerification            // `JWTVerificationException` thrown by `verify`
    | StringIndexOutOfBounds     // `substring` with an end before its beginning
    | NullPointer                // a missing claim or user dereferenced
    | Runtime(message: string)
    | BadCredentials(message: string)
    | UsernameNotFound(message: string)
}
