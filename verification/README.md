# Authentication core of the stock-control API, modelled in Dafny

The stock-control backend (`api-controle-de-estoque`) signs users in and
hands out a pair of JWTs: an access token and a refresh token. It exchanges
a refresh token for a new pair. This project models that core in Dafny and
proves what it does:

- `JwtTokenProvider` does the token work: issuing the pair, stripping the
  `Bearer ` prefix, verifying a token, checking its expiry and binding the
  directory user. Modules `JwtTokens` (pure functions over the provider's
  fields) and `JwtProvider` (the provider object, with `init` and the
  imperative `createRefreshToken`).
- `AuthServiceImpl` makes the sign-in and refresh decisions over the user
  repository and the password encoder. Module `AuthService`.
- `AuthController` validates requests and maps outcomes to 400, 401 and 200.
  Module `AuthController`.
- The transfer objects, entities and JWT claims are in module `Entities`.
  The `java.lang.String` operations the code relies on (`contains`,
  `startsWith`, `substring`, `trim`, `strip`, `isBlank`) are in module
  `JavaString`.

The model has no clock, cryptography or servlet context. Clock readings
(milliseconds as a Java `long`) and the issuer URL are parameters. Where
the code reads the clock twice, the model has two readings: `verifiedAt` is
the JWT verifier's own reading and `now` is the code's `new Date()`. The
auth0 JWT library is the value `JwtLibrary(sign, verify)`, where `verify`
also receives the verifier's clock reading. Its predicate `Sound()` states
the two facts the proofs rely on. First, verifying a token with the key
that signed it returns the signed claims while the token is timely (its
`iat` is not after the reading and its `exp` is not before it) and throws
otherwise. Second, a signed token contains only base64url characters and
dots. This is the HS256 compact serialisation of RFC 7519, using the
algorithm of section 3.2 of RFC 7518, with the date checks of the java-jwt
3.x verifier, which still accepts a token at its `exp`. The 4.x verifier
rejects a token at its `exp`. The password encoder is the function
`matches(raw, hash)`. The user repository is a `map<string, User>`. Java
`null` is `None`, and an exception is a `Failure` of the `AuthError`
datatype.

The code's quirks are kept, and lemmas state them:
- The expiry comparison in `validateToken` is strict (`Date.before`), so
  a token whose `exp` equals the second reading is still valid.
- `validateToken` can answer `false` for a token of the provider's. The
  verifier inside `decodeToken` must still accept the token, and the
  `new Date()` of the expiry comparison must already be past its `exp`. In
  the model, whose dates are milliseconds, that needs the two clock readings
  to differ. With the library's whole-second dates and the 3.x inclusive
  check, one reading inside the expiry second is already enough. Only under
  the 4.x strict check does `false` need two different readings.
- A refresh reuses the roles inside the token, not the directory's roles.
- Nothing distinguishes an access token from a refresh token.
- The refresh endpoint checks that the user named in the path exists, then
  verifies the token. It never compares that name with the token's subject.
- `createRefreshToken` tests for the prefix with `contains` but cuts the
  first seven characters. It also always drops the last character, so a
  plain `Bearer <token>` header loses the token's last character.
- With the real service injected, the controller's 401 branch is never
  taken. A failed sign-in or refresh leaves the controller as an exception.

## Model

| member | source | states |
|---|---|---|
| `JavaString.Substring` | src/main/java/br/com/controleestoque/security/jwt/JwtTokenProvider.java:55-56 | `substring(begin, end)` succeeds exactly when `0 <= begin <= end <= length`, and then returns the `end - begin` characters starting at `begin` |
| `JavaString.ContainsIffOccurrence` | src/main/java/br/com/controleestoque/security/jwt/JwtTokenProvider.java:54 | `contains` holds exactly when the part occurs at some offset |
| `JavaString.ContainsIsLongEnough` | src/main/java/br/com/controleestoque/security/jwt/JwtTokenProvider.java:54-55 | a string that contains `"Bearer "` is at least seven long, so `substring(7)` cannot throw |
| `JavaString.MissingCharNotContained` | src/main/java/br/com/controleestoque/security/jwt/JwtTokenProvider.java:54 | a string lacking one of the part's characters does not contain the part |
| `JavaString.StripEndsIsSlice` | src/main/java/br/com/controleestoque/security/jwt/JwtTokenProvider.java:57 | `trim`/`strip` keep one slice `s[i..j]`: all before `i` and from `j` on is removed, and the slice starts and ends with a kept character |
| `JavaString.StripEndsKeepsClean` | src/main/java/br/com/controleestoque/security/jwt/JwtTokenProvider.java:85 | stripping is the identity on a string whose ends are not removable |
| `JavaString.StripEndsIdempotent` | src/main/java/br/com/controleestoque/security/jwt/JwtTokenProvider.java:57 | stripping twice equals stripping once |
| `JavaString.BlankIffStripsToEmpty` | src/main/java/br/com/controleestoque/controller/AuthController.java:90 | `isBlank()` holds exactly when `strip()` gives the empty string |
| `Entities.WrapLong` | src/main/java/br/com/controleestoque/security/jwt/JwtTokenProvider.java:89 | `long` arithmetic: the result is congruent to the exact value modulo 2^64 and equals it when it fits in a `long` |
| `Entities.CompactTokenIsClean` | src/main/java/br/com/controleestoque/security/jwt/JwtTokenProvider.java:84-85 | a signed token has no space and no character that `trim` or `strip` removes at either end |
| `JwtTokens.SignedTokenSurvivesStrip` | src/main/java/br/com/controleestoque/security/jwt/JwtTokenProvider.java:84-85 | the `.strip()` after `.sign(algorithm)` leaves a signed token unchanged |
| `JwtTokens.GetAccessToken` | src/main/java/br/com/controleestoque/security/jwt/JwtTokenProvider.java:74-86 | for a sound library the access token verifies, at every time it is timely, to exactly: roles = permission descriptions in order, issued-at `now`, the given expiry, subject = user name, issuer = request URL; at every other time verification throws |
| `JwtTokens.GetRefreshToken` | src/main/java/br/com/controleestoque/security/jwt/JwtTokenProvider.java:88-97 | the refresh token verifies, while timely, to the same roles, issued-at and subject, expiry `now + 3*validity` in `long` arithmetic, and no issuer |
| `JwtTokens.CreateAccessToken` | src/main/java/br/com/controleestoque/security/jwt/JwtTokenProvider.java:45-51 | the pair has the given user name, `authenticated = true`, `created = now` and `expiration = now + validity`; both tokens verify to the claims above |
| `JwtTokens.PairSharesClaims` | src/main/java/br/com/controleestoque/security/jwt/JwtTokenProvider.java:78-94 | at any time within both lifetimes, access and refresh claims share subject, issued-at and ordered roles; only the access claims carry the issuer |
| `JwtTokens.RefreshOutlivesAccess` | src/main/java/br/com/controleestoque/security/jwt/JwtTokenProvider.java:89 | without `long` overflow, access expiry is `now + v` and refresh expiry `now + 3v`, strictly later when `v > 0` |
| `JwtTokens.DefaultLifetimes` | src/main/java/br/com/controleestoque/security/jwt/JwtTokenProvider.java:33-34 | with the default validity of 3600000 ms, the access token lives one hour and the refresh token three |
| `JwtTokens.RefreshExpiryWrapsAround` | src/main/java/br/com/controleestoque/security/jwt/JwtTokenProvider.java:89 | a validity of 2^62 ms makes the refresh expiry wrap to -2^62, before the access expiry |
| `JwtTokens.RefreshCandidate` | src/main/java/br/com/controleestoque/security/jwt/JwtTokenProvider.java:54-58 | no `"Bearer "` anywhere: the input passes unchanged; exactly `"Bearer "`: StringIndexOutOfBounds; otherwise `trim(s[7..len-1])` |
| `JwtTokens.CompactTokenPassesUnchanged` | src/main/java/br/com/controleestoque/security/jwt/JwtTokenProvider.java:54 | a bare signed token reaches the verifier unchanged |
| `JwtTokens.BearerHeaderWithExtraCharYieldsToken` | src/main/java/br/com/controleestoque/security/jwt/JwtTokenProvider.java:54-57 | `"Bearer " + token` plus any one BMP character (one UTF-16 unit) yields exactly the token |
| `JwtTokens.BearerHeaderLosesLastChar` | src/main/java/br/com/controleestoque/security/jwt/JwtTokenProvider.java:56 | a plain `"Bearer " + token` yields the token without its last character |
| `JwtTokens.BarePrefixFails` | src/main/java/br/com/controleestoque/security/jwt/JwtTokenProvider.java:56 | `createRefreshToken("Bearer ")` throws StringIndexOutOfBoundsException |
| `JwtTokens.CreateRefreshToken` | src/main/java/br/com/controleestoque/security/jwt/JwtTokenProvider.java:53-72 | prefix errors propagate; then a failed verification at the verifier's reading gives JWTVerificationException, a verified token without `roles` a NullPointerException, and one with roles a success whose new pair is for the token's subject and carries the token's own roles in order, `created = now`, `expiration = now + validity` for the second reading `now` |
| `JwtTokens.RefreshOfSignedToken` | src/main/java/br/com/controleestoque/security/jwt/JwtTokenProvider.java:59-71 | input that leads to a token signed with the provider's key and timely at the verifier's reading gives exactly `createAccessToken(subject, permissions rebuilt from the token's roles)` dated at the second reading |
| `JwtTokens.UntimelySignedTokenRejected` | src/main/java/br/com/controleestoque/security/jwt/JwtTokenProvider.java:59-60 | input that leads to a token signed with the provider's key but expired, or issued after `now`, fails with JWTVerificationException |
| `JwtTokens.RolesSurviveRebuild` | src/main/java/br/com/controleestoque/security/jwt/JwtTokenProvider.java:63-69 | rebuilding permissions from a `roles` claim and reading their descriptions back gives the claim itself, in order |
| `JwtTokens.RefreshRotatesPair` | src/main/java/br/com/controleestoque/security/jwt/JwtTokenProvider.java:53-72 | an issued refresh token that is within its lifetime at the verifier's reading, bare or as `Bearer ` plus one BMP character, gives a new pair with the same subject, the same ordered roles and fresh dates |
| `JwtTokens.RefreshOutsideLifetimeRejected` | src/main/java/br/com/controleestoque/security/jwt/JwtTokenProvider.java:59-60 | an issued refresh token that the verifier sees after its expiry or before its issue date fails with JWTVerificationException, in both forms |
| `JwtTokens.AccessTokenAlsoRefreshes` | src/main/java/br/com/controleestoque/security/jwt/JwtTokenProvider.java:59-60 | there is no kind check: an access token within its lifetime is exchanged for a new pair as well |
| `JwtTokens.DecodeToken` | src/main/java/br/com/controleestoque/security/jwt/JwtTokenProvider.java:105-109 | after `init`, decoding verifies with exactly the key the provider signs with, at the current time |
| `JwtTokens.GetAuthentication` | src/main/java/br/com/controleestoque/security/jwt/JwtTokenProvider.java:99-103 | a failed verification throws; a verified token succeeds exactly when its subject is in the directory, and otherwise gives a NullPointerException; on success the principal is that directory user, with that user's permissions and empty credentials |
| `JwtTokens.AuthenticationUsesDirectoryRoles` | src/main/java/br/com/controleestoque/security/jwt/JwtTokenProvider.java:99-103 | for an issued token within its lifetime, the bound authorities are the directory's current permissions, whatever the token's roles; an unknown subject gives a NullPointerException |
| `JwtTokens.ResolveToken` | src/main/java/br/com/controleestoque/security/jwt/JwtTokenProvider.java:111-117 | a token is returned exactly when the header is present and starts with `"Bearer "`, and then `"Bearer " + token` is the header |
| `JwtTokens.ResolveTokenRoundTrip` | src/main/java/br/com/controleestoque/security/jwt/JwtTokenProvider.java:111-117 | `resolveToken("Bearer " + t) == t` |
| `JwtTokens.ValidateToken` | src/main/java/br/com/controleestoque/security/jwt/JwtTokenProvider.java:119-129 | a failed verification at the verifier's reading throws first; a missing expiry gives "Expired or invalid JWT token!"; otherwise the result is true exactly when the second reading `now <= expiresAt` |
| `JwtTokens.ValidateIssuedTokens` | src/main/java/br/com/controleestoque/security/jwt/JwtTokenProvider.java:119-129 | after `init`, the provider's own tokens throw JWTVerificationException unless the verifier's reading lies within their lifetime, and then the answer is whether the second reading is not past the expiry; at one instant a token is valid at its expiry millisecond |
| `JwtTokens.ValidateFalseBetweenReadings` | src/main/java/br/com/controleestoque/security/jwt/JwtTokenProvider.java:119-125 | a token signed with the provider's key, timely at the verifier's reading but expired by the second reading, is answered `false` |
| `JwtProvider.JwtTokenProvider.constructor` | src/main/java/br/com/controleestoque/security/jwt/JwtTokenProvider.java:30-37 | the injected secret, validity and repository are stored; the algorithm is still null |
| `JwtProvider.JwtTokenProvider.Init` | src/main/java/br/com/controleestoque/security/jwt/JwtTokenProvider.java:39-43 | the secret becomes its Base64 encoding and the algorithm is HMAC256 of the encoded secret, so the signing and decoding keys agree |
| `JwtProvider.JwtTokenProvider.CreateRefreshToken` | src/main/java/br/com/controleestoque/security/jwt/JwtTokenProvider.java:53-72 | once `init` has run, the three reassignments and the verify/rebuild steps give exactly the result of `JwtTokens.CreateRefreshToken` |
| `AuthService.AttemptSignIn` | src/main/java/br/com/controleestoque/service/impl/AuthServiceImpl.java:28-44 | inside the `try`, an unknown user throws UsernameNotFound with the user name in its message, and a wrong password throws BadCredentials |
| `AuthService.SignIn` | src/main/java/br/com/controleestoque/service/impl/AuthServiceImpl.java:26-49 | succeeds exactly when the user exists and the password matches, then equals `createAccessToken(username, user.permissions)`; every failure is BadCredentials "Invalid username/password supplied!" |
| `AuthService.UnknownUserAndWrongPasswordLookAlike` | src/main/java/br/com/controleestoque/service/impl/AuthServiceImpl.java:39-47 | the two failures differ inside the `try`, but `signIn` returns the identical failure for both |
| `AuthService.MatcherOnlyForKnownUsers` | src/main/java/br/com/controleestoque/service/impl/AuthServiceImpl.java:35-36 | for an unknown user the result does not depend on the password encoder |
| `AuthService.SignInTokensCarryDirectoryRoles` | src/main/java/br/com/controleestoque/service/impl/AuthServiceImpl.java:37 | a successful sign-in is authenticated, for the given user name, and both tokens verify to claims with the user's current permission descriptions |
| `AuthService.RefreshToken` | src/main/java/br/com/controleestoque/service/impl/AuthServiceImpl.java:51-62 | unknown user: UsernameNotFound "Username: <name> not found"; known user: exactly `createRefreshToken(header)` with the header unchanged |
| `AuthService.RefreshIgnoresDirectoryRoles` | src/main/java/br/com/controleestoque/service/impl/AuthServiceImpl.java:55-58 | any two known path names give the same result; within the token's lifetime the new pair keeps the token's subject and roles, not the directory's |
| `AuthController.InvalidForSignIn` | src/main/java/br/com/controleestoque/controller/AuthController.java:88-92 | a sign-in request is rejected exactly when the DTO or a field is null, or a field strips to the empty string |
| `AuthController.InvalidForRefreshToken` | src/main/java/br/com/controleestoque/controller/AuthController.java:94-96 | a refresh request is rejected exactly when the header or the path name is null, or strips to the empty string |
| `AuthController.Respond` | src/main/java/br/com/controleestoque/controller/AuthController.java:54-58 | a thrown exception propagates; null gives 401 "Invalid credentials. Unable to sign in."; a token gives 200 with that token unchanged |
| `AuthController.SignIn` | src/main/java/br/com/controleestoque/controller/AuthController.java:45-59 | invalid parameters give 400 "Invalid client request! Check your parameters."; otherwise the service gets the non-null fields; every response is 400, 401 or 200, and 200 exactly with a token body |
| `AuthController.RefreshToken` | src/main/java/br/com/controleestoque/controller/AuthController.java:72-86 | same mapping for refresh: 400 before any service call, the same 401 text as sign-in, 200 only with a token body |
| `AuthController.BadRequestSkipsService` | src/main/java/br/com/controleestoque/controller/AuthController.java:48-50 | for an invalid request the response does not depend on the service, so the service is not called |
| `AuthController.NullOrBlankIffStripsToEmpty` | src/main/java/br/com/controleestoque/controller/AuthController.java:89-96 | `s == null || s.isBlank()` holds exactly when `s` is null or `strip()` empties it |
| `AuthController.ControllerTestRequests` | src/test/java/br/com/controleestoque/controller/AuthControllerTest.java:79-129 | `("", "")` is rejected for both endpoints; `("user", "password")` and `("user", "validRefreshToken")` are accepted; a null DTO and a white-space user name are rejected |
| `AuthController.RealSignInNeverAnswers401` | src/main/java/br/com/controleestoque/controller/AuthController.java:52-58 | with `AuthServiceImpl` injected, a valid request gives 200 with the issued pair or leaves as BadCredentials, never 401 |
| `AuthController.RealRefreshNeverAnswers401` | src/main/java/br/com/controleestoque/controller/AuthController.java:79-85 | with `AuthServiceImpl` injected, a response is always 200, and an unknown user leaves as UsernameNotFound |

## Left out

- HMAC-SHA256 signing and JWT encoding/verification (auth0 `JWT`, `Algorithm`) are a foreign library. They are the abstract `JwtLibrary`, and the round trip with its date checks is the hypothesis `Sound()`. Verification can fail (`None`) on any other string.
- The java-jwt version is not fixed by the modelled files, because the build file is not part of this model. `Sound()` follows the 3.x date checks. Under 4.x a token is already rejected at its `exp` millisecond. That moves the upper boundary of every lemma whose `requires` bounds the verifier's reading by an expiry down by one millisecond. These are `PairSharesClaims`, `RefreshOfSignedToken`, `RefreshRotatesPair`, `RefreshOutsideLifetimeRejected`, `AccessTokenAlsoRefreshes`, `AuthenticationUsesDirectoryRoles`, `ValidateIssuedTokens`, `ValidateFalseBetweenReadings` and `AuthService.RefreshIgnoresDirectoryRoles`.
- The verifier's `nbf` check is not modelled, since the provider never sets `nbf`. The verifier's leeway is taken as zero, which is its default.
- JwtTokens.CreateAccessToken: JWT dates are whole seconds, and the library truncates `iat` and `exp` when encoding. The model's round trip returns the milliseconds unchanged, and the verifier's date checks compare milliseconds.
- A `roles` claim that is not a list of strings (the library's decode exception) is not told apart from a missing one. Both fail before a pair is built.
- BCrypt password matching (`SecurityConfig.java:48-50`) is a cryptographic library call. It is the uninterpreted parameter `matches`.
- `Base64.getEncoder().encodeToString(secretKey.getBytes())` in `init` is a library call. It is the parameter `encodeBase64`.
- `new Date()`, the JWT verifier's own clock, the issuer URL from `ServletUriComponentsBuilder`, and logging are I/O. The first three are the parameters `now`, `verifiedAt` and `issuerUrl`. The model does not relate the two readings to each other. Logging is dropped.
- `AuthServiceImpl.signIn` and `refreshToken` called directly with a null DTO or null strings are not modelled (NullPointerException, or the encoder's IllegalArgumentException). Their only caller, `AuthController`, rejects those first.
- How Spring turns an exception that leaves the controller into an HTTP status is not modelled. No handler for these exceptions is visible. The model reports the exception itself.
- The `SecurityConfig` filter chain and route matchers are framework configuration. Its first matcher `/**` permits every request. The JWT filter and `JwtConfigurer` are not part of this model.
- `User` fields the core never reads (`uuid`, `fullName`, the account status flags) are not modelled.
- Java strings are UTF-16, and the model's strings are Unicode scalar values. Unpaired surrogates are not modelled. The model's `trim`, `strip` and `isBlank` match Java's on every character except unpaired surrogates.
- All CRUD services, controllers, repositories, mappers, exception handlers, Flyway start-up and Swagger configuration are persistence and documentation plumbing. They are outside this core.
