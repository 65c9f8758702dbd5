# Admin panel authentication core, modelled in Dafny

This project models the authentication workflow of a Spring-based admin panel. It covers three parts:

- **Account workflow** (`AuthenticationService`). Registration is gated by the client's country, checks for a duplicate email, compares the password with its confirmation and applies a password policy. Only then does it store an unverified account with a six-digit one-time code and mail the code. Verification moves the account from pending to verified exactly once and issues a token. Login needs a verified account and a matching password and issues a token. Every failure comes back as a structured `AuthenticationResponse(success = false, message)`; nothing is thrown.
- **Tokens** (`JwtService`). It issues a signed token whose subject is the email and whose expiry is the lifetime after the issue time. It reads the email back, and it decides whether a token is valid for an email at a given time. Parse and signature errors are absorbed into `false`.
- **Geo-gate** (`LocationService`). A country is blocked when it is exactly one of "Syria", "Afghanistan", "Iran". A failed lookup (null) is never blocked.

Files and modules:

- `results.dfy` (`Results`): `Option` for Java's null and `Result` for a value-or-exception.
- `java_strings.dfy` (`JavaStrings`): the three `java.lang.String` operations the core depends on, each with its own correctness lemma:
  - `split(",")`, including the removal of trailing empty fields;
  - `matches(".*C.*")` for a one-character class, where `.` does not match line terminators;
  - `String.format("%06d", n)`.
- `location.dfy` (`Location`): the denylist.
- `jwt.dfy` (`Jwt`): token claims, issue, parse, expiry and validity.
- `email.dfy` (`Email`): the mailer as a port object. A send either delivers (and is added to `outbox`) or fails.
- `dto.dfy` (`Dto`): the request and response shapes.
- `authentication.dfy` (`Authentication`): the password policy, client-IP extraction, the code generator, the ordered registration checks, and the class `AuthenticationService`. The class holds the credential store as a `map<string, User>` and has the methods `Register`, `Verify` and `Login`.

The class invariant `Valid()` is the account invariant: a verified account holds no code, and an unverified one holds exactly six ASCII digits. Every method preserves it.

Collaborators are modelled as follows:

| collaborator | modelled as |
|---|---|
| password encoder | `PasswordEncoder(encode, matches)`: two functions |
| geolocation lookup | an oracle `string -> Option<string>`; `None` stands for any failed lookup |
| `Math.random()` | the integer `random` in `[0, 1000000)`: the integer part of a uniform draw in [0, 1) times 10^6 |
| clock | the parameter `now`, in milliseconds |
| HMAC signature | a token records the key it was signed with; it verifies exactly when that key is the configured one |
| `getSigningKey()` | `JwtConfig.signingKey`; `None` when Base64 decoding or the key-size check of the secret would throw |

Points where the code's behaviour is easy to misread:

- **Expiry instant.** A token counts as expired only when its expiry is strictly before now (`Date.before`). At the expiry instant itself it is still valid (`Jwt.ExpiryBoundary`).
- **Client-IP failure comes first.** Before the geo check, computing the client IP can itself fail. An `X-Forwarded-For` header made only of commas splits into an empty array. Indexing it throws, and registration answers "Registration failed: Index 0 out of bounds for length 0".
- **Missing account message.** A missing account is reported as "Verification failed: User not found" or "Login failed: User not found". The message comes from the caught `RuntimeException`, not from a dedicated error kind.
- **Saved before the failure.** `Verify` saves the verified account before it generates the token. If token generation throws (no usable signing key), the response is a failure but the account stays verified.

## Model

| member | source | states |
|---|---|---|
| `Location.IsBlockedCountry` | src/main/java/com/admin/service/LocationService.java:17-31 | blocked iff the country is present and is exactly one of "Syria", "Afghanistan", "Iran" |
| `Location.FailedLookupIsAdmitted` | src/main/java/com/admin/service/LocationService.java:21-31 | a failed lookup (null) is never blocked: the gate fails open |
| `Location.MatchingIsCaseSensitive` | src/main/java/com/admin/service/LocationService.java:31 | "syria", "IRAN", "Iran " and "" are not blocked: matching is exact |
| `Jwt.GenerateToken` | src/main/java/com/admin/security/JwtService.java:30-36 | succeeds iff a signing key is available; a generated token parses back to subject = email, issuedAt = now, expiry = now + jwtExpiration |
| `Jwt.ExtractAllClaims` | src/main/java/com/admin/security/JwtService.java:79-90 | claims are returned iff the key is available, the token is a JWS and its signature is under the configured key; every other case is an error passed to the caller |
| `Jwt.ExtractEmail` | src/main/java/com/admin/security/JwtService.java:63-66 | the subject claim (possibly null) of a readable token, whatever its expiry; otherwise the parse error, propagated unchanged |
| `Jwt.IsTokenExpired` | src/main/java/com/admin/security/JwtService.java:71-74 | on a readable token with an expiry: expired iff expiry < now; a missing expiry or a parse error throws |
| `Jwt.IsTokenValid` | src/main/java/com/admin/security/JwtService.java:45-56 | true iff the token is readable, its subject equals the email, and it has an expiry with now <= expiry; every parse, signature or null-claim failure gives false instead of an exception |
| `Jwt.ExtractEmailRoundTrip` | src/main/java/com/admin/security/JwtService.java:30-66 | the email read from a token generated for an email is that email |
| `Jwt.IssuedTokenValidity` | src/main/java/com/admin/security/JwtService.java:30-74 | a token issued for e at t is valid for e' at now iff e' == e and now <= t + jwtExpiration, so it is invalid for every other email |
| `Jwt.ExpiryBoundary` | src/main/java/com/admin/security/JwtService.java:71-74 | valid at exactly the expiry instant, invalid one millisecond later (service code; see ## Left out) |
| `Jwt.ExpiredTokenStillYieldsEmail` | src/main/java/com/admin/security/JwtService.java:63-74 | after expiry the token is invalid, but `extractEmail` still returns the email: it does not check expiry (service code; see ## Left out) |
| `Jwt.UnreadableTokenIsInvalid` | src/main/java/com/admin/security/JwtService.java:45-56 | a malformed token, or one signed under another key, is invalid for every email at every time, while `extractEmail` reports the error |
| `JavaStrings.Fields` | src/main/java/com/admin/service/AuthenticationService.java:130 | the comma-separated fields; the first is the longest comma-free prefix of the header |
| `JavaStrings.DropTrailingEmpty` | src/main/java/com/admin/service/AuthenticationService.java:130 | `split` removes only trailing empty fields: the result is a prefix of the fields, ends in a non-empty field, and everything dropped is empty |
| `JavaStrings.FieldsAllEmptyIff` | src/main/java/com/admin/service/AuthenticationService.java:130 | every field is empty iff the string consists of commas only |
| `JavaStrings.SplitOnCommaFirst` | src/main/java/com/admin/service/AuthenticationService.java:130 | for a non-empty header, `split(",")` is empty iff the header is all commas; otherwise its element 0 is the first field |
| `JavaStrings.SplitOnComma` | src/main/java/com/admin/service/AuthenticationService.java:130 | `split(",")`: the input itself when it holds no comma, otherwise the fields up to the last non-empty one, every dropped field being empty; what element 0 is, is stated by `SplitOnCommaFirst` |
| `JavaStrings.MatchesDotStar` | src/main/java/com/admin/service/AuthenticationService.java:118-120 | the `.*` part of `matches`, one character at a time; its meaning is stated by `MatchesDotStarIff` |
| `JavaStrings.MatchesSomewhere` | src/main/java/com/admin/service/AuthenticationService.java:118-120 | `matches(".*C.*")` as the regex engine tries it; its meaning is stated by `MatchesSomewhereIff` |
| `JavaStrings.MatchesDotStarIff` | src/main/java/com/admin/service/AuthenticationService.java:118-120 | `.*` matches a string iff it holds no line terminator |
| `JavaStrings.MatchesSomewhereIff` | src/main/java/com/admin/service/AuthenticationService.java:118-120 | for a class without line terminators, `.*C.*` matches iff the string holds a character of C and no line terminator |
| `JavaStrings.FormatZeroPadded` | src/main/java/com/admin/service/AuthenticationService.java:110 | `%0wd` of n < 10^w is exactly w ASCII digits |
| `JavaStrings.FormatZeroPaddedRoundTrip` | src/main/java/com/admin/service/AuthenticationService.java:110 | the digits produced denote n again |
| `JavaStrings.DecimalValueBound` | src/main/java/com/admin/service/AuthenticationService.java:110 | w digits denote a number below 10^w |
| `JavaStrings.DecimalValueRoundTrip` | src/main/java/com/admin/service/AuthenticationService.java:110 | formatting the value of a digit string to its own width gives the string back |
| `Dto.WithoutToken` | src/main/java/com/admin/dto/AuthenticationResponse.java:8-11 | the two-argument constructor: the given success flag and message, and a null token |
| `Authentication.PolicyClassesExcludeLineTerminators` | src/main/java/com/admin/service/AuthenticationService.java:118-120 | none of `\d`, `[A-Z]` and the symbol class contains a line terminator |
| `Authentication.IsValidPassword` | src/main/java/com/admin/service/AuthenticationService.java:113-123 | valid iff length >= 8, no line terminator, and at least one ASCII digit, one of A-Z and one of the 30 listed symbols |
| `Authentication.RejectedPasswordExamples` | src/main/java/com/admin/service/AuthenticationService.java:113-123 | "abcdefg1" (no upper case, no symbol) and the 7-character "Abcde1!" fail |
| `Authentication.AcceptedPasswordExamples` | src/main/java/com/admin/service/AuthenticationService.java:113-123 | "Abcdefg1!" and the 8-character "Abcdef1!" pass |
| `Authentication.LineTerminatorExample` | src/main/java/com/admin/service/AuthenticationService.java:118-122 | "Abcdefg1!" followed by a newline fails |
| `Authentication.TildeExample` | src/main/java/com/admin/service/AuthenticationService.java:120-122 | "Abcdefg1~" fails: '~' is not in the symbol set |
| `Authentication.GetClientIp` | src/main/java/com/admin/service/AuthenticationService.java:125-131 | remote address when the header is absent or empty; otherwise the header's first comma-separated entry (a prefix ending at the first comma), or an index failure iff the header is all commas |
| `Authentication.GenerateVerificationCode` | src/main/java/com/admin/service/AuthenticationService.java:109-111 | six ASCII digits whose decimal value is the random draw |
| `Authentication.VerificationCodeBijection` | src/main/java/com/admin/service/AuthenticationService.java:109-111 | every six-digit code comes from exactly one draw in [0, 1000000): its decimal value, which is in range and generates it |
| `Authentication.RegisterRejection` | src/main/java/com/admin/service/AuthenticationService.java:29-48 | the pre-save checks pass iff the IP resolves to an unblocked country, the email is new, the passwords agree and the password is valid |
| `Authentication.BlockedCountryComesFirst` | src/main/java/com/admin/service/AuthenticationService.java:29-35 | from a blocked country the answer is "Registration not allowed from <country>", whatever the store and the request hold |
| `Authentication.FailedLookupFailsOpen` | src/main/java/com/admin/service/AuthenticationService.java:32-33 | when the lookup for the client IP fails, the request passes the geo-gate |
| `Authentication.RegisteredEmailIsRefused` | src/main/java/com/admin/service/AuthenticationService.java:37-39 | a stored email is always refused, and once past the gate with "Email already registered", whatever the passwords |
| `Authentication.MismatchComesBeforeStrength` | src/main/java/com/admin/service/AuthenticationService.java:40-48 | differing passwords give "Passwords do not match" even when the password is also weak |
| `Authentication.AuthenticationService.constructor` | src/main/java/com/admin/service/AuthenticationService.java:15-24 | a service over an empty store with the given collaborators |
| `Authentication.AuthenticationService.Register` | src/main/java/com/admin/service/AuthenticationService.java:26-63 | a rejection returns the first failing check's message and changes neither store nor outbox. Otherwise exactly one entry is added under the email: encoded password, unverified, the code for `random`. It is saved before mailing, then either the code was mailed to that email and the answer is success without a token, or nothing was mailed and the answer is "Registration failed: Failed to send OTP email" with the account still stored. The invariant is preserved |
| `Authentication.AuthenticationService.Verify` | src/main/java/com/admin/service/AuthenticationService.java:65-87 | an unknown email, an already verified account or a code that is not exactly the stored one fails and changes nothing (the code is kept). The stored code sets verified, clears the code, changes no other entry, and answers success with the token for the email, or the token error |
| `Authentication.AuthenticationService.Login` | src/main/java/com/admin/service/AuthenticationService.java:89-107 | never modifies the store. It fails for an unknown email, answers "Please verify your email first" for an unverified account whatever the password, and "Invalid password" when `matches` fails. It succeeds iff the account is verified, the password matches and a key is available, and then carries the token for the email; without a key it answers "Login failed: " with the key error |
| `Authentication.AccountLifecycle` | src/main/java/com/admin/service/AuthenticationService.java:26-107 | once an account is stored: a wrong code fails; the right code gives a token valid now; that code again gives "Email already verified"; login succeeds with a valid token; a second registration of the email fails |
| `Email.EmailService.SendOtpEmail` | src/main/java/com/admin/service/EmailService.java:16-29 | either records exactly one message (recipient, code) or records nothing, which stands for the rethrown failure |

## Left out

- SMTP delivery, the message subject and body text, and logging in every class: I/O. The mailer is only a port that succeeds or fails.
- The HTTP call to the geolocation service: network I/O. It is the oracle `countryOf`.
- HMAC-SHA256, the compact JWS encoding, Base64 decoding of the secret and the key-size check: library code. They are abstracted into `Token.signedWith` and `JwtConfig.signingKey`, assuming an ideal signature (no forgeries).
- The JWT library's own expiry check inside the parser, which would also throw for an expired token: library code. The model follows the service code, so `extractEmail` reads an expired token. `isTokenValid` answers `false` for an expired token either way.
- The JWT library storing dates in whole seconds: library code. Claims hold milliseconds.
- `Jwt.GenerateToken`: `new Date()` and `System.currentTimeMillis()` are two clock reads in the source. The model reads the clock once, so `expiry == issuedAt + jwtExpiration` holds exactly.
- `Jwt.GenerateToken`: the overflow of `long` in `currentTimeMillis() + jwtExpiration` is not modelled. Integers are unbounded, because realistic clock values and lifetimes are far from the limit.
- The exception messages of library failures (key derivation, parsing) are placeholder texts in `JwtError.Message`, since the library is not part of this model.
- The random salt of the password hash: `encode` is a deterministic function, and only `matches(raw, encode(raw))` is assumed where needed (`PasswordEncoder.Sound`).
- `Math.random()` and the floating-point product and cast: the model takes their integer outcome in `[0, 1000000)`.
- `String.format` under a default locale with non-ASCII digits: ASCII digits are assumed.
- Java strings are sequences of UTF-16 code units. The model has one `char` per unit and does not model surrogate pairs, so `length()` for supplementary characters is not modelled.
- `Authentication.IsValidPassword`: it takes a non-null string. The source's null test is unreachable: `register` dereferences the password at line 40 first, and the request DTOs are `@NotBlank`.
- Bean Validation on the request DTOs (`@Email`, `@NotBlank`) runs before the service and is not modelled. All request fields are non-null strings. `OtpVerificationRequest` is not part of this model.
- Failures of the user repository itself (database errors) and races between concurrent registrations of one email: the store is a map that is updated atomically.
- `model.User` and `UserRepository` are not part of this model. An account is `User(password, verified, verificationCode)`, keyed by its email, and a new `User` is assumed to start unverified.
- `SecurityConfig.java` (filter chain, CORS, session policy), `AuthController.java` (routing only) and `ProductService.java` (catalog CRUD): no authentication logic.
