/**
 * The authentication workflow: registration behind a geo-gate and a password policy,
 * verification of the emailed one-time code, and login, over a credential store
 * mapping each email to its account.
 *
 * Collaborators enter as values: the password encoder as a pair of functions, the
 * geolocation lookup as an oracle from IP to country (or null), the random number
 * behind the code as a parameter, the clock as `now`, and the mailer as a port object
 * whose sends may fail.
 */
module Authentication {
  import opened Results
  import opened JavaStrings
  import opened Location
  import opened Jwt
  import opened Dto
  import opened Email

  // ---------------------------------------------------------------------------
  // Password policy
  // ---------------------------------------------------------------------------

  /** `[A-Z]`. */
  const UpperCase: CharClass := Range('A', 'Z')

  /** The symbol class `[!@#$%^&*()_+\-=\[\]{};':"\\|,.<>/?]`, escapes resolved. */
  const SpecialChars: CharClass := OneOf({
    '!', '@', '#', '$', '%', '^', '&', '*', '(', ')', '_', '+', '-', '=', '[', ']',
    '{', '}', ';', '\'', ':', '"', '\\', '|', ',', '.', '<', '>', '/', '?'
  })

  lemma PolicyClassesExcludeLineTerminators()
    ensures ExcludesLineTerminators(AsciiDigit)
    ensures ExcludesLineTerminators(UpperCase)
    ensures ExcludesLineTerminators(SpecialChars)
  {
  }

  /**
   * `isValidPassword(password)`: at least 8 characters and each of `.*\d.*`,
   * `.*[A-Z].*` and `.*[symbols].*` matches the whole password. Since `.` does not
   * match a line terminator, a password holding one never passes.
   */
  function IsValidPassword(password: string): (valid: bool)
    ensures valid <==>
      && |password| >= 8
      && NoLineTerminator(password)
      && ContainsClass(password, AsciiDigit)
      && ContainsClass(password, UpperCase)
      && ContainsClass(password, SpecialChars)
  {
    PolicyClassesExcludeLineTerminators();
    MatchesSomewhereIff(password, AsciiDigit);
    MatchesSomewhereIff(password, UpperCase);
    MatchesSomewhereIff(password, SpecialChars);
    if |password| < 8 then false
    else
      var hasNumber := MatchesSomewhere(password, AsciiDigit);
      var hasUpperCase := MatchesSomewhere(password, UpperCase);
      var hasSpecialChar := MatchesSomewhere(password, SpecialChars);
      hasNumber && hasUpperCase && hasSpecialChar
  }

  /** "abcdefg1" has no upper-case letter and no symbol; "Abcde1!" is one character short. */
  lemma RejectedPasswordExamples()
    ensures !IsValidPassword("abcdefg1")
    ensures !IsValidPassword("Abcde1!")
  {
  }

  /** "Abcdefg1!" and the 8-character "Abcdef1!" meet the policy. */
  lemma AcceptedPasswordExamples()
    ensures IsValidPassword("Abcdefg1!")
    ensures IsValidPassword("Abcdef1!")
  {
    assert "Abcdefg1!"[0] == 'A' && "Abcdefg1!"[7] == '1' && "Abcdefg1!"[8] == '!';
    assert "Abcdef1!"[0] == 'A' && "Abcdef1!"[6] == '1' && "Abcdef1!"[7] == '!';
  }

  /** A trailing line terminator defeats `.*`, so an otherwise valid password fails. */
  lemma LineTerminatorExample()
    ensures !IsValidPassword("Abcdefg1!\n")
  {
    assert "Abcdefg1!\n"[9] == '\n';
  }

  /** '~' is not in the symbol set. */
  lemma TildeExample()
    ensures !IsValidPassword("Abcdefg1~")
  {
    var p := "Abcdefg1~";
    forall i | 0 <= i < |p| ensures 'A' <= p[i] <= 'Z' || 'a' <= p[i] <= 'z' || '0' <= p[i] <= '9' || p[i] == '~' {
      assert i == 0 || i == 1 || i == 2 || i == 3 || i == 4 || i == 5 || i == 6 || i == 7 || i == 8;
    }
    assert !ContainsClass(p, SpecialChars);
  }

  // ---------------------------------------------------------------------------
  // Client IP
  // ---------------------------------------------------------------------------

  /** The parts of the servlet request the service reads. */
  datatype HttpRequest = HttpRequest(forwardedFor: Option<string>, remoteAddr: string)

  /** What indexing the empty array that `split` returns for a header of commas only throws. */
  const EmptySplitIndexMessage: string := "Index 0 out of bounds for length 0"

  /**
   * `getClientIp()`: the remote address when X-Forwarded-For is absent or empty, else the
   * header's first comma-separated entry, untrimmed. A header of commas only splits into
   * an empty array, and taking its element 0 throws.
   */
  function GetClientIp(http: HttpRequest): (ip: Result<string, string>)
    ensures http.forwardedFor.None? || http.forwardedFor == Some("") ==> ip == Success(http.remoteAddr)
    ensures http.forwardedFor.Some? && http.forwardedFor.value != "" ==>
      var header := http.forwardedFor.value;
      && (ip.Failure? <==> AllCommas(header))
      && (ip.Failure? ==> ip.error == EmptySplitIndexMessage)
      && (ip.Success? ==>
            && ip.value <= header
            && ',' !in ip.value
            && (|ip.value| < |header| ==> header[|ip.value|] == ','))
  {
    match http.forwardedFor
    case None => Success(http.remoteAddr)
    case Some(header) =>
      if header == "" then Success(http.remoteAddr)
      else
        SplitOnCommaFirst(header);
        var parts := SplitOnComma(header);
        if |parts| == 0 then Failure(EmptySplitIndexMessage) else Success(parts[0])
  }

  // ---------------------------------------------------------------------------
  // Verification code
  // ---------------------------------------------------------------------------

  /** Exactly six ASCII digits. */
  predicate IsVerificationCode(s: string)
  {
    |s| == 6 && forall i :: 0 <= i < |s| ==> IsAsciiDigit(s[i])
  }

  /**
   * `generateVerificationCode()`, where `random` is the integer part of a uniform draw in [0, 1) times 10^6:
   * `%06d` of it, six digits that spell `random` with leading zeros.
   */
  function GenerateVerificationCode(random: nat): (code: string)
    requires random < 1000000
    ensures IsVerificationCode(code)
    ensures DecimalValue(code) == random
  {
    assert Pow10(6) == 1000000;
    FormatZeroPaddedRoundTrip(random, 6);
    FormatZeroPadded(random, 6)
  }

  /** Codes and random draws correspond one to one: every six-digit string is drawn from exactly one number. */
  lemma VerificationCodeBijection(code: string, random: nat)
    requires random < 1000000
    requires IsVerificationCode(code)
    ensures GenerateVerificationCode(random) == code <==> random == DecimalValue(code)
    ensures DecimalValue(code) < 1000000 && GenerateVerificationCode(DecimalValue(code)) == code
  {
    DecimalValueRoundTrip(code);
    assert Pow10(6) == 1000000;
  }

  // ---------------------------------------------------------------------------
  // Accounts and collaborators
  // ---------------------------------------------------------------------------

  /** A stored account: the encoded password, whether the email is verified, the pending code. */
  datatype User = User(password: string, verified: bool, verificationCode: Option<string>)

  /** Verified accounts hold no code; unverified ones hold a six-digit code. */
  predicate WellFormed(u: User)
  {
    && (u.verified <==> u.verificationCode.None?)
    && (u.verificationCode.Some? ==> IsVerificationCode(u.verificationCode.value))
  }

  /** The password encoder: a one-way `encode` and the comparison `matches(raw, encoded)`. */
  datatype PasswordEncoder = PasswordEncoder(encode: string -> string, matches: (string, string) -> bool)
  {
    /** An encoded password is matched by the password it was encoded from. */
    ghost predicate Sound()
    {
      forall raw :: matches(raw, encode(raw))
    }
  }

  const RegistrationSuccessMessage: string := "Registration successful. Please check your email for verification code."
  const WeakPasswordMessage: string :=
    "Password must be at least 8 characters long and contain at least one number, one uppercase letter, and one special character"
  const UserNotFoundMessage: string := "User not found"

  /**
   * The checks `register` makes before it creates an account, in order: the client IP
   * can be determined, its country is not blocked, the email is new, the passwords
   * agree, the password meets the policy. The message of the first that fails, or
   * `None` (exactly when all of them pass) when the account is to be created.
   */
  function RegisterRejection(users: map<string, User>, request: RegisterRequest, http: HttpRequest,
                             countryOf: string -> Option<string>): (rejection: Option<string>)
    ensures rejection.None? <==>
      && Admitted(http, countryOf)
      && request.email !in users
      && request.password == request.confirmPassword
      && IsValidPassword(request.password)
  {
    match GetClientIp(http)
    case Failure(e) => Some("Registration failed: " + e)
    case Success(clientIp) =>
      var country := countryOf(clientIp);
      if IsBlockedCountry(country) then Some("Registration not allowed from " + country.value)
      else if request.email in users then Some("Email already registered")
      else if request.password != request.confirmPassword then Some("Passwords do not match")
      else if !IsValidPassword(request.password) then Some(WeakPasswordMessage)
      else None
  }

  /** The request comes from an IP that resolves and a country that is not blocked. */
  predicate Admitted(http: HttpRequest, countryOf: string -> Option<string>)
  {
    GetClientIp(http).Success? && !IsBlockedCountry(countryOf(GetClientIp(http).value))
  }

  /** A blocked country is reported before anything about the email or the passwords is looked at. */
  lemma BlockedCountryComesFirst(users: map<string, User>, request: RegisterRequest, http: HttpRequest,
                                 countryOf: string -> Option<string>)
    requires GetClientIp(http).Success?
    requires IsBlockedCountry(countryOf(GetClientIp(http).value))
    ensures RegisterRejection(users, request, http, countryOf)
            == Some("Registration not allowed from " + countryOf(GetClientIp(http).value).value)
  {
  }

  /** A failed geolocation lookup never stops registration. */
  lemma FailedLookupFailsOpen(http: HttpRequest, countryOf: string -> Option<string>)
    requires GetClientIp(http).Success? && countryOf(GetClientIp(http).value).None?
    ensures Admitted(http, countryOf)
  {
  }

  /** An email already in the store is refused, whatever the passwords are. */
  lemma RegisteredEmailIsRefused(users: map<string, User>, request: RegisterRequest, http: HttpRequest,
                                 countryOf: string -> Option<string>)
    requires request.email in users
    ensures RegisterRejection(users, request, http, countryOf).Some?
    ensures Admitted(http, countryOf) ==> RegisterRejection(users, request, http, countryOf) == Some("Email already registered")
  {
  }

  /** Differing passwords are reported as such even when the password is also weak. */
  lemma MismatchComesBeforeStrength(users: map<string, User>, request: RegisterRequest, http: HttpRequest,
                                    countryOf: string -> Option<string>)
    requires Admitted(http, countryOf) && request.email !in users
    requires request.password != request.confirmPassword
    ensures RegisterRejection(users, request, http, countryOf) == Some("Passwords do not match")
  {
  }

  // ---------------------------------------------------------------------------
  // The service
  // ---------------------------------------------------------------------------

  class AuthenticationService {
    /** The credential store: each registered email and its account. */
    var users: map<string, User>
    const encoder: PasswordEncoder
    const jwt: JwtConfig
    const emailService: EmailService

    predicate Valid()
      reads this
    {
      forall email :: email in users ==> WellFormed(users[email])
    }

    constructor (encoder: PasswordEncoder, jwt: JwtConfig, emailService: EmailService)
      ensures Valid() && users == map[]
      ensures this.encoder == encoder && this.jwt == jwt && this.emailService == emailService
    {
      this.users := map[];
      this.encoder := encoder;
      this.jwt := jwt;
      this.emailService := emailService;
    }

    /**
     * `register(request)`. A rejected request changes nothing. An accepted one stores an
     * unverified account with the encoded password and a fresh code, and only then mails
     * the code; when mailing fails the account stays stored but the response is a failure.
     */
    method Register(request: RegisterRequest, http: HttpRequest, countryOf: string -> Option<string>, random: nat)
      returns (response: AuthenticationResponse)
      requires Valid()
      requires random < 1000000
      modifies this, emailService
      ensures Valid()
      ensures RegisterRejection(old(users), request, http, countryOf).Some? ==>
        && response == WithoutToken(false, RegisterRejection(old(users), request, http, countryOf).value)
        && users == old(users)
        && emailService.outbox == old(emailService.outbox)
      ensures RegisterRejection(old(users), request, http, countryOf).None? ==>
        var code := GenerateVerificationCode(random);
        && users == old(users)[request.email := User(encoder.encode(request.password), false, Some(code))]
        && ((&& emailService.outbox == old(emailService.outbox) + [OtpEmail(request.email, code)]
             && response == WithoutToken(true, RegistrationSuccessMessage))
            || (&& emailService.outbox == old(emailService.outbox)
                && response == WithoutToken(false, "Registration failed: " + SendFailureMessage)))
    {
      var clientIp := GetClientIp(http);
      if clientIp.Failure? {
        return WithoutToken(false, "Registration failed: " + clientIp.error);
      }

      var country := countryOf(clientIp.value);
      if IsBlockedCountry(country) {
        return WithoutToken(false, "Registration not allowed from " + country.value);
      }

      if request.email in users {
        return WithoutToken(false, "Email already registered");
      }
      if request.password != request.confirmPassword {
        return WithoutToken(false, "Passwords do not match");
      }

      var password := request.password;
      if !IsValidPassword(password) {
        return WithoutToken(false, WeakPasswordMessage);
      }
      var user := User(encoder.encode(request.password), false, Some(GenerateVerificationCode(random)));
      users := users[request.email := user];

      var delivered := emailService.SendOtpEmail(request.email, user.verificationCode.value);
      if !delivered {
        return WithoutToken(false, "Registration failed: " + SendFailureMessage);
      }

      return WithoutToken(true, RegistrationSuccessMessage);
    }

    /**
     * `verify(email, otp)`. An unknown email, an account already verified or a code that is
     * not exactly the stored one is refused and changes nothing. The stored code verifies
     * the account, clears the code and answers with a token for the email.
     */
    method Verify(email: string, otp: string, now: int) returns (response: AuthenticationResponse)
      requires Valid()
      modifies this
      ensures Valid()
      ensures email !in old(users) ==>
        response == WithoutToken(false, "Verification failed: " + UserNotFoundMessage) && users == old(users)
      ensures email in old(users) && old(users[email]).verified ==>
        response == WithoutToken(false, "Email already verified") && users == old(users)
      ensures email in old(users) && !old(users[email]).verified && old(users[email]).verificationCode != Some(otp) ==>
        response == WithoutToken(false, "Invalid OTP code") && users == old(users)
      ensures email in old(users) && !old(users[email]).verified && old(users[email]).verificationCode == Some(otp) ==>
        && users == old(users)[email := old(users[email]).(verified := true, verificationCode := None)]
        && response == match GenerateToken(jwt, email, now)
                       case Success(token) => AuthenticationResponse(true, "Email verified successfully", Some(token))
                       case Failure(e) => WithoutToken(false, "Verification failed: " + e.Message())
    {
      if email !in users {
        return WithoutToken(false, "Verification failed: " + UserNotFoundMessage);
      }
      var user := users[email];

      if user.verified {
        return WithoutToken(false, "Email already verified");
      }

      if user.verificationCode != Some(otp) {
        return WithoutToken(false, "Invalid OTP code");
      }

      user := user.(verified := true, verificationCode := None);
      users := users[email := user];

      var token := GenerateToken(jwt, email, now);
      if token.Failure? {
        return WithoutToken(false, "Verification failed: " + token.error.Message());
      }
      return AuthenticationResponse(true, "Email verified successfully", Some(token.value));
    }

    /**
     * `login(request)`, which never changes the store: an unknown email, an unverified
     * account (whatever the password) and a password the encoder does not match are
     * refused; otherwise the answer carries a token for the email.
     */
    method Login(request: AuthenticationRequest, now: int) returns (response: AuthenticationResponse)
      ensures request.email !in users ==>
        response == WithoutToken(false, "Login failed: " + UserNotFoundMessage)
      ensures request.email in users && !users[request.email].verified ==>
        response == WithoutToken(false, "Please verify your email first")
      ensures request.email in users && users[request.email].verified
              && !encoder.matches(request.password, users[request.email].password) ==>
        response == WithoutToken(false, "Invalid password")
      ensures response.success <==>
        && request.email in users
        && users[request.email].verified
        && encoder.matches(request.password, users[request.email].password)
        && jwt.signingKey.Some?
      ensures response.success ==>
        response.token == Some(GenerateToken(jwt, request.email, now).value) && response.message == "Login successful"
      ensures request.email in users && users[request.email].verified
              && encoder.matches(request.password, users[request.email].password) && jwt.signingKey.None? ==>
        response == WithoutToken(false, "Login failed: " + KeyUnavailable.Message())
    {
      if request.email !in users {
        return WithoutToken(false, "Login failed: " + UserNotFoundMessage);
      }
      var user := users[request.email];

      if !user.verified {
        return WithoutToken(false, "Please verify your email first");
      }

      if !encoder.matches(request.password, user.password) {
        return WithoutToken(false, "Invalid password");
      }

      var token := GenerateToken(jwt, request.email, now);
      if token.Failure? {
        return WithoutToken(false, "Login failed: " + token.error.Message());
      }
      return AuthenticationResponse(true, "Login successful", Some(token.value));
    }
  }

  /**
   * The account lifecycle, from the contracts above alone. Once registration has stored
   * the account (whether or not the mail went out): a wrong code is refused and the
   * stored code survives it; the stored code verifies the account and yields a token
   * valid for the email; the same code a second time is refused as already verified;
   * the password then logs in; and registering the email again fails.
   */
  method AccountLifecycle(svc: AuthenticationService, request: RegisterRequest, http: HttpRequest,
                          countryOf: string -> Option<string>, random: nat, wrongOtp: string, now: int,
                          again: RegisterRequest, http2: HttpRequest, random2: nat)
    returns (registered: AuthenticationResponse, wrong: AuthenticationResponse, verified: AuthenticationResponse,
             reverified: AuthenticationResponse, login: AuthenticationResponse, duplicate: AuthenticationResponse)
    requires svc.Valid()
    requires random < 1000000 && random2 < 1000000
    requires svc.encoder.Sound() && svc.jwt.signingKey.Some? && svc.jwt.jwtExpiration >= 0
    requires RegisterRejection(svc.users, request, http, countryOf).None?
    requires wrongOtp != GenerateVerificationCode(random)
    requires again.email == request.email
    modifies svc, svc.emailService
    ensures svc.Valid()
    ensures wrong == WithoutToken(false, "Invalid OTP code")
    ensures verified.success && verified.token.Some? && IsTokenValid(svc.jwt, verified.token.value, request.email, now)
    ensures reverified == WithoutToken(false, "Email already verified")
    ensures login.success && login.token.Some? && IsTokenValid(svc.jwt, login.token.value, request.email, now)
    ensures !duplicate.success
    ensures svc.users == old(svc.users)[request.email := User(svc.encoder.encode(request.password), true, None)]
  {
    var code := GenerateVerificationCode(random);
    registered := svc.Register(request, http, countryOf, random);
    wrong := svc.Verify(request.email, wrongOtp, now);
    verified := svc.Verify(request.email, code, now);
    IssuedTokenValidity(svc.jwt, request.email, now, request.email, now);
    reverified := svc.Verify(request.email, code, now);
    login := svc.Login(AuthenticationRequest(request.email, request.password), now);
    RegisteredEmailIsRefused(svc.users, again, http2, countryOf);
    duplicate := svc.Register(again, http2, countryOf, random2);
  }
}
