/**
 * The token service: issuing a signed bearer token for an email, reading the
 * email back out of it, and deciding whether a token is still valid for an email.
 *
 * HMAC-SHA256 and the compact JWS encoding are not modelled: a token is the claims
 * it carries together with the key its signature was computed under, and the
 * signature verifies exactly when that key is the configured one. The clock is the
 * parameter `now` (milliseconds since the epoch).
 */
module Jwt {
  import opened Results

  /** The raw bytes of an HMAC-SHA256 key. */
  type Key = seq<bv8>

  /**
   * The service's immutable configuration. `signingKey` is what the key derivation
   * produces from the configured secret: `None` when Base64 decoding of the secret or
   * the minimum key-size check throws. `jwtExpiration` is the token lifetime in ms.
   */
  datatype JwtConfig = JwtConfig(signingKey: Option<Key>, jwtExpiration: int)

  /** The registered claims the service reads and writes; a claim absent from a token is `None`. */
  datatype Claims = Claims(subject: Option<string>, issuedAt: Option<int>, expiration: Option<int>)

  /** A token string as the parser sees it: a signed claim set, or anything that is not one. */
  datatype Token = Jws(claims: Claims, signedWith: Key) | Malformed

  /** What the parser or the key derivation throws; `NullClaim` is the null dereference of a missing claim. */
  datatype JwtError = KeyUnavailable | MalformedJwt | SignatureMismatch | NullClaim
  {
    function Message(): string
    {
      match this
      case KeyUnavailable => "signing key could not be derived from the configured secret"
      case MalformedJwt => "token is not a signed JWT"
      case SignatureMismatch => "JWT signature does not match locally computed signature"
      case NullClaim => "required claim is missing"
    }
  }

  /**
   * `generateToken(email)`: subject = email, issued at `now`, expiring `jwtExpiration`
   * ms later, signed with the configured key. Fails only when no key can be derived.
   */
  function GenerateToken(cfg: JwtConfig, email: string, now: int): (r: Result<Token, JwtError>)
    ensures r.Success? <==> cfg.signingKey.Some?
    ensures r.Failure? ==> r.error == KeyUnavailable
    ensures r.Success? ==>
      ExtractAllClaims(cfg, r.value) == Success(Claims(Some(email), Some(now), Some(now + cfg.jwtExpiration)))
  {
    match cfg.signingKey
    case None => Failure(KeyUnavailable)
    case Some(key) => Success(Jws(Claims(Some(email), Some(now), Some(now + cfg.jwtExpiration)), key))
  }

  /**
   * `extractAllClaims(token)`: the key is derived first, then the token is parsed and its
   * signature checked; every failure is rethrown to the caller.
   */
  function ExtractAllClaims(cfg: JwtConfig, t: Token): (r: Result<Claims, JwtError>)
    ensures r.Success? <==> cfg.signingKey.Some? && t.Jws? && t.signedWith == cfg.signingKey.value
    ensures r.Success? ==> r.value == t.claims
    ensures cfg.signingKey.None? ==> r == Failure(KeyUnavailable)
  {
    match cfg.signingKey
    case None => Failure(KeyUnavailable)
    case Some(key) =>
      match t
      case Malformed => Failure(MalformedJwt)
      case Jws(claims, signedWith) =>
        if signedWith != key then Failure(SignatureMismatch) else Success(claims)
  }

  /**
   * `extractEmail(token)`: the subject claim (null when absent). It does not look at the
   * expiry, and parse and signature errors propagate to the caller.
   */
  function ExtractEmail(cfg: JwtConfig, t: Token): (r: Result<Option<string>, JwtError>)
    ensures r.Success? <==> cfg.signingKey.Some? && t.Jws? && t.signedWith == cfg.signingKey.value
    ensures r.Success? ==> r.value == t.claims.subject
    ensures r.Failure? ==> r.error == ExtractAllClaims(cfg, t).error
  {
    match ExtractAllClaims(cfg, t)
    case Failure(e) => Failure(e)
    case Success(claims) => Success(claims.subject)
  }

  /**
   * `isTokenExpired(token)`: expired when the expiry lies strictly before `now`. A token
   * without an expiry claim makes the source dereference null, which throws.
   */
  function IsTokenExpired(cfg: JwtConfig, t: Token, now: int): (r: Result<bool, JwtError>)
    ensures r.Success? <==> ExtractAllClaims(cfg, t).Success? && t.claims.expiration.Some?
    ensures r.Success? ==> (r.value <==> t.claims.expiration.value < now)
  {
    match ExtractAllClaims(cfg, t)
    case Failure(e) => Failure(e)
    case Success(claims) =>
      match claims.expiration
      case None => Failure(NullClaim)
      case Some(expiry) => Success(expiry < now)
  }

  /**
   * `isTokenValid(token, email)`: the token parses under the configured key, its subject
   * is `email` and `now` has not passed its expiry. Every exception on the way (parse or
   * signature failure, a missing claim) is caught and yields `false`.
   */
  function IsTokenValid(cfg: JwtConfig, t: Token, email: string, now: int): (valid: bool)
    ensures valid <==>
      && ExtractAllClaims(cfg, t).Success?
      && t.claims.subject == Some(email)
      && t.claims.expiration.Some?
      && now <= t.claims.expiration.value
  {
    match ExtractEmail(cfg, t)
    case Failure(_) => false
    case Success(emailInToken) =>
      match IsTokenExpired(cfg, t, now)
      case Failure(_) => false
      case Success(expired) =>
        // comparing a null subject throws, and that too is caught
        emailInToken.Some? && emailInToken.value == email && !expired
  }

  /** Round trip: the email put into a token is the email read back, whenever the token is read. */
  lemma ExtractEmailRoundTrip(cfg: JwtConfig, email: string, issued: int)
    requires cfg.signingKey.Some?
    ensures ExtractEmail(cfg, GenerateToken(cfg, email, issued).value) == Success(Some(email))
  {
  }

  /**
   * A token issued for `email` at `issued` is valid for `other` at `now` exactly when
   * `other` is `email` and `now` is at most `issued + jwtExpiration`.
   */
  lemma IssuedTokenValidity(cfg: JwtConfig, email: string, issued: int, other: string, now: int)
    requires cfg.signingKey.Some?
    ensures IsTokenValid(cfg, GenerateToken(cfg, email, issued).value, other, now)
            <==> other == email && now <= issued + cfg.jwtExpiration
  {
  }

  /** The expiry instant itself is still inside the lifetime; one millisecond later is not. */
  lemma ExpiryBoundary(cfg: JwtConfig, email: string, issued: int)
    requires cfg.signingKey.Some?
    ensures IsTokenValid(cfg, GenerateToken(cfg, email, issued).value, email, issued + cfg.jwtExpiration)
    ensures !IsTokenValid(cfg, GenerateToken(cfg, email, issued).value, email, issued + cfg.jwtExpiration + 1)
  {
  }

  /** An expired token is no longer valid, yet its email can still be extracted. */
  lemma ExpiredTokenStillYieldsEmail(cfg: JwtConfig, email: string, issued: int, now: int)
    requires cfg.signingKey.Some?
    requires now > issued + cfg.jwtExpiration
    ensures !IsTokenValid(cfg, GenerateToken(cfg, email, issued).value, email, now)
    ensures ExtractEmail(cfg, GenerateToken(cfg, email, issued).value) == Success(Some(email))
  {
  }

  /** A token that fails to parse, or is signed under another key, is invalid for every email at every time. */
  lemma UnreadableTokenIsInvalid(cfg: JwtConfig, t: Token, email: string, now: int)
    requires ExtractAllClaims(cfg, t).Failure?
    ensures !IsTokenValid(cfg, t, email, now)
    ensures ExtractEmail(cfg, t).Failure?
  {
  }
}
