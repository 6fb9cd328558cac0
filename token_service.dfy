/** The token service: JWT settings, the signing-key guard run when the
    service is built, the access-token claim list, the refresh-token
    plaintext generator and the refresh-token hash. HMAC-SHA256 signing and
    the compact JWT serialisation are not modelled: an access token is the
    descriptor handed to the token handler. SHA-256 is a parameter. */
module Tokens {
  import opened Common
  import opened Encoding
  import opened RefreshTokens
  import opened Identity

  // ---------------------------------------------------------------------
  // Settings
  // ---------------------------------------------------------------------

  datatype JwtSettings = JwtSettings(
    issuer: string,
    audience: string,
    secret: string,
    accessTokenExpirationMinutes: int,
    refreshTokenExpirationDays: int)

  /** `new JwtSettings()`: empty strings, 15 access minutes and 30 refresh days. */
  function DefaultJwtSettings(): (s: JwtSettings)
    ensures s.secret == "" && s.issuer == "" && s.audience == ""
    ensures AccessTokenLifetime(s) == 15 && RefreshTokenLifetimeDays(s) == 30
  {
    JwtSettings("", "", "", 15, 30)
  }

  /** `Math.Max(1, AccessTokenExpirationMinutes)`: never below one minute, and the
      configured value whenever that is positive. */
  function AccessTokenLifetime(settings: JwtSettings): (minutes: int)
    ensures minutes >= 1 && minutes >= settings.accessTokenExpirationMinutes
    ensures settings.accessTokenExpirationMinutes >= 1 ==> minutes == settings.accessTokenExpirationMinutes
    ensures settings.accessTokenExpirationMinutes < 1 ==> minutes == 1
  {
    if settings.accessTokenExpirationMinutes < 1 then 1 else settings.accessTokenExpirationMinutes
  }

  /** `Math.Max(1, RefreshTokenExpirationDays)`: never below one day, and the configured
      value whenever that is positive. */
  function RefreshTokenLifetimeDays(settings: JwtSettings): (days: int)
    ensures days >= 1 && days >= settings.refreshTokenExpirationDays
    ensures settings.refreshTokenExpirationDays >= 1 ==> days == settings.refreshTokenExpirationDays
    ensures settings.refreshTokenExpirationDays < 1 ==> days == 1
  {
    if settings.refreshTokenExpirationDays < 1 then 1 else settings.refreshTokenExpirationDays
  }

  // ---------------------------------------------------------------------
  // The signing-key guard (constructor)
  // ---------------------------------------------------------------------

  const SecretMissingMessage: string := "JWT secret is not configured. Use a strong base64 secret."
  const SecretTooShortMessage: string := "JWT secret is too short. Use a 256-bit+ key (base64 preferred)."

  /** 256 bits. */
  const MinimumKeyBytes: int := 32

  /** `SecurityAlgorithms.HmacSha256`. */
  const HmacSha256: string := "HS256"

  /** The key material: the base64 decoding of the secret when it decodes (three bytes
      per four characters at most), and its UTF-8 bytes when decoding throws (one to four
      bytes per character). */
  function KeyBytes(secret: string): (k: seq<byte>)
    ensures Base64Decode(secret).Some? ==> k == Base64Decode(secret).value && 4 * |k| <= 3 * |secret|
    ensures Base64Decode(secret).None? ==> k == Utf8Encode(secret) && |secret| <= |k| <= 4 * |secret|
  {
    DecodedLengthBound(secret);
    match Base64Decode(secret)
    case Some(bytes) => bytes
    case None => Utf8Encode(secret)
  }

  /** The token service once built: its settings and its symmetric signing key. */
  datatype TokenService = TokenService(settings: JwtSettings, signingKey: seq<byte>)

  /** `new TokenService(options)`: fails on a blank secret and on key material shorter
      than 256 bits, and otherwise keeps the settings and the key. */
  function NewTokenService(settings: JwtSettings): (r: Result<TokenService, Exception>)
    ensures IsNullOrWhiteSpace(settings.secret) ==>
      r == Failure(InvalidOperationException(SecretMissingMessage))
    ensures !IsNullOrWhiteSpace(settings.secret) ==>
      (r.Success? <==> |KeyBytes(settings.secret)| >= MinimumKeyBytes)
    ensures !IsNullOrWhiteSpace(settings.secret) && r.Failure? ==>
      r.error == InvalidOperationException(SecretTooShortMessage)
    ensures r.Success? ==> r.value.settings == settings && |r.value.signingKey| >= MinimumKeyBytes
    ensures r.Success? ==>
      (r.value.signingKey ==
         if Base64Decode(settings.secret).Some? then Base64Decode(settings.secret).value
         else Utf8Encode(settings.secret))
  {
    if IsNullOrWhiteSpace(settings.secret) then
      Failure(InvalidOperationException(SecretMissingMessage))
    else
      var keyBytes := KeyBytes(settings.secret);
      if |keyBytes| < MinimumKeyBytes then Failure(InvalidOperationException(SecretTooShortMessage))
      else Success(TokenService(settings, keyBytes))
  }

  /** A secret of fewer than eight characters never yields a 256-bit key: base64 gives at
      most three bytes per four characters and UTF-8 at most four bytes per character. */
  lemma ShortSecretRejected(settings: JwtSettings)
    requires |settings.secret| < 8
    ensures NewTokenService(settings).Failure?
  {
    DecodedLengthBound(settings.secret);
  }

  /** A secret that is the base64 text of at least 32 bytes is accepted, and the key is
      exactly those bytes. */
  lemma Base64SecretAccepted(settings: JwtSettings, key: seq<byte>)
    requires |key| >= MinimumKeyBytes
    requires settings.secret == Base64Encode(key)
    ensures NewTokenService(settings) == Success(TokenService(settings, key))
  {
    var s := Base64Encode(key);
    DecodeEncode(key);
    assert !IsWhiteSpace(s[0]);
  }

  /** A secret made only of base64 alphabet characters, whose length is a multiple of four,
      is decoded rather than taken as text: up to 40 such characters are rejected, although
      their UTF-8 bytes alone would reach 32 from 32 characters on. */
  lemma Base64LookingSecretRejected(settings: JwtSettings)
    requires |settings.secret| % 4 == 0 && |settings.secret| <= 40
    requires forall i :: 0 <= i < |settings.secret| ==> IsAlphabetChar(settings.secret[i])
    ensures NewTokenService(settings).Failure?
  {
    AlphabetTextDecodes(settings.secret);
  }

  // ---------------------------------------------------------------------
  // Access tokens
  // ---------------------------------------------------------------------

  datatype Claim = Claim(claimType: string, value: string)

  const SubClaim: string := "sub"
  const NameIdentifierClaim: string := "http://schemas.xmlsoap.org/ws/2005/05/identity/claims/nameidentifier"
  const EmailClaim: string := "email"
  const JtiClaim: string := "jti"
  const RoleClaim: string := "http://schemas.microsoft.com/ws/2008/06/identity/claims/role"

  /** The token descriptor given to the JWT handler to sign and serialise. */
  datatype SecurityToken = SecurityToken(
    issuer: string,
    audience: string,
    claims: seq<Claim>,
    notBefore: Time,
    expires: Time,
    signingKey: seq<byte>,
    algorithm: string)

  /** What an access token for `user` with `roles`, minted at `now` with id `jti`, is:
      issuer, audience and key from the service; valid from `now` for the access lifetime;
      the claims subject, name identifier, email and token id, then one role claim per
      role in the given order (none when `roles` is null). */
  predicate IsAccessToken(service: TokenService, token: SecurityToken, user: User,
                          roles: Option<seq<string>>, now: Time, jti: string)
  {
    var rs := roles.OrElse([]);
    && token.issuer == service.settings.issuer
    && token.audience == service.settings.audience
    && token.signingKey == service.signingKey
    && token.algorithm == HmacSha256
    && token.notBefore == now
    && token.expires == now + AccessTokenLifetime(service.settings)
    && |token.claims| == 4 + |rs|
    && token.claims[..4] == [Claim(SubClaim, user.id), Claim(NameIdentifierClaim, user.id),
                             Claim(EmailClaim, user.email.OrElse("")), Claim(JtiClaim, jti)]
    && forall i :: 0 <= i < |rs| ==> token.claims[4 + i] == Claim(RoleClaim, rs[i])
  }

  /** `CreateAccessToken`: rejects a null user; otherwise builds the claim list and the
      token descriptor. `now` and `jti` stand for the clock and `Guid.NewGuid()`. */
  method CreateAccessToken(service: TokenService, user: Option<User>, roles: Option<seq<string>>,
                           now: Time, jti: string)
    returns (r: Result<SecurityToken, Exception>)
    ensures user.None? <==> r.Failure?
    ensures user.None? ==> r.error == ArgumentNullException("user")
    ensures r.Success? ==> IsAccessToken(service, r.value, user.value, roles, now, jti)
    ensures r.Success? ==> r.value.expires - r.value.notBefore >= 1
  {
    if user.None? {
      return Failure(ArgumentNullException("user"));
    }
    var u := user.value;
    var expires := now + AccessTokenLifetime(service.settings);
    var claims := [Claim(SubClaim, u.id), Claim(NameIdentifierClaim, u.id),
                   Claim(EmailClaim, u.email.OrElse("")), Claim(JtiClaim, jti)];
    if roles.Some? {
      var rs := roles.value;
      for i := 0 to |rs|
        invariant |claims| == 4 + i
        invariant claims[..4] == [Claim(SubClaim, u.id), Claim(NameIdentifierClaim, u.id),
                                  Claim(EmailClaim, u.email.OrElse("")), Claim(JtiClaim, jti)]
        invariant forall j :: 0 <= j < i ==> claims[4 + j] == Claim(RoleClaim, rs[j])
      {
        claims := claims + [Claim(RoleClaim, rs[i])];
      }
    }
    r := Success(SecurityToken(service.settings.issuer, service.settings.audience, claims,
                               now, expires, service.signingKey, HmacSha256));
  }

  // ---------------------------------------------------------------------
  // Refresh-token plaintext and hash
  // ---------------------------------------------------------------------

  /** The `size` argument's default. */
  const DefaultRefreshTokenSize: int := 64

  /** The number of random bytes drawn: `size`, raised to 32 when smaller. */
  function RefreshTokenByteCount(size: int): (n: nat)
    ensures n >= 32 && n >= size
    ensures size >= 32 ==> n == size
    ensures size < 32 ==> n == 32
  {
    if size < 32 then 32 else size
  }

  /** `GenerateRefreshTokenPlaintext(size)`: the base64 text of the random bytes drawn
      (`randomBytes` stands for `RandomNumberGenerator.GetBytes`). The text is never empty
      and decodes back to exactly those bytes. */
  function GenerateRefreshTokenPlaintext(size: int, randomBytes: seq<byte>): (plaintext: string)
    requires |randomBytes| == RefreshTokenByteCount(size)
    ensures |plaintext| == 4 * ((|randomBytes| + 2) / 3) && |plaintext| >= 44
    ensures Base64Decode(plaintext) == Some(randomBytes)
  {
    PlaintextOfRandomBytes(randomBytes);
    Base64Encode(randomBytes)
  }

  /** The base64 text of 32 bytes or more has at least 44 characters and decodes back to
      those bytes. */
  lemma PlaintextOfRandomBytes(bytes: seq<byte>)
    requires |bytes| >= 32
    ensures |Base64Encode(bytes)| >= 44 && Base64Decode(Base64Encode(bytes)) == Some(bytes)
  {
    DecodeEncode(bytes);
    EncodedLengthFloor(|bytes|);
  }

  /** Thirty-two bytes or more take at least 44 base64 characters. */
  lemma EncodedLengthFloor(n: int)
    requires n >= 32
    ensures 4 * ((n + 2) / 3) >= 44
  {
    assert (n + 2) / 3 >= 34 / 3;
  }

  /** `HashToken`: rejects an empty plaintext; otherwise the base64 text of the digest of
      the plaintext's UTF-8 bytes. `sha256` stands for `SHA256.HashData`. */
  function HashToken(sha256: seq<byte> -> seq<byte>, plaintext: string): (r: Result<string, Exception>)
    ensures r.Failure? <==> plaintext == ""
    ensures r.Failure? ==> r.error == ArgumentNullException("tokenPlaintext")
    ensures r.Success? ==> Base64Decode(r.value) == Some(sha256(Utf8Encode(plaintext)))
  {
    if plaintext == "" then Failure(ArgumentNullException("tokenPlaintext"))
    else
      DecodeEncode(sha256(Utf8Encode(plaintext)));
      Success(Base64Encode(sha256(Utf8Encode(plaintext))))
  }
}
