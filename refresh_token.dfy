/** The persisted refresh-token record and its derived `IsExpired` /
    `IsActive` properties. Instants are whole minutes on the UTC clock
    counted from `DateTime.MinValue`, so a default `DateTime` is 0. */
module RefreshTokens {
  import opened Common

  type Time = int

  const MinutesPerDay: int := 1440

  /** A `Guid`, as a number; `Guid.Empty` is 0. */
  type Guid = nat

  datatype RefreshToken = RefreshToken(
    id: Guid,
    tokenHash: string,
    userId: string,
    createdAtUtc: Time,
    expiresAtUtc: Time,
    revokedAtUtc: Option<Time>,
    createdByIp: Option<string>,
    revokedByIp: Option<string>,
    replacedByTokenHash: Option<string>)

  /** `new RefreshToken()`: empty hash and owner, default instants, no revocation data. */
  function NewRefreshToken(): (t: RefreshToken)
    ensures t.tokenHash == "" && t.userId == ""
    ensures t.revokedAtUtc.None? && t.revokedByIp.None? && t.replacedByTokenHash.None?
  {
    RefreshToken(0, "", "", 0, 0, None, None, None, None)
  }

  /** The audit value recorded for a caller address: `ip ?? "unknown"`. */
  function IpOrUnknown(ip: Option<string>): (s: string)
    ensures ip.Some? ==> s == ip.value
    ensures ip.None? ==> s == "unknown"
  {
    ip.OrElse("unknown")
  }

  /** `IsExpired` as written: it compares the clock with the CREATION instant. */
  predicate IsExpired(t: RefreshToken, now: Time) {
    now >= t.createdAtUtc
  }

  /** The expiry rule the record's `ExpiresAtUtc` field is there for. */
  predicate IsExpiredAtExpiry(t: RefreshToken, now: Time) {
    now >= t.expiresAtUtc
  }

  /** `IsActive` for a given expiry rule: not revoked and not expired. */
  predicate ActiveUnder(isExpired: (RefreshToken, Time) -> bool, t: RefreshToken, now: Time) {
    t.revokedAtUtc.None? && !isExpired(t, now)
  }

  /** `IsActive` as written. */
  predicate IsActive(t: RefreshToken, now: Time) {
    ActiveUnder(IsExpired, t, now)
  }

  /** The record built by login and by rotation: the object initialiser over `new RefreshToken()`. */
  function IssuedToken(id: Guid, tokenHash: string, userId: string, now: Time, expires: Time,
                       ip: Option<string>): (t: RefreshToken)
    ensures t.id == id && t.tokenHash == tokenHash && t.userId == userId
    ensures t.createdAtUtc == now && t.expiresAtUtc == expires
    ensures t.createdByIp == Some(IpOrUnknown(ip))
    ensures t.revokedAtUtc.None? && t.revokedByIp.None? && t.replacedByTokenHash.None?
  {
    NewRefreshToken().(id := id, tokenHash := tokenHash, userId := userId, createdAtUtc := now,
                       expiresAtUtc := expires, createdByIp := Some(IpOrUnknown(ip)))
  }

  /** The revocation fields set by logout and by rotation; every other field is kept. */
  function Revoked(t: RefreshToken, now: Time, ip: Option<string>): (r: RefreshToken)
    ensures r.revokedAtUtc == Some(now) && r.revokedByIp == Some(IpOrUnknown(ip))
    ensures r.id == t.id && r.tokenHash == t.tokenHash && r.userId == t.userId
    ensures r.createdAtUtc == t.createdAtUtc && r.expiresAtUtc == t.expiresAtUtc
    ensures r.createdByIp == t.createdByIp && r.replacedByTokenHash == t.replacedByTokenHash
  {
    t.(revokedAtUtc := Some(now), revokedByIp := Some(IpOrUnknown(ip)))
  }

  /** Rotation: revoked, and linked forward to the successor's hash; every other field is kept. */
  function Rotated(t: RefreshToken, now: Time, ip: Option<string>, successorHash: string): (r: RefreshToken)
    ensures r.revokedAtUtc == Some(now) && r.revokedByIp == Some(IpOrUnknown(ip))
    ensures r.replacedByTokenHash == Some(successorHash)
    ensures r.id == t.id && r.tokenHash == t.tokenHash && r.userId == t.userId
    ensures r.createdAtUtc == t.createdAtUtc && r.expiresAtUtc == t.expiresAtUtc
    ensures r.createdByIp == t.createdByIp
  {
    Revoked(t, now, ip).(replacedByTokenHash := Some(successorHash))
  }

  // ---------------------------------------------------------------------
  // Properties of the activity predicate
  // ---------------------------------------------------------------------

  /** As written, a record is active exactly when it is unrevoked and the clock is still
      before its creation instant; the boundary `now == CreatedAtUtc` is expired and
      `ExpiresAtUtc` plays no part. */
  lemma IsActiveAsWritten(t: RefreshToken, now: Time, otherExpiry: Time)
    ensures IsActive(t, now) <==> t.revokedAtUtc.None? && now < t.createdAtUtc
    ensures IsExpired(t, t.createdAtUtc)
    ensures IsActive(t.(expiresAtUtc := otherExpiry), now) == IsActive(t, now)
  {
  }

  /** A revoked record is inactive at every instant, whatever the expiry rule. */
  lemma RevokedIsInactive(isExpired: (RefreshToken, Time) -> bool, t: RefreshToken, now: Time)
    requires t.revokedAtUtc.Some?
    ensures !ActiveUnder(isExpired, t, now)
  {
  }

  /** Inactivity is monotone in time under both rules: once inactive, inactive later too. */
  lemma InactivityIsMonotone(t: RefreshToken, now: Time, later: Time)
    requires now <= later
    ensures !IsActive(t, now) ==> !IsActive(t, later)
    ensures !ActiveUnder(IsExpiredAtExpiry, t, now) ==> !ActiveUnder(IsExpiredAtExpiry, t, later)
  {
  }

  /** As written, a record created no later than now is already inactive. */
  lemma IssuedTokenInactiveAsWritten(t: RefreshToken, now: Time)
    requires t.createdAtUtc <= now
    ensures !IsActive(t, now)
  {
  }

  /** Under the expiry-instant rule an unrevoked record is active until, and not at,
      its `ExpiresAtUtc`. */
  lemma ActiveUntilExpiry(t: RefreshToken, now: Time)
    requires t.revokedAtUtc.None?
    ensures ActiveUnder(IsExpiredAtExpiry, t, now) <==> now < t.expiresAtUtc
  {
  }
}
