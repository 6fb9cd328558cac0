/** The refresh-token table as the rotation engine sees it: a sequence of
    records in insertion order. The `TokenHash` index is not unique, so a
    lookup is the first record whose hash matches (`FirstOrDefault`). The
    expiry rule is a parameter: the lookup, replay and invariant lemmas hold
    for any rule, while the two liveness lemmas at the end are each stated
    for one rule. */
module TokenStore {
  import opened Common
  import opened RefreshTokens

  type Store = seq<RefreshToken>

  type ExpiryRule = (RefreshToken, Time) -> bool

  /** The lookup predicate `rt => rt.TokenHash == hash`. */
  function HashIs(hash: string): RefreshToken -> bool {
    (t: RefreshToken) => t.tokenHash == hash
  }

  /** `FirstOrDefault(rt => rt.TokenHash == hash)`, as an index into the table. */
  function FindByHash(store: Store, hash: string): (k: Option<nat>)
    ensures k.Some? ==> k.value < |store| && store[k.value].tokenHash == hash
    ensures k.Some? ==> forall j :: 0 <= j < k.value ==> store[j].tokenHash != hash
    ensures k.None? ==> forall j :: 0 <= j < |store| ==> store[j].tokenHash != hash
  {
    FirstMatch(store, HashIs(hash))
  }

  /** The record a refresh or a revoke may act on: the first match, if it is active. An
      active record with the hash is refused only when an earlier record carries the hash. */
  function LiveMatch(isExpired: ExpiryRule, store: Store, hash: string, now: Time): (r: Option<nat>)
    ensures r.Some? ==> r == FindByHash(store, hash)
    ensures r.Some? ==> store[r.value].tokenHash == hash && ActiveUnder(isExpired, store[r.value], now)
    ensures r.None? ==>
      forall j :: 0 <= j < |store| && store[j].tokenHash == hash && ActiveUnder(isExpired, store[j], now) ==>
        FindByHash(store, hash).Some? && FindByHash(store, hash).value < j
  {
    match FindByHash(store, hash)
    case Some(k) => if ActiveUnder(isExpired, store[k], now) then Some(k) else None
    case None => None
  }

  /** Logout: the matched record is revoked in place. */
  function RevokeAt(store: Store, k: nat, now: Time, ip: Option<string>): (r: Store)
    requires k < |store|
    ensures |r| == |store| && r[k] == Revoked(store[k], now, ip)
    ensures forall j :: 0 <= j < |store| && j != k ==> r[j] == store[j]
  {
    store[k := Revoked(store[k], now, ip)]
  }

  /** Rotation: the matched record is revoked and linked to the successor, which is appended. */
  function RotateAt(store: Store, k: nat, now: Time, ip: Option<string>, successor: RefreshToken): (r: Store)
    requires k < |store|
    ensures |r| == |store| + 1 && r[|store|] == successor
    ensures r[k] == Rotated(store[k], now, ip, successor.tokenHash)
    ensures forall j :: 0 <= j < |store| && j != k ==> r[j] == store[j]
  {
    store[k := Rotated(store[k], now, ip, successor.tokenHash)] + [successor]
  }

  // ---------------------------------------------------------------------
  // Invariants of the table
  // ---------------------------------------------------------------------

  /** No record carries a successor link without being revoked, so no record is both
      active and rotated. */
  ghost predicate ChainConsistent(store: Store) {
    forall j :: 0 <= j < |store| ==> store[j].replacedByTokenHash.Some? ==> store[j].revokedAtUtc.Some?
  }

  /** The table only grows, and every record that was revoked is left exactly as it was:
      no un-revoke, no relinking, no deletion. */
  ghost predicate Evolves(before: Store, after: Store) {
    && |before| <= |after|
    && forall j :: 0 <= j < |before| && before[j].revokedAtUtc.Some? ==> after[j] == before[j]
  }

  /** The lifecycle state of one record at an instant. */
  datatype Status = StatusActive | StatusRotated | StatusRevoked | StatusExpired

  function StatusOf(isExpired: ExpiryRule, t: RefreshToken, now: Time): Status {
    if t.replacedByTokenHash.Some? then StatusRotated
    else if t.revokedAtUtc.Some? then StatusRevoked
    else if isExpired(t, now) then StatusExpired
    else StatusActive
  }

  /** On a consistent record the state is well defined: it is `Active` exactly when the
      activity predicate holds, and a rotated record is never active. */
  lemma StatusMatchesActivity(isExpired: ExpiryRule, t: RefreshToken, now: Time)
    requires t.replacedByTokenHash.Some? ==> t.revokedAtUtc.Some?
    ensures StatusOf(isExpired, t, now) == StatusActive <==> ActiveUnder(isExpired, t, now)
    ensures t.replacedByTokenHash.Some? ==> !ActiveUnder(isExpired, t, now)
  {
  }

  // ---------------------------------------------------------------------
  // Lookup after each kind of change
  // ---------------------------------------------------------------------

  /** Appending a record never hides an earlier match; it is found only when nothing
      before it has its hash. */
  lemma FindAfterAppend(store: Store, t: RefreshToken, hash: string)
    ensures FindByHash(store + [t], hash) ==
      if FindByHash(store, hash).Some? then FindByHash(store, hash)
      else if t.tokenHash == hash then Some(|store|)
      else None
  {
    FirstMatchAppend(store, t, HashIs(hash));
  }

  /** Changing a record without changing its hash changes no lookup. */
  lemma FindAfterUpdate(store: Store, k: nat, t: RefreshToken, hash: string)
    requires k < |store| && t.tokenHash == store[k].tokenHash
    ensures FindByHash(store[k := t], hash) == FindByHash(store, hash)
  {
    FirstMatchUpdate(store, k, t, HashIs(hash));
  }

  /** Round trip: right after a record is appended, looking up its hash finds a record with
      that hash, and it is the new record exactly when no earlier record shares the hash. */
  lemma IssueThenFind(store: Store, t: RefreshToken)
    ensures var k := FindByHash(store + [t], t.tokenHash);
      && k.Some? && (store + [t])[k.value].tokenHash == t.tokenHash
      && (k == Some(|store|) <==> forall j :: 0 <= j < |store| ==> store[j].tokenHash != t.tokenHash)
  {
    FindAfterAppend(store, t, t.tokenHash);
  }

  // ---------------------------------------------------------------------
  // Replay rejection and idempotent logout
  // ---------------------------------------------------------------------

  /** After a rotation the presented hash still leads to the same record, which is now
      revoked: presenting the same plaintext again fails at every later instant,
      under any expiry rule. */
  lemma ReplayIsRejected(isExpired: ExpiryRule, store: Store, hash: string, k: nat, now: Time,
                         ip: Option<string>, successor: RefreshToken, later: Time)
    requires FindByHash(store, hash) == Some(k)
    ensures FindByHash(RotateAt(store, k, now, ip, successor), hash) == Some(k)
    ensures LiveMatch(isExpired, RotateAt(store, k, now, ip, successor), hash, later) == None
  {
    var updated := store[k := Rotated(store[k], now, ip, successor.tokenHash)];
    FindAfterUpdate(store, k, Rotated(store[k], now, ip, successor.tokenHash), hash);
    FindAfterAppend(updated, successor, hash);
  }

  /** After a logout the presented hash leads to the same, now revoked, record: a second
      logout with the same plaintext finds nothing to revoke. */
  lemma RevokeIsIdempotent(isExpired: ExpiryRule, store: Store, hash: string, k: nat, now: Time,
                           ip: Option<string>, later: Time)
    requires FindByHash(store, hash) == Some(k)
    ensures FindByHash(RevokeAt(store, k, now, ip), hash) == Some(k)
    ensures LiveMatch(isExpired, RevokeAt(store, k, now, ip), hash, later) == None
  {
    FindAfterUpdate(store, k, Revoked(store[k], now, ip), hash);
  }

  /** Rotating from an active record keeps the chain consistent and touches no revoked record. */
  lemma RotateKeepsInvariants(store: Store, k: nat, now: Time, ip: Option<string>, successor: RefreshToken)
    requires k < |store| && store[k].revokedAtUtc.None? && successor.replacedByTokenHash.None?
    ensures ChainConsistent(store) ==> ChainConsistent(RotateAt(store, k, now, ip, successor))
    ensures Evolves(store, RotateAt(store, k, now, ip, successor))
  {
  }

  /** Revoking an active record keeps the chain consistent and touches no revoked record. */
  lemma RevokeKeepsInvariants(store: Store, k: nat, now: Time, ip: Option<string>)
    requires k < |store| && store[k].revokedAtUtc.None?
    ensures ChainConsistent(store) ==> ChainConsistent(RevokeAt(store, k, now, ip))
    ensures Evolves(store, RevokeAt(store, k, now, ip))
  {
  }

  /** Appending an unlinked record keeps the chain consistent and touches no record. */
  lemma AppendKeepsInvariants(store: Store, t: RefreshToken)
    requires t.replacedByTokenHash.None?
    ensures ChainConsistent(store) ==> ChainConsistent(store + [t])
    ensures Evolves(store, store + [t])
  {
  }

  // ---------------------------------------------------------------------
  // The two expiry rules on a whole table
  // ---------------------------------------------------------------------

  /** As written, once the clock has reached every record's creation instant (as it has
      while the clock never runs backwards and every instance reads the same clock), no hash
      has a live match: every refresh is refused and every logout returns false. */
  lemma NothingLiveAsWritten(store: Store, hash: string, now: Time)
    requires forall j :: 0 <= j < |store| ==> store[j].createdAtUtc <= now
    ensures LiveMatch(IsExpired, store, hash, now) == None
  {
  }

  /** Under the expiry-instant rule a record appended with a hash no earlier record has is
      live from its creation until its expiry instant. */
  lemma IssuedTokenLiveAtExpiryRule(store: Store, t: RefreshToken, now: Time)
    requires forall j :: 0 <= j < |store| ==> store[j].tokenHash != t.tokenHash
    requires t.revokedAtUtc.None? && now < t.expiresAtUtc
    ensures LiveMatch(IsExpiredAtExpiry, store + [t], t.tokenHash, now) == Some(|store|)
  {
    IssueThenFind(store, t);
  }
}
