# TodoApp authentication core in Dafny

This project models the authentication core of the TodoApp web API. At its centre is the
refresh-token lifecycle:

- **Login** checks the credentials. It issues a short-lived JWT access token and a random
  refresh token, and stores only the refresh token's SHA-256 hash.
- **Refresh** looks the presented token up by hash. If it is still active, it revokes that
  record, links it forward to a freshly issued successor, and returns a new token pair.
  Presenting the old token a second time is refused (replay rejection).
- **Logout** revokes the record behind a presented token.

Around the lifecycle sit four smaller pieces:

- the token service, which checks the signing key when it is built, lists the access-token
  claims, generates refresh-token plaintexts and hashes them;
- registration and admin promotion/demotion over the user and role tables;
- the user service's soft-delete-aware lookups and its paged listings ordered by email then id;
- the user service's field updates: soft delete, restore and profile edit.

Layout:

- `common.dfy`: `Option`, `Result`, the exceptions the core throws, .NET `IsNullOrWhiteSpace`,
  and `FirstMatch` (LINQ `FirstOrDefault` as an index).
- `encoding.dfy`: `Convert.ToBase64String` and `Convert.FromBase64String` (section 4 of
  RFC 4648, plus the .NET decoder's whitespace skipping), with the round-trip proof; UTF-8
  encoding (RFC 3629).
- `refresh_token.dfy`: the refresh-token record, `IsExpired` as written, the expiry-instant
  rule, and `IsActive` under any expiry rule.
- `token_store.dfy`: the refresh-token table as a sequence with first-match lookup (the
  `TokenHash` index is not unique), the revoke and rotate transitions, and the lifecycle
  invariants.
- `identity.dfy`: users, `IdentityResult`, the database context class, and the `UserManager`
  lookups and role edits.
- `token_service.dfy`: `JwtSettings`, the signing-key guard, `CreateAccessToken`, the refresh
  plaintext generator and `HashToken`.
- `auth_service.dfy`: the `AuthService` class, plus lifecycle scenarios under both expiry rules.
- `user_service.dfy`: lookups, ordering and paging, and the `UserService` class.

The following are parameters:

- the clock: one `now` per operation, in whole minutes;
- the random bytes, `Guid.NewGuid()` and the JWT id;
- SHA-256;
- the password check;
- the outcomes of `UserManager.CreateAsync`, `RoleManager.CreateAsync`,
  `RoleManager.RoleExistsAsync` (whether it throws) and `UserManager.ChangePasswordAsync`.

The expiry rule is also a parameter of `AuthService`. Some properties hold for any expiry
rule:

- the contracts of `Login`, `Refresh` and `Revoke`;
- the table lemmas `ReplayIsRejected`, `RevokeIsIdempotent` and the `...KeepsInvariants`
  lemmas.

The liveness lemmas and the scenarios are stated for one rule at a time. Under the rule as
written, once the clock has reached every record's creation instant, no refresh can succeed
(`NothingLiveAsWritten`), so the two rules cannot share those properties.

- **The rule as written:** `IsActiveAsWritten`, `IssuedTokenInactiveAsWritten`,
  `NothingLiveAsWritten` and `LoginThenRefreshAsWritten`.
- **The expiry-instant rule:** `ActiveUntilExpiry`, `IssuedTokenLiveAtExpiryRule` and
  `LoginRefreshReplayAtExpiry`.

`IsExpired` (TodoApp.API/Entities/RefreshToken.cs:28) compares the clock with `CreatedAtUtc`.
The code shows that expiry is evidently meant to be `ExpiresAtUtc`:

- `ExpiresAtUtc` is set from `RefreshTokenExpirationDays` (TodoApp.API/Services/AuthService.cs:180-190
  and 242-252);
- nothing in the modelled files reads it;
- the refusal reads "Invalid or expired refresh token.".

`RefreshTokens.IsActive` follows the code, and the discrepancy is recorded under Findings.

## Model

| member | source | states |
|---|---|---|
| RefreshTokens.NewRefreshToken | TodoApp.API/Entities/RefreshToken.cs:8-26 | a new record has an empty hash and owner and no revocation time, revoking address or successor link |
| RefreshTokens.IssuedToken | TodoApp.API/Services/AuthService.cs:184-192 | the record built at login and rotation carries the given id, hash, owner, creation and expiry instants and `ip ?? "unknown"`, and is unrevoked and unlinked |
| RefreshTokens.IpOrUnknown | TodoApp.API/Services/AuthService.cs:190 | the recorded address is the caller's when given and "unknown" when null |
| RefreshTokens.IsExpired | TodoApp.API/Entities/RefreshToken.cs:28 | a predicate with no contract of its own; `IsActiveAsWritten` and `IssuedTokenInactiveAsWritten` characterise it: expired once the clock reaches the creation instant |
| RefreshTokens.ActiveUnder | TodoApp.API/Entities/RefreshToken.cs:29 | a predicate with no contract of its own, the activity test for a given expiry rule; `RevokedIsInactive`, `InactivityIsMonotone` and `ActiveUntilExpiry` characterise it |
| RefreshTokens.IsActive | TodoApp.API/Entities/RefreshToken.cs:29 | a predicate with no contract of its own, `ActiveUnder` for the rule as written; `IsActiveAsWritten` characterises it |
| RefreshTokens.Revoked | TodoApp.API/Services/AuthService.cs:236-237 | a revoked record carries the revocation instant and `ip ?? "unknown"`, and every other field, the successor link included, is unchanged |
| RefreshTokens.Rotated | TodoApp.API/Services/AuthService.cs:236-257 | a rotated record is revoked as above and linked to the successor's hash, and every other field is unchanged |
| RefreshTokens.IsActiveAsWritten | TodoApp.API/Entities/RefreshToken.cs:28-29 | as written, a record is active iff it is unrevoked and the clock is strictly before its creation instant; creation itself counts as expired, and the expiry instant plays no part |
| RefreshTokens.RevokedIsInactive | TodoApp.API/Entities/RefreshToken.cs:29 | a revoked record is inactive at every instant under any expiry rule |
| RefreshTokens.InactivityIsMonotone | TodoApp.API/Entities/RefreshToken.cs:28-29 | under both rules, a record inactive at one instant is inactive at every later one |
| RefreshTokens.IssuedTokenInactiveAsWritten | TodoApp.API/Entities/RefreshToken.cs:28 | as written, any record whose creation instant has been reached is inactive |
| RefreshTokens.ActiveUntilExpiry | TodoApp.API/Entities/RefreshToken.cs:21-29 | under the expiry-instant rule, an unrevoked record is active iff the clock is strictly before `ExpiresAtUtc` |
| Common.FirstMatch | TodoApp.API/Services/AuthService.cs:216-219 | the lookup returns the first index whose element matches, or none exactly when nothing matches |
| TokenStore.FindByHash | TodoApp.API/Services/AuthService.cs:216-219 | the lookup finds the first record with the hash, or none exactly when no record has it |
| TokenStore.LiveMatch | TodoApp.API/Services/AuthService.cs:216-225 | a match is the first record with the hash and is active under the rule; no match means either no active record has the hash or an earlier record with the hash comes first |
| TokenStore.RevokeAt | TodoApp.API/Services/AuthService.cs:297-300 | logout keeps the table's length, replaces the matched record by its revoked form, and leaves every other record as it was |
| TokenStore.RotateAt | TodoApp.API/Services/AuthService.cs:236-260 | rotation replaces the matched record by its rotated form, leaves every other record as it was, and appends exactly the successor |
| TokenStore.FindAfterAppend | TodoApp.API/Services/AuthService.cs:194 | after a record is added, a lookup finds the earlier match if there is one, otherwise the new record when its hash matches |
| TokenStore.FindAfterUpdate | TodoApp.API/Services/AuthService.cs:259-260 | updating a record without changing its hash changes no lookup |
| TokenStore.IssueThenFind | TodoApp.API/Services/AuthService.cs:178-195 | right after a record is stored, looking up its hash finds a record with that hash, and it is the new one iff no earlier record shares the hash |
| TokenStore.StatusMatchesActivity | TodoApp.API/Entities/RefreshToken.cs:22-29 | on a record whose successor link implies revocation, the lifecycle state is Active iff the record is active, and a rotated record is never active |
| TokenStore.ReplayIsRejected | TodoApp.API/Services/AuthService.cs:221-237 | after a rotation, the presented hash still leads to the same record, and that record has no live match at any later instant under any rule |
| TokenStore.RevokeIsIdempotent | TodoApp.API/Services/AuthService.cs:294-298 | after a logout, the presented hash leads to the same record, now revoked, so a second logout finds nothing live |
| TokenStore.RotateKeepsInvariants | TodoApp.API/Services/AuthService.cs:236-260 | rotation keeps every successor link on a revoked record, only grows the table, and leaves revoked records untouched |
| TokenStore.RevokeKeepsInvariants | TodoApp.API/Services/AuthService.cs:297-300 | logout keeps the chain consistent, only grows the table, and leaves revoked records untouched |
| TokenStore.AppendKeepsInvariants | TodoApp.API/Services/AuthService.cs:184-194 | adding an unlinked record keeps the chain consistent and touches no existing record |
| TokenStore.NothingLiveAsWritten | TodoApp.API/Entities/RefreshToken.cs:28-29 | as written, once the clock has reached every creation instant, no hash has a live match |
| TokenStore.IssuedTokenLiveAtExpiryRule | TodoApp.API/Entities/RefreshToken.cs:21-29 | under the expiry-instant rule, a newly stored record with a fresh hash is the live match for its hash until its expiry instant |
| Encoding.Base64Encode | TodoApp.API/Services/TokenService.cs:110 | the encoding has four characters per started group of three bytes, all from the alphabet or `=` |
| Encoding.Base64Decode | TodoApp.API/Services/TokenService.cs:42 | a function with no contract of its own; `DecodeEncode`, `DecodedLengthBound` and `AlphabetTextDecodes` characterise it: it inverts the encoding, yields at most three bytes per four characters, and always accepts unpadded alphabet text of a length divisible by four |
| Encoding.DecodeEncode | TodoApp.API/Services/TokenService.cs:39-47 | decoding the base64 text of any bytes gives those bytes back |
| Encoding.EncodeInjective | TodoApp.API/Services/TokenService.cs:122 | distinct byte strings have distinct base64 texts |
| Encoding.DecodedLengthBound | TodoApp.API/Services/TokenService.cs:42 | a successful decode yields at most three bytes per four input characters |
| Encoding.AlphabetTextDecodes | TodoApp.API/Services/TokenService.cs:42 | alphabet-only text whose length is a multiple of four always decodes, to three bytes per four characters |
| Encoding.Utf8EncodeChar | TodoApp.API/Services/TokenService.cs:46 | a character below U+0080 is its own single byte; U+0080-U+07FF, U+0800-U+FFFF and the rest take exactly two, three and four bytes, a lead byte of the matching form followed by continuation bytes in [0x80, 0xC0), which together spell the code point |
| Encoding.Utf8Encode | TodoApp.API/Services/TokenService.cs:46 | the UTF-8 encoding has between one and four bytes per character, and an ASCII string encodes to its own code units, one byte each |
| Common.IsNullOrWhiteSpace | TodoApp.API/Services/AuthService.cs:87 | a predicate with no contract of its own: true exactly when every character is white space, and so for the empty string |
| Identity.FindById | TodoApp.API/Services/AuthService.cs:90 | the lookup by id returns a row with that id, or none exactly when no row has it |
| Identity.FindByEmail | TodoApp.API/Services/AuthService.cs:159 | the lookup by email returns a row with that email, or none exactly when no row has it |
| Identity.AddRole | TodoApp.API/Services/AuthService.cs:118 | after adding, the user holds the role, keeps every role it had, and gains no other |
| Identity.RemoveRole | TodoApp.API/Services/AuthService.cs:148 | after removal, the user no longer holds the role, keeps every other role and gains none; removing an absent role changes nothing |
| Tokens.DefaultJwtSettings | TodoApp.API/Services/TokenService.cs:11-20 | the defaults are empty issuer, audience and secret, 15 access minutes and 30 refresh days |
| Tokens.AccessTokenLifetime | TodoApp.API/Services/TokenService.cs:71 | the access lifetime is the configured number of minutes when that is positive, and exactly one minute otherwise |
| Tokens.RefreshTokenLifetimeDays | TodoApp.API/Services/AuthService.cs:180-182 | the refresh lifetime is the configured number of days when that is positive, and exactly one day otherwise |
| Tokens.KeyBytes | TodoApp.API/Services/TokenService.cs:39-47 | the key is the base64 decoding of the secret, at most three bytes per four characters, when it decodes, and otherwise its UTF-8 bytes, one to four per character |
| Tokens.NewTokenService | TodoApp.API/Services/TokenService.cs:29-60 | a blank secret is "not configured"; otherwise construction succeeds iff the key bytes (base64 decoding, else UTF-8) are at least 32, failing with "too short" otherwise; on success it keeps the settings and that key |
| Tokens.ShortSecretRejected | TodoApp.API/Services/TokenService.cs:39-52 | any secret shorter than eight characters is rejected |
| Tokens.Base64SecretAccepted | TodoApp.API/Services/TokenService.cs:39-52 | the base64 text of at least 32 bytes is accepted, with exactly those bytes as key |
| Tokens.Base64LookingSecretRejected | TodoApp.API/Services/TokenService.cs:39-52 | an alphabet-only secret of at most 40 characters whose length is a multiple of four is decoded, never taken as UTF-8, and so is rejected |
| Tokens.CreateAccessToken | TodoApp.API/Services/TokenService.cs:65-99 | a null user is rejected. Otherwise the token has the configured issuer, audience and key, is valid from now for at least one minute, and carries the claims sub, nameidentifier, email (`?? ""`) and jti, then one role claim per role in order, and none for null roles |
| Tokens.RefreshTokenByteCount | TodoApp.API/Services/TokenService.cs:105-108 | exactly `size` bytes are drawn when it is 32 or more, and exactly 32 otherwise |
| Tokens.GenerateRefreshTokenPlaintext | TodoApp.API/Services/TokenService.cs:105-111 | the plaintext is at least 44 characters, never empty, and decodes back to exactly the random bytes |
| Tokens.HashToken | TodoApp.API/Services/TokenService.cs:116-123 | an empty plaintext throws `ArgumentNullException("tokenPlaintext")`; otherwise the hash is base64 text that decodes to the digest of the plaintext's UTF-8 bytes |
| Auth.AuthFailure | TodoApp.API/Services/AuthService.cs:160-161 | a failed authentication carries exactly one error message and no token, expiry or roles |
| Auth.NewUser | TodoApp.API/Services/AuthService.cs:46-52 | the registered user has the email as both user name and email, the first name, `LastName ?? ""`, and is not deleted |
| Auth.UserNotFound | TodoApp.API/Services/AuthService.cs:93-102 | an unknown id gives a failed result with the single error code "NotFound" |
| Auth.AuthService.RefreshExpiry | TodoApp.API/Services/AuthService.cs:180-182 | a refresh token expires the refresh lifetime in days (1440 minutes each) after it is issued: the configured days when positive, one day otherwise, so never less than a day |
| Auth.AuthService.IssueAccessToken | TodoApp.API/Services/AuthService.cs:171-172 | the access token minted for a found user is the one `CreateAccessToken` specifies for the user's roles |
| Auth.AuthService.IssueRefreshToken | TodoApp.API/Services/AuthService.cs:178-192 | the new plaintext is never empty, and its record stores its hash for the owner, unrevoked, expiring after the refresh lifetime |
| Auth.AuthService.Login | TodoApp.API/Services/AuthService.cs:152-205 | an unknown email and a failed password check give the same single error and change nothing. Otherwise exactly one record is appended, holding the hash of the returned plaintext, and the result carries the access token, both expiries and the roles. The invariants are kept |
| Auth.AuthService.Refresh | TodoApp.API/Services/AuthService.cs:208-277 | an empty token throws. No live match, or no owner, gives its error before any change. Otherwise the table becomes exactly the rotation of the matched record plus the appended successor. The presented token then has no live match at any instant. The invariants are kept |
| Auth.AuthService.Revoke | TodoApp.API/Services/AuthService.cs:280-303 | returns true iff the plaintext is non-empty and has a live match. Then that record alone is revoked, and nothing is live for the plaintext afterwards. Otherwise nothing changes |
| Auth.AuthService.Register | TodoApp.API/Services/AuthService.cs:41-79 | returns the creation result. On success the new user is stored, holding "User" exactly when that role exists and its lookup did not throw; on failure nothing changes |
| Auth.AuthService.PromoteToAdmin | TodoApp.API/Services/AuthService.cs:82-119 | a blank id throws and an unknown id is NotFound, both without change. A failed role creation is returned unchanged. Otherwise the call succeeds, the Admin role exists, the user holds it, and an existing admin is left exactly as it was |
| Auth.AuthService.DemoteFromAdmin | TodoApp.API/Services/AuthService.cs:122-149 | a blank id throws and an unknown id is NotFound. Otherwise the call succeeds and the user loses Admin, keeping every other role; a non-admin is left exactly as it was |
| Auth.LoginThenRefreshAsWritten | TodoApp.API/Services/AuthService.cs:208-225 | under the expiry rule as written, refreshing with the token a successful login returned fails with "Invalid or expired refresh token." |
| Auth.LoginRefreshReplayAtExpiry | TodoApp.API/Services/AuthService.cs:208-261 | under the expiry-instant rule, login then refresh within a day succeeds and returns a different token; replaying the first token then fails |
| Auth.LogoutTwice | TodoApp.API/Services/AuthService.cs:280-303 | a second logout with the same plaintext after a successful one returns false |
| Users.VisibleUsers | TodoApp.API/Services/UserService.cs:61-64 | the query holds exactly the stored users, without the soft-deleted ones unless `includeDeleted` |
| Users.GetById | TodoApp.API/Services/UserService.cs:79-87 | the result is a stored user with the id that is visible under the filter; null only when every user with the id is soft-deleted and excluded |
| Users.GetByIdIncludingDeleted | TodoApp.API/Services/UserService.cs:81-86 | including deleted users, the lookup returns exactly the row `FindById` finds |
| Users.GetDtoById | TodoApp.API/Services/UserService.cs:59-77 | a function with no contract of its own; `GetDtoByIdIsProjection` characterises it |
| Users.GetDtoByIdIsProjection | TodoApp.API/Services/UserService.cs:59-77 | the DTO lookup is the projection of the entity lookup, with the same soft-delete filter |
| Users.KeyLeTotal | TodoApp.API/Services/UserService.cs:96-97 | any two users are ordered one way or the other by email (null first) then id |
| Users.KeyLeTransitive | TodoApp.API/Services/UserService.cs:96-97 | the email-then-id order is transitive |
| Users.SortByEmailThenId | TodoApp.API/Services/UserService.cs:94-97 | the listing order is a permutation of the table, sorted by email then id |
| Users.ClampPage | TodoApp.API/Services/UserService.cs:91 | the page number used is the requested one when that is at least 1, and exactly 1 otherwise |
| Users.ClampPageSize | TodoApp.API/Services/UserService.cs:92 | the page size used is within [1, 200] and equals the request when it already is |
| Users.PageStart | TodoApp.API/Services/UserService.cs:91-98 | the number of users skipped, `(page-1)*size` with both clamped, is never negative; `PageContents` uses it |
| Users.GetUsers | TodoApp.API/Services/UserService.cs:89-101 | a function with no contract of its own; `PageContents`, `PagesPartitionListing` and `EveryUserIsListed` characterise it |
| Users.PageContents | TodoApp.API/Services/UserService.cs:89-101 | a page is the run of the sorted table after `(page-1)*size` users, of length `min(size, remaining)` and so at most 200, in listing order |
| Users.GetUserDtos | TodoApp.API/Services/UserService.cs:103-123 | a function with no contract of its own; `GetUserDtosIsProjection` characterises it |
| Users.GetUserDtosIsProjection | TodoApp.API/Services/UserService.cs:103-123 | the DTO listing is the projection of the entity listing for the same arguments |
| Users.PagesPartitionListing | TodoApp.API/Services/UserService.cs:91-100 | for any requested page size, with `size` the clamped size, entry `r < size` of page `q + 1` is the user at sorted position `q * size + r`, so pages never overlap or skip a user |
| Users.EveryUserIsListed | TodoApp.API/Services/UserService.cs:91-100 | for any requested page size, every stored user, soft-deleted or not, is on some page |
| Users.WriteBack | TodoApp.API/Services/UserService.cs:133-134 | saving an updated entity replaces the row with its id and changes no other row; with no such row nothing changes |
| Users.WithProfile | TodoApp.API/Services/UserService.cs:171-172 | a profile edit sets the first name and `LastName ?? ""` and leaves every other field as it was |
| Users.SetDeleted | TodoApp.API/Services/UserService.cs:125-157 | a function with no contract of its own; `SetDeletedChangesOnlyTheFlag`, `SetDeletedIdempotent` and `RestoreUndoesSoftDelete` characterise it |
| Users.SetDeletedChangesOnlyTheFlag | TodoApp.API/Services/UserService.cs:147-157 | setting the deleted flag changes only the flag of the row with the id |
| Users.SetDeletedIdempotent | TodoApp.API/Services/UserService.cs:125-157 | soft delete and restore are idempotent |
| Users.RestoreUndoesSoftDelete | TodoApp.API/Services/UserService.cs:125-157 | restoring a user that was not deleted before the soft delete gives back the original table |
| Users.SoftDeleteHidesUser | TodoApp.API/Services/UserService.cs:79-87 | with unique ids, a soft-deleted user is hidden from the default lookup but found when deleted users are included, and a restored one is visible again |
| Users.WriteBackProfileIdempotent | TodoApp.API/Services/UserService.cs:169-177 | applying the same profile edit twice is the same as once |
| Users.ProfileEditTouchesOnlyItsRow | TodoApp.API/Services/UserService.cs:169-187 | with unique ids, editing the profile of the user the default lookup finds changes that user's names and nothing else |
| Users.NoUserWithId | TodoApp.API/Services/UserService.cs:34-45 | an unknown id gives a failed result with the single error code "NotFound" |
| Users.UserService.ChangePassword | TodoApp.API/Services/UserService.cs:27-48 | an id with no row, deleted or not, is NotFound; otherwise the answer is the password change's own result, and success implies the user exists |
| Users.UserService.Delete | TodoApp.API/Services/UserService.cs:50-57 | a missing user is a no-op; otherwise exactly that row is removed, and with unique ids no user with the id remains |
| Users.UserService.SoftDelete | TodoApp.API/Services/UserService.cs:147-157 | the table becomes the one where the first row with the id is flagged deleted, its other fields and every other row unchanged |
| Users.UserService.SoftDeleteUser | TodoApp.API/Services/UserService.cs:159-167 | a null user is a no-op; otherwise the flagged entity is written over its row |
| Users.UserService.Restore | TodoApp.API/Services/UserService.cs:125-135 | the table becomes the one where the first row with the id is no longer flagged deleted, its other fields and every other row unchanged |
| Users.UserService.RestoreUser | TodoApp.API/Services/UserService.cs:137-145 | a null user is a no-op; otherwise the unflagged entity is written over its row |
| Users.UserService.UpdateProfileUser | TodoApp.API/Services/UserService.cs:169-177 | the entity with the new names is written over its row |
| Users.UserService.UpdateProfile | TodoApp.API/Services/UserService.cs:179-187 | a missing or soft-deleted user is a no-op; otherwise the renamed entity is written over the first row with its id, and with unique ids only that user's names change |

## Left out

- HMAC-SHA256 signing and the compact JWT serialisation (RFC 7519) are left out. An access token is modelled as the descriptor handed to the token handler.
- SHA-256, `RandomNumberGenerator`, `Guid.NewGuid()` and the clock are parameters. Within one operation the model reads the clock once; the source reads `DateTime.UtcNow` several times.
- Instants are whole minutes, and `DateTime` overflow is not modelled.
- Password verification, lockout and the Identity password and uniqueness rules are decided inside ASP.NET Identity. They enter the model as the `checkPassword` function and as outcome parameters.
- Identity.FindByEmail: `UserManager.FindByEmailAsync` matches the normalised email case-insensitively; the model matches the email exactly. `FindByIdAsync` matches the id, as the model does.
- TokenStore.FindByHash: `FirstOrDefaultAsync` without `OrderBy` (TodoApp.API/Services/AuthService.cs:216-219, 290-293) lets the database return any of several records that share a `TokenHash`. The model always returns the earliest inserted one, so when hashes collide, `ReplayIsRejected` and `FindAfterAppend` rely on that order.
- The database collation of the email ordering is not modelled; the model orders ordinally and puts null emails first.
- Async execution, cancellation, concurrent requests and transaction isolation are left out. Each operation is one atomic step, as its single `SaveChangesAsync` is.
- Logging is left out (TodoApp.API/Services/AuthService.cs:75).
- The HTTP controllers, start-up and dependency-injection wiring are not part of this model.
- Validation by the DTO annotations is not part of this model. The DTOs are plain datatypes.
- `ApplicationUser` and `ApplicationRole` are not part of this model's sources. The user datatype holds the fields the services use, with roles as a list on the user.
- Auth.AuthService.PromoteToAdmin: returns success where the source returns the result of `AddToRoleAsync`; that call is taken to succeed.
- Auth.AuthService.DemoteFromAdmin: returns success where the source returns the result of `RemoveFromRoleAsync`; that call is taken to succeed.
- Auth.AuthService.Register: the role addition after a successful creation is taken to succeed; the source ignores its result.
- Auth.AuthService.Refresh: the navigation property `tokenEntity.User` and the fallback `FindByIdAsync` are modelled as one lookup by id.
- Users.WriteBack: saving an entity whose id has no row throws a concurrency exception in Entity Framework; the model leaves the table unchanged instead.
- Users.UserService.Delete: the database's cascade deletion of the user's refresh tokens and role memberships is not modelled.
- Users.PageStart: `(page - 1) * pageSize` is computed with unbounded integers, so the 32-bit overflow for page numbers above about ten million is not modelled.
- `ChangePasswordAsync(user, dto)` only forwards to `UserManager.ChangePasswordAsync`. Its result is the `outcome` parameter of `Users.UserService.ChangePassword`.
- Null request objects, a null options value and null user ids cannot be represented. Null strings are modelled only where the source tests for them.
- Text is a sequence of Unicode scalar values, so a lone UTF-16 surrogate in a secret or token cannot be represented.

## Findings

| source | as written | input that shows it | evidently intended | confidence | as-written member | corrected member |
|---|---|---|---|---|---|---|
| TodoApp.API/Entities/RefreshToken.cs:28 | `IsExpired` is `now >= CreatedAtUtc`, so a record counts as expired from the instant it is created | a login at instant t stores a record with `CreatedAtUtc = t`; a refresh at any t' >= t, with every stored record created no later than t', finds it inactive and answers "Invalid or expired refresh token." | `IsExpired` is `now >= ExpiresAtUtc`, so a token stays usable for its configured lifetime and a rotated token is refused on replay | high, not executed | Auth.LoginThenRefreshAsWritten | Auth.LoginRefreshReplayAtExpiry |
