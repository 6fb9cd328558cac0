/** The user service: lookups that honour soft deletion, the paged listings
    ordered by email then id, and the field updates for soft deletion,
    restoration and profile edits. The lookups and listings are LINQ
    pipelines and are functions over the user table; the updates change a
    stored row and are methods of `UserService`. String ordering is ordinal
    (character by character); the database collation is not modelled. */
module Users {
  import opened Common
  import opened Identity

  // ---------------------------------------------------------------------
  // DTOs
  // ---------------------------------------------------------------------

  datatype UserDto = UserDto(
    id: string,
    firstName: string,
    lastName: string,
    userName: Option<string>,
    email: Option<string>)

  datatype UpdateDto = UpdateDto(firstName: string, lastName: Option<string>)

  datatype ChangePasswordDto = ChangePasswordDto(currentPassword: string, newPassword: string)

  /** The `Select(u => new ApplicationUserDto { ... })` projection. */
  function ToDto(u: User): UserDto {
    UserDto(u.id, u.firstName, u.lastName, u.userName, u.email)
  }

  // ---------------------------------------------------------------------
  // LINQ operators used by the pipelines
  // ---------------------------------------------------------------------

  /** `Where(p)`: the elements satisfying `p`, in order. */
  function Where<T>(s: seq<T>, p: T -> bool): (r: seq<T>)
    ensures |r| <= |s|
    ensures forall x :: x in r ==> x in s && p(x)
    ensures forall j :: 0 <= j < |s| && p(s[j]) ==> s[j] in r
  {
    if |s| == 0 then []
    else if p(s[0]) then [s[0]] + Where(s[1..], p)
    else Where(s[1..], p)
  }

  /** `Select(ToDto)`. */
  function SelectDtos(s: seq<User>): (r: seq<UserDto>)
    ensures |r| == |s| && forall i :: 0 <= i < |s| ==> r[i] == ToDto(s[i])
  {
    seq(|s|, i requires 0 <= i < |s| => ToDto(s[i]))
  }

  /** `Skip(n)`: nothing is skipped for `n <= 0`, everything for `n >= |s|`. */
  function Skip<T>(s: seq<T>, n: int): (r: seq<T>)
    ensures n <= 0 ==> r == s
    ensures n >= |s| ==> r == []
    ensures 0 <= n <= |s| ==> r == s[n..]
  {
    if n <= 0 then s else if n >= |s| then [] else s[n..]
  }

  /** `Take(n)`: at most `n` leading elements. */
  function Take<T>(s: seq<T>, n: int): (r: seq<T>)
    ensures n <= 0 ==> r == []
    ensures n >= |s| ==> r == s
    ensures 0 <= n <= |s| ==> r == s[..n]
  {
    if n <= 0 then [] else if n >= |s| then s else s[..n]
  }

  /** The first match of `FirstMatch` is the head of `Where`. */
  lemma {:induction false} WhereHeadIsFirstMatch<T>(s: seq<T>, p: T -> bool)
    ensures FirstMatch(s, p).None? <==> |Where(s, p)| == 0
    ensures FirstMatch(s, p).Some? ==> Where(s, p)[0] == s[FirstMatch(s, p).value]
  {
    if |s| > 0 && !p(s[0]) {
      WhereHeadIsFirstMatch(s[1..], p);
    }
  }

  // ---------------------------------------------------------------------
  // Lookups (soft-delete filter)
  // ---------------------------------------------------------------------

  function NotDeleted(): User -> bool {
    (u: User) => !u.isDeleted
  }

  /** The query a lookup starts from: every user, or only those not soft-deleted. */
  function VisibleUsers(users: seq<User>, includeDeleted: bool): (r: seq<User>)
    ensures forall u :: u in r ==> u in users && (includeDeleted || !u.isDeleted)
    ensures forall j :: 0 <= j < |users| && (includeDeleted || !users[j].isDeleted) ==> users[j] in r
  {
    if includeDeleted then users else Where(users, NotDeleted())
  }

  /** `GetByIdAsync`: the first user with the id, skipping soft-deleted users unless
      `includeDeleted`. */
  function GetById(users: seq<User>, id: string, includeDeleted: bool): (r: Option<User>)
    ensures r.Some? ==> r.value in users && r.value.id == id && (includeDeleted || !r.value.isDeleted)
    ensures r.None? ==>
      forall j :: 0 <= j < |users| && users[j].id == id ==> !includeDeleted && users[j].isDeleted
  {
    var query := VisibleUsers(users, includeDeleted);
    match FirstMatch(query, IdIs(id))
    case Some(k) => Some(query[k])
    case None =>
      assert forall j :: 0 <= j < |users| && users[j].id == id && (includeDeleted || !users[j].isDeleted) ==>
          users[j] in query;
      None
  }

  /** With soft-deleted users included, the lookup is `FindByIdAsync`'s row. */
  lemma GetByIdIncludingDeleted(users: seq<User>, id: string)
    ensures GetById(users, id, true) ==
      if FindById(users, id).Some? then Some(users[FindById(users, id).value]) else None
  {
  }

  /** `GetDtoByIdAsync`: filter, match the id, project, then take the first. */
  function GetDtoById(users: seq<User>, id: string, includeDeleted: bool): Option<UserDto> {
    var dtos := SelectDtos(Where(VisibleUsers(users, includeDeleted), IdIs(id)));
    if |dtos| == 0 then None else Some(dtos[0])
  }

  /** The DTO lookup is the projection of the entity lookup, so it also returns null for a
      soft-deleted user unless `includeDeleted`. */
  lemma GetDtoByIdIsProjection(users: seq<User>, id: string, includeDeleted: bool)
    ensures GetDtoById(users, id, includeDeleted) ==
      match GetById(users, id, includeDeleted)
      case Some(u) => Some(ToDto(u))
      case None => None
  {
    WhereHeadIsFirstMatch(VisibleUsers(users, includeDeleted), IdIs(id));
  }

  // ---------------------------------------------------------------------
  // Ordering: by email (null first), then by id
  // ---------------------------------------------------------------------

  /** Ordinal string order: a prefix comes first, otherwise the first differing character decides. */
  predicate StrLe(a: string, b: string)
    decreases |a|
  {
    if |a| == 0 then true
    else if |b| == 0 then false
    else if a[0] != b[0] then a[0] < b[0]
    else StrLe(a[1..], b[1..])
  }

  lemma {:induction false} StrLeTotal(a: string, b: string)
    ensures StrLe(a, b) || StrLe(b, a)
    decreases |a|
  {
    if |a| > 0 && |b| > 0 && a[0] == b[0] {
      StrLeTotal(a[1..], b[1..]);
    }
  }

  lemma {:induction false} StrLeAntisymmetric(a: string, b: string)
    requires StrLe(a, b) && StrLe(b, a)
    ensures a == b
    decreases |a|
  {
    if |a| > 0 {
      StrLeAntisymmetric(a[1..], b[1..]);
      assert a == [a[0]] + a[1..] && b == [b[0]] + b[1..];
    }
  }

  lemma {:induction false} StrLeTransitive(a: string, b: string, c: string)
    requires StrLe(a, b) && StrLe(b, c)
    ensures StrLe(a, c)
    decreases |a|
  {
    if |a| > 0 && a[0] == b[0] && b[0] == c[0] {
      StrLeTransitive(a[1..], b[1..], c[1..]);
    }
  }

  /** `OrderBy(u => u.Email)` with nulls first. */
  predicate EmailLe(a: Option<string>, b: Option<string>) {
    a.None? || (b.Some? && StrLe(a.value, b.value))
  }

  /** `OrderBy(u => u.Email).ThenBy(u => u.Id)`: `u` may come before `v`. */
  predicate KeyLe(u: User, v: User) {
    if u.email == v.email then StrLe(u.id, v.id) else EmailLe(u.email, v.email)
  }

  lemma KeyLeTotal(u: User, v: User)
    ensures KeyLe(u, v) || KeyLe(v, u)
  {
    StrLeTotal(u.id, v.id);
    if u.email.Some? && v.email.Some? {
      StrLeTotal(u.email.value, v.email.value);
    }
  }

  lemma KeyLeTransitive(u: User, v: User, w: User)
    requires KeyLe(u, v) && KeyLe(v, w)
    ensures KeyLe(u, w)
  {
    if u.email == v.email && v.email == w.email {
      StrLeTransitive(u.id, v.id, w.id);
    } else if u.email != v.email && v.email != w.email {
      if u.email == w.email {
        if u.email.Some? && v.email.Some? {
          StrLeAntisymmetric(u.email.value, v.email.value);
        }
      } else if u.email.Some? {
        StrLeTransitive(u.email.value, v.email.value, w.email.value);
      }
    }
  }

  predicate Sorted(s: seq<User>) {
    forall i, j :: 0 <= i < j < |s| ==> KeyLe(s[i], s[j])
  }

  function Insert(u: User, s: seq<User>): (r: seq<User>)
    ensures |r| == |s| + 1 && multiset(r) == multiset(s) + multiset{u}
  {
    if |s| == 0 then [u]
    else if KeyLe(u, s[0]) then [u] + s
    else
      assert s == [s[0]] + s[1..];
      [s[0]] + Insert(u, s[1..])
  }

  lemma {:induction false} InsertSorted(u: User, s: seq<User>)
    requires Sorted(s)
    ensures Sorted(Insert(u, s))
  {
    if |s| > 0 {
      if KeyLe(u, s[0]) {
        forall j | 0 <= j < |s| ensures KeyLe(u, s[j]) {
          if j > 0 { KeyLeTransitive(u, s[0], s[j]); }
        }
      } else {
        KeyLeTotal(u, s[0]);
        InsertSorted(u, s[1..]);
        var rest := Insert(u, s[1..]);
        forall j | 0 <= j < |rest| ensures KeyLe(s[0], rest[j]) {
          assert rest[j] in multiset(rest);
          if rest[j] != u {
            assert rest[j] in multiset(s[1..]);
            var i :| 0 <= i < |s[1..]| && s[1..][i] == rest[j];
            assert s[i + 1] == rest[j];
          }
        }
      }
    }
  }

  /** Inserting the head into the sorted tail gives a sorted permutation of the whole. */
  lemma SortStep(users: seq<User>, rest: seq<User>)
    requires |users| > 0 && Sorted(rest) && multiset(rest) == multiset(users[1..])
    ensures Sorted(Insert(users[0], rest)) && multiset(Insert(users[0], rest)) == multiset(users)
  {
    InsertSorted(users[0], rest);
    assert users == [users[0]] + users[1..];
  }

  /** The table in the listing order: a sorted permutation of the users. */
  function SortByEmailThenId(users: seq<User>): (r: seq<User>)
    ensures |r| == |users| && multiset(r) == multiset(users)
    ensures Sorted(r)
  {
    if |users| == 0 then []
    else
      var rest := SortByEmailThenId(users[1..]);
      SortStep(users, rest);
      Insert(users[0], rest)
  }

  // ---------------------------------------------------------------------
  // Paging
  // ---------------------------------------------------------------------

  const MaxPageSize: int := 200

  /** `Math.Max(1, page)`. */
  function ClampPage(page: int): (p: int)
    ensures p >= 1 && p >= page
    ensures page >= 1 ==> p == page
    ensures page < 1 ==> p == 1
  {
    if page < 1 then 1 else page
  }

  /** `Math.Clamp(pageSize, 1, 200)`. */
  function ClampPageSize(pageSize: int): (n: int)
    ensures 1 <= n <= MaxPageSize
    ensures 1 <= pageSize <= MaxPageSize ==> n == pageSize
    ensures pageSize < 1 ==> n == 1
    ensures pageSize > MaxPageSize ==> n == MaxPageSize
  {
    if pageSize < 1 then 1 else if pageSize > MaxPageSize then MaxPageSize else pageSize
  }

  /** The number of sorted users a page skips. */
  function PageStart(page: int, pageSize: int): (n: int)
    ensures n >= 0
  {
    (ClampPage(page) - 1) * ClampPageSize(pageSize)
  }

  /** `GetUsersAsync`: clamp, order by email then id, skip, take. */
  function GetUsers(users: seq<User>, page: int, pageSize: int): seq<User> {
    Take(Skip(SortByEmailThenId(users), PageStart(page, pageSize)), ClampPageSize(pageSize))
  }

  /** `GetUserDtosAsync`: the same pipeline, projected. */
  function GetUserDtos(users: seq<User>, page: int, pageSize: int): seq<UserDto> {
    SelectDtos(Take(Skip(SortByEmailThenId(users), PageStart(page, pageSize)), ClampPageSize(pageSize)))
  }

  /** A page is the run of the sorted table that starts after the skipped users: at most
      the clamped size (so at most 200) entries, in listing order, none filtered out. */
  lemma PageContents(users: seq<User>, page: int, pageSize: int)
    ensures var r := GetUsers(users, page, pageSize);
      var start := PageStart(page, pageSize);
      && |r| <= ClampPageSize(pageSize) <= MaxPageSize
      && |r| == (if start >= |users| then 0 else Min(ClampPageSize(pageSize), |users| - start))
      && (forall i :: 0 <= i < |r| ==> r[i] == SortByEmailThenId(users)[start + i])
      && Sorted(r)
  {
    var sorted := SortByEmailThenId(users);
    var start := PageStart(page, pageSize);
    var size := ClampPageSize(pageSize);
    var skipped := Skip(sorted, start);
    var r := Take(skipped, size);
    assert r == GetUsers(users, page, pageSize);
    if start < |sorted| {
      assert skipped == sorted[start..];
      assert r == sorted[start..start + Min(size, |sorted| - start)];
    } else {
      assert r == [];
    }
  }

  function Min(a: int, b: int): int {
    if a <= b then a else b
  }

  /** The DTO listing is the projection of the entity listing, page for page. */
  lemma GetUserDtosIsProjection(users: seq<User>, page: int, pageSize: int)
    ensures GetUserDtos(users, page, pageSize) == SelectDtos(GetUsers(users, page, pageSize))
  {
  }

  /** With a fixed requested page size, the pages partition the listing: with `size` the
      clamped size, entry `r` of page `q + 1` is the user at position `q * size + r` of the
      sorted table. So every user, soft-deleted or not, is listed on exactly one page. */
  lemma PagesPartitionListing(users: seq<User>, pageSize: int, q: nat, r: nat)
    requires r < ClampPageSize(pageSize) && q * ClampPageSize(pageSize) + r < |users|
    ensures r < |GetUsers(users, q + 1, pageSize)|
    ensures GetUsers(users, q + 1, pageSize)[r] == SortByEmailThenId(users)[q * ClampPageSize(pageSize) + r]
  {
    var size := ClampPageSize(pageSize);
    assert PageStart(q + 1, pageSize) == q * size;
    PageContents(users, q + 1, pageSize);
  }

  lemma DivModBounds(n: int, d: int)
    requires 0 <= n && 1 <= d
    ensures n / d >= 0 && 0 <= n % d < d && n == (n / d) * d + n % d
  {
  }

  /** Every stored user, soft-deleted or not, appears on some page, whatever page size
      is requested. */
  lemma EveryUserIsListed(users: seq<User>, pageSize: int, u: User)
    requires u in users
    ensures exists page :: page >= 1 && u in GetUsers(users, page, pageSize)
  {
    var sorted := SortByEmailThenId(users);
    assert u in multiset(sorted);
    var i :| 0 <= i < |sorted| && sorted[i] == u;
    var size := ClampPageSize(pageSize);
    DivModBounds(i, size);
    var q: nat, r: nat := i / size, i % size;
    assert q * size + r == i;
    PagesPartitionListing(users, pageSize, q, r);
    var listed := GetUsers(users, q + 1, pageSize);
    assert listed[r] == sorted[i] == u;
  }

  // ---------------------------------------------------------------------
  // Row updates
  // ---------------------------------------------------------------------

  /** Identity keys users by id: no two rows share one. */
  ghost predicate UniqueIds(users: seq<User>) {
    forall i, j :: 0 <= i < |users| && 0 <= j < |users| && users[i].id == users[j].id ==> i == j
  }

  /** `dbContext.Users.Update(user)` then save: the row with the entity's id takes its
      values; with no such row the table is left as it was. */
  function WriteBack(users: seq<User>, u: User): (r: seq<User>)
    ensures |r| == |users|
    ensures FindById(users, u.id).None? ==> r == users
    ensures FindById(users, u.id).Some? ==> r == users[FindById(users, u.id).value := u]
  {
    match FindById(users, u.id)
    case Some(k) => users[k := u]
    case None => users
  }

  /** `user.IsDeleted = flag` on the row with the id, if any. */
  function SetDeleted(users: seq<User>, id: string, flag: bool): seq<User> {
    match FindById(users, id)
    case Some(k) => WriteBack(users, users[k].(isDeleted := flag))
    case None => users
  }

  /** The profile fields `UpdateProfileAsync` writes. */
  function WithProfile(u: User, dto: UpdateDto): (r: User)
    ensures r.firstName == dto.firstName && r.lastName == dto.lastName.OrElse("")
    ensures r.(firstName := u.firstName, lastName := u.lastName) == u
  {
    u.(firstName := dto.firstName, lastName := dto.lastName.OrElse(""))
  }

  /** Setting the flag touches only the flag of the row with the id; every other row and
      field is kept, and no row is added or removed. */
  lemma SetDeletedChangesOnlyTheFlag(users: seq<User>, id: string, flag: bool)
    ensures |SetDeleted(users, id, flag)| == |users|
    ensures forall j :: 0 <= j < |users| ==>
      SetDeleted(users, id, flag)[j] ==
        if Some(j) == FindById(users, id) then users[j].(isDeleted := flag) else users[j]
  {
  }

  /** Soft delete and restore are idempotent. */
  lemma {:induction false} SetDeletedIdempotent(users: seq<User>, id: string, flag: bool)
    ensures SetDeleted(SetDeleted(users, id, flag), id, flag) == SetDeleted(users, id, flag)
  {
    var k := FindById(users, id);
    if k.Some? {
      FirstMatchUpdate(users, k.value, users[k.value].(isDeleted := flag), IdIs(id));
    }
  }

  /** Restoring a soft-deleted user gives back the table as it was before the deletion. */
  lemma {:induction false} RestoreUndoesSoftDelete(users: seq<User>, id: string)
    requires FindById(users, id).Some? ==> !users[FindById(users, id).value].isDeleted
    ensures SetDeleted(SetDeleted(users, id, true), id, false) == users
  {
    var k := FindById(users, id);
    if k.Some? {
      FirstMatchUpdate(users, k.value, users[k.value].(isDeleted := true), IdIs(id));
    }
  }

  /** With unique ids, a soft-deleted user disappears from the default lookup and stays
      visible to the lookup that includes deleted users; a restored one is visible to both. */
  lemma {:induction false} SoftDeleteHidesUser(users: seq<User>, id: string)
    requires UniqueIds(users) && FindById(users, id).Some?
    ensures GetById(SetDeleted(users, id, true), id, false).None?
    ensures GetById(SetDeleted(users, id, true), id, true).Some?
    ensures GetById(SetDeleted(users, id, false), id, false).Some?
  {
    var k := FindById(users, id).value;
    FirstMatchUpdate(users, k, users[k].(isDeleted := true), IdIs(id));
    FirstMatchUpdate(users, k, users[k].(isDeleted := false), IdIs(id));
    var after := SetDeleted(users, id, false);
    assert after[k].id == id && !after[k].isDeleted;
  }

  /** A profile update is idempotent. */
  lemma {:induction false} WriteBackProfileIdempotent(users: seq<User>, u: User, dto: UpdateDto)
    ensures WriteBack(WriteBack(users, WithProfile(u, dto)), WithProfile(u, dto)) ==
            WriteBack(users, WithProfile(u, dto))
  {
    var k := FindById(users, u.id);
    if k.Some? {
      FirstMatchUpdate(users, k.value, WithProfile(u, dto), IdIs(u.id));
    }
  }

  /** With unique ids, a profile edit of the user the default lookup finds changes that
      user's names and nothing else: no other row, and no other field of that row. */
  lemma {:induction false} ProfileEditTouchesOnlyItsRow(users: seq<User>, id: string, dto: UpdateDto)
    requires UniqueIds(users) && GetById(users, id, false).Some?
    ensures var after := WriteBack(users, WithProfile(GetById(users, id, false).value, dto));
      && |after| == |users|
      && forall j :: 0 <= j < |users| ==>
           after[j] == if users[j].id == id then WithProfile(users[j], dto) else users[j]
  {
    var u := GetById(users, id, false).value;
    var j :| 0 <= j < |users| && users[j] == u;
    var k := FindById(users, id);
    assert k.Some?;
    assert users[k.value].id == users[j].id;
  }

  /** The `NotFound` failure of `ChangePasswordAsync(userId, ...)`. */
  function NoUserWithId(userId: string): (r: IdentityResult)
    ensures !r.succeeded && |r.errors| == 1 && r.errors[0].code == "NotFound"
  {
    IdentityFailed([IdentityError("NotFound", "No user with the id of " + userId + " was found.")])
  }

  class UserService {
    const db: ApplicationDbContext

    constructor (db: ApplicationDbContext)
      ensures this.db == db
    {
      this.db := db;
    }

    /** `ChangePasswordAsync(userId, dto)`: deleted users are looked up too; an unknown id
        is `NotFound`, otherwise the answer is `outcome`, the result of
        `UserManager.ChangePasswordAsync` for the user found. */
    method ChangePassword(userId: string, dto: ChangePasswordDto, outcome: IdentityResult)
      returns (r: IdentityResult)
      ensures GetById(db.users, userId, true).None? ==> r == NoUserWithId(userId)
      ensures GetById(db.users, userId, true).Some? ==> r == outcome
      ensures r.succeeded ==> exists j :: 0 <= j < |db.users| && db.users[j].id == userId
    {
      var user := GetById(db.users, userId, true);
      if user.None? {
        return NoUserWithId(userId);
      }
      r := outcome;
    }

    /** `DeleteAsync`: removes the user's row; a missing user is a no-op. */
    method Delete(id: string)
      modifies db`users
      ensures FindById(old(db.users), id).None? ==> db.users == old(db.users)
      ensures FindById(old(db.users), id).Some? ==>
        var k := FindById(old(db.users), id).value;
        db.users == old(db.users)[..k] + old(db.users)[k + 1..]
      ensures UniqueIds(old(db.users)) ==> FindById(db.users, id).None?
    {
      var user := GetById(db.users, id, true);
      if user.None? {
        return;
      }
      var k := FindById(db.users, id).value;
      ghost var before := db.users;
      db.users := db.users[..k] + db.users[k + 1..];
      if UniqueIds(before) {
        forall j | 0 <= j < |db.users| ensures db.users[j].id != id {
          if j < k {
            assert db.users[j] == before[j];
          } else {
            assert db.users[j] == before[j + 1];
          }
        }
      }
    }

    /** `SoftDeleteAsync(userId)`: deleted users are looked up too; the flag is set. */
    method SoftDelete(userId: string)
      modifies db`users
      ensures db.users == SetDeleted(old(db.users), userId, true)
    {
      var user := GetById(db.users, userId, true);
      if user.None? {
        return;
      }
      db.users := WriteBack(db.users, user.value.(isDeleted := true));
    }

    /** `SoftDeleteAsync(user)`: a null user is a no-op; otherwise the entity, flagged, is
        written back over its row. */
    method SoftDeleteUser(user: Option<User>)
      modifies db`users
      ensures user.None? ==> db.users == old(db.users)
      ensures user.Some? ==> db.users == WriteBack(old(db.users), user.value.(isDeleted := true))
    {
      if user.None? {
        return;
      }
      db.users := WriteBack(db.users, user.value.(isDeleted := true));
    }

    /** `RestoreUserAsync(userId)`: deleted users are looked up too; the flag is cleared. */
    method Restore(userId: string)
      modifies db`users
      ensures db.users == SetDeleted(old(db.users), userId, false)
    {
      var user := GetById(db.users, userId, true);
      if user.None? {
        return;
      }
      db.users := WriteBack(db.users, user.value.(isDeleted := false));
    }

    /** `RestoreUserAsync(user)`: a null user is a no-op; otherwise the entity, unflagged,
        is written back over its row. */
    method RestoreUser(user: Option<User>)
      modifies db`users
      ensures user.None? ==> db.users == old(db.users)
      ensures user.Some? ==> db.users == WriteBack(old(db.users), user.value.(isDeleted := false))
    {
      if user.None? {
        return;
      }
      db.users := WriteBack(db.users, user.value.(isDeleted := false));
    }

    /** `UpdateProfileAsync(user, dto)`: the entity with the new names is written back. */
    method UpdateProfileUser(user: User, dto: UpdateDto)
      modifies db`users
      ensures db.users == WriteBack(old(db.users), WithProfile(user, dto))
    {
      db.users := WriteBack(db.users, WithProfile(user, dto));
    }

    /** `UpdateProfileAsync(userId, dto)`: a missing or soft-deleted user is a no-op;
        otherwise the renamed entity is written over the first row with its id, so with
        unique ids only that user's names change. */
    method UpdateProfile(userId: string, dto: UpdateDto)
      modifies db`users
      ensures GetById(old(db.users), userId, false).None? ==> db.users == old(db.users)
      ensures GetById(old(db.users), userId, false).Some? ==>
        db.users == WriteBack(old(db.users), WithProfile(GetById(old(db.users), userId, false).value, dto))
      ensures UniqueIds(old(db.users)) && GetById(old(db.users), userId, false).Some? ==>
        forall j :: 0 <= j < |old(db.users)| ==>
          db.users[j] == if old(db.users)[j].id == userId then WithProfile(old(db.users)[j], dto)
                         else old(db.users)[j]
    {
      var user := GetById(db.users, userId, false);
      if user.None? {
        return;
      }
      if UniqueIds(db.users) {
        ProfileEditTouchesOnlyItsRow(db.users, userId, dto);
      }
      UpdateProfileUser(user.value, dto);
    }
  }
}
