/** The user and role store the services work against, and the database
    context that holds it together with the refresh-token table. The
    `ApplicationUser` entity is not part of this model's sources; its
    fields here are the ones the services read and write. Identity keeps a
    user's roles in a join table; here they are a sequence on the user, in
    the order `GetRolesAsync` lists them. */
module Identity {
  import opened Common
  import opened RefreshTokens

  const AdminRole: string := "Admin"
  const UserRole: string := "User"

  datatype User = User(
    id: string,
    userName: Option<string>,
    email: Option<string>,
    firstName: string,
    lastName: string,
    isDeleted: bool,
    roles: seq<string>)

  datatype IdentityError = IdentityError(code: string, description: string)

  /** `IdentityResult`: success, or failure with its errors. */
  datatype IdentityResult = IdentityResult(succeeded: bool, errors: seq<IdentityError>)

  /** `IdentityResult.Success`. */
  const IdentitySuccess: IdentityResult := IdentityResult(true, [])

  /** `IdentityResult.Failed(errors)`. */
  function IdentityFailed(errors: seq<IdentityError>): IdentityResult {
    IdentityResult(false, errors)
  }

  /** The database context: the Identity user and role tables and the refresh-token table. */
  class ApplicationDbContext {
    var users: seq<User>
    var roles: set<string>
    var refreshTokens: seq<RefreshToken>

    constructor (users: seq<User>, roles: set<string>, refreshTokens: seq<RefreshToken>)
      ensures this.users == users && this.roles == roles && this.refreshTokens == refreshTokens
    {
      this.users := users;
      this.roles := roles;
      this.refreshTokens := refreshTokens;
    }
  }

  // ---------------------------------------------------------------------
  // UserManager lookups (they know nothing of soft deletion)
  // ---------------------------------------------------------------------

  function IdIs(id: string): User -> bool {
    (u: User) => u.id == id
  }

  function EmailIs(email: string): User -> bool {
    (u: User) => u.email == Some(email)
  }

  /** `UserManager.FindByIdAsync`, as an index into the user table. */
  function FindById(users: seq<User>, id: string): (k: Option<nat>)
    ensures k.Some? ==> k.value < |users| && users[k.value].id == id
    ensures k.None? ==> forall j :: 0 <= j < |users| ==> users[j].id != id
  {
    FirstMatch(users, IdIs(id))
  }

  /** `UserManager.FindByEmailAsync`, as an index into the user table. */
  function FindByEmail(users: seq<User>, email: string): (k: Option<nat>)
    ensures k.Some? ==> k.value < |users| && users[k.value].email == Some(email)
    ensures k.None? ==> forall j :: 0 <= j < |users| ==> users[j].email != Some(email)
  {
    FirstMatch(users, EmailIs(email))
  }

  // ---------------------------------------------------------------------
  // Role membership
  // ---------------------------------------------------------------------

  /** `UserManager.AddToRoleAsync` on a user who is not yet in the role. */
  function AddRole(roles: seq<string>, role: string): (r: seq<string>)
    ensures role in r
    ensures forall x :: x in roles ==> x in r
    ensures forall x :: x in r ==> x in roles || x == role
  {
    if role in roles then roles else roles + [role]
  }

  /** `UserManager.RemoveFromRoleAsync`: every other role stays, in order. */
  function RemoveRole(roles: seq<string>, role: string): (r: seq<string>)
    ensures role !in r
    ensures forall x :: x in roles && x != role ==> x in r
    ensures forall x :: x in r ==> x in roles
    ensures role !in roles ==> r == roles
  {
    if |roles| == 0 then []
    else if roles[0] == role then RemoveRole(roles[1..], role)
    else [roles[0]] + RemoveRole(roles[1..], role)
  }
}
