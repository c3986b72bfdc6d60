/**
 * The role check that guards the employee routes: `isRoleAuthorized(user,
 * roles)` returns normally when the user's role is in the list and throws a
 * Forbidden error otherwise.
 */
module AuthUtils {
  import opened Wrappers
  import opened JsText

  /** The decoded token payload: who logged in and with which role. */
  datatype User = User(username: string, role: string)

  /**
   * `isRoleAuthorized(user, roles)`: Pass when it returns, Fail with the
   * message of the Error it throws otherwise.
   */
  function IsRoleAuthorized(user: User, roles: seq<string>): (r: Outcome<string>)
    ensures r.Pass? <==> user.role in roles
    ensures r.Fail? ==> r.error == "Forbidden: Insufficient permissions for role " + user.role
  {
    if !Includes(roles, user.role) then Fail("Forbidden: Insufficient permissions for role " + user.role)
    else Pass
  }

  /** An empty list admits nobody. */
  lemma EmptyListForbids(user: User)
    ensures IsRoleAuthorized(user, []) == Fail("Forbidden: Insufficient permissions for role " + user.role)
  {
  }

  /** Only the role is consulted: two users with the same role get the same answer. */
  lemma OnlyRoleMatters(u: User, v: User, roles: seq<string>)
    requires u.role == v.role
    ensures IsRoleAuthorized(u, roles) == IsRoleAuthorized(v, roles)
  {
  }

  /** Growing the list never takes a permission away. */
  lemma Monotone(user: User, roles: seq<string>, wider: seq<string>)
    requires forall x :: x in roles ==> x in wider
    requires IsRoleAuthorized(user, roles).Pass?
    ensures IsRoleAuthorized(user, wider).Pass?
  {
  }

  /**
   * Membership is exact string equality with no hierarchy among roles:
   * "superadmin" is refused by a list that holds only "admin".
   */
  lemma NoHierarchy(username: string)
    ensures IsRoleAuthorized(User(username, "superadmin"), ["admin"]).Fail?
  {
  }
}
