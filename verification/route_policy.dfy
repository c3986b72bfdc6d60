/**
 * The access policy of the employee routes: the role list each route hands
 * to the role check, and what that admits. The request handling itself
 * (HTTP, SQL, logging) is not modelled.
 */
module RoutePolicy {
  import opened Wrappers
  import opened AuthUtils
  import IdGenerator

  /** The employee routes. */
  datatype Route = CreateEmployee | ListEmployees | GetEmployee | UpdateEmployee | DeleteEmployee

  const CreateRoles: seq<string> := ["admin", "superadmin"]
  const ListRoles: seq<string> := ["viewer", "admin", "superadmin"]
  const UpdateRoles: seq<string> := ["viewer", "admin", "superadmin"]
  const DeleteRoles: seq<string> := ["superadmin"]

  /** The role list a route checks, or None for the route that has no token or role check. */
  function GuardOf(route: Route): (g: Option<seq<string>>)
    ensures g.None? <==> route == GetEmployee
  {
    match route
    case CreateEmployee => Some(CreateRoles)
    case ListEmployees => Some(ListRoles)
    case GetEmployee => None
    case UpdateEmployee => Some(UpdateRoles)
    case DeleteEmployee => Some(DeleteRoles)
  }

  /** Whether a user holding a valid token gets past the route's role check. */
  function Admits(route: Route, user: User): (b: bool)
    ensures b <==> GuardOf(route).None? || user.role in GuardOf(route).value
  {
    match GuardOf(route)
    case None => true
    case Some(roles) => IsRoleAuthorized(user, roles).Pass?
  }

  /** Only "superadmin" may delete an employee. */
  lemma OnlySuperadminDeletes(user: User)
    ensures Admits(DeleteEmployee, user) <==> user.role == "superadmin"
  {
  }

  /** "viewer" may update an employee and list them, but not create one. */
  lemma ViewerPermissions(username: string)
    ensures Admits(UpdateEmployee, User(username, "viewer"))
    ensures Admits(ListEmployees, User(username, "viewer"))
    ensures !Admits(CreateEmployee, User(username, "viewer"))
    ensures !Admits(DeleteEmployee, User(username, "viewer"))
  {
  }

  /**
   * The district roles appear in no route's list: a token carrying one is
   * refused everywhere except on the unguarded single-employee read.
   */
  lemma DistrictRolesRefused(route: Route, username: string, role: IdGenerator.Role)
    requires IdGenerator.IsDistrictRole(role)
    ensures Admits(route, User(username, IdGenerator.RoleName(role))) <==> route == GetEmployee
  {
  }

  /** The lists are nested: whoever may delete may create, and whoever may create may list and update. */
  lemma NestedLists(route: Route, user: User)
    ensures Admits(DeleteEmployee, user) ==> Admits(CreateEmployee, user)
    ensures Admits(CreateEmployee, user) ==> Admits(ListEmployees, user) && Admits(UpdateEmployee, user)
  {
  }

  /** The single-employee read checks neither token nor role: every user gets through. */
  lemma GetEmployeeUnguarded(user: User)
    ensures Admits(GetEmployee, user)
  {
  }
}
