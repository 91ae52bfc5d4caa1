/**
 * The employee record and the per-department permission matrix
 * (epicevents/app/auth/models.py).
 */
module AuthModels {
  import opened Wrappers
  import opened Rows

  /** The three fixed departments. */
  datatype Department = Commercial | Support | Management {
    /** The enum's string value. */
    function Text(): (t: string)
      ensures DepartmentNamed(t) == Some(this)
    {
      match this
      case Commercial => "COMMERCIAL"
      case Support => "SUPPORT"
      case Management => "MANAGEMENT"
    }
  }

  /** `Department(text)`: the department whose value is `text`, if any. */
  function DepartmentNamed(t: string): Option<Department> {
    if t == "COMMERCIAL" then Some(Commercial)
    else if t == "SUPPORT" then Some(Support)
    else if t == "MANAGEMENT" then Some(Management)
    else None
  }

  /**
   * A row of the `users` table. The row id is the key under which the
   * table stores it (see `Identity`); timestamps are plain integers.
   */
  datatype User = User(
    employeeId: string,
    fullName: string,
    email: string,
    passwordHash: string,
    department: Department,
    isActive: bool,
    createdAt: int,
    updatedAt: int)

  /** An authenticated caller: a user row together with its id. */
  datatype Identity = Identity(id: int, user: User)

  /** `User(...)` with the column defaults: active, both timestamps `now`. */
  function NewUser(employeeId: string, fullName: string, email: string, passwordHash: string,
                   department: Department, now: int): (u: User)
    ensures u.isActive
    ensures u.employeeId == employeeId && u.fullName == fullName && u.email == email
    ensures u.passwordHash == passwordHash && u.department == department
    ensures u.createdAt == now && u.updatedAt == now
  {
    User(employeeId, fullName, email, passwordHash, department, true, now, now)
  }

  /** `is_management`: exactly the users who may delete users. */
  predicate IsManagement(u: User): (b: bool)
    ensures b <==> HasPermission(u, "delete", "user")
  {
    u.department == Management
  }

  /** `is_commercial`: exactly the users who may create clients. */
  predicate IsCommercial(u: User): (b: bool)
    ensures b <==> HasPermission(u, "create", "client")
  {
    u.department == Commercial
  }

  /** `is_support`: exactly the users who may not create events. */
  predicate IsSupport(u: User): (b: bool)
    ensures b <==> !HasPermission(u, "create", "event")
  {
    u.department == Support
  }

  /** Every user answers true to exactly one of the three department tests. */
  lemma ExactlyOneDepartment(u: User)
    ensures IsManagement(u) || IsCommercial(u) || IsSupport(u)
    ensures !(IsManagement(u) && IsCommercial(u))
    ensures !(IsManagement(u) && IsSupport(u))
    ensures !(IsCommercial(u) && IsSupport(u))
  {
  }

  /**
   * The nested literal table of `has_permission`: the resources a department
   * may act on for one action name. An action the department's entry does not
   * list gets the empty list (the `.get(action, [])` default).
   */
  function AllowedResources(d: Department, action: string): seq<string> {
    match d
    case Management =>
      if action == "create" then ["user", "contract", "event"]
      else if action == "update" then ["user", "contract", "event"]
      else if action == "delete" then ["user"]
      else if action == "read" then ["user", "client", "contract", "event"]
      else []
    case Commercial =>
      if action == "create" then ["client", "event"]
      else if action == "update" then ["client", "contract"]
      else if action == "delete" then []
      else if action == "read" then ["client", "contract", "event"]
      else []
    case Support =>
      if action == "create" then []
      else if action == "update" then ["event"]
      else if action == "delete" then []
      else if action == "read" then ["client", "contract", "event"]
      else []
  }

  /** `User.has_permission(action, resource)`: membership in the table entry. */
  function HasPermission(u: User, action: string, resource: string): (allowed: bool)
    ensures allowed ==> action in {"create", "update", "delete", "read"}
    ensures allowed ==> resource in {"user", "client", "contract", "event"}
  {
    resource in AllowedResources(u.department, action)
  }

  // ---------------------------------------------------------------------
  // The same matrix as a typed grid, and the lemmas that tie the two.

  datatype Action = Create | Update | Delete | Read {
    function Name(): string {
      match this
      case Create => "create"
      case Update => "update"
      case Delete => "delete"
      case Read => "read"
    }
  }

  datatype Resource = UserKind | ClientKind | ContractKind | EventKind {
    function Name(): string {
      match this
      case UserKind => "user"
      case ClientKind => "client"
      case ContractKind => "contract"
      case EventKind => "event"
    }
  }

  /** The documented department x action grid, one set of resources per cell. */
  function Grid(d: Department, a: Action): set<Resource> {
    match (d, a)
    case (Management, Create) => {UserKind, ContractKind, EventKind}
    case (Management, Update) => {UserKind, ContractKind, EventKind}
    case (Management, Delete) => {UserKind}
    case (Management, Read) => {UserKind, ClientKind, ContractKind, EventKind}
    case (Commercial, Create) => {ClientKind, EventKind}
    case (Commercial, Update) => {ClientKind, ContractKind}
    case (Commercial, Delete) => {}
    case (Commercial, Read) => {ClientKind, ContractKind, EventKind}
    case (Support, Create) => {}
    case (Support, Update) => {EventKind}
    case (Support, Delete) => {}
    case (Support, Read) => {ClientKind, ContractKind, EventKind}
  }

  /** `has_permission` agrees with the grid on all 3 x 4 x 4 typed cases. */
  lemma MatrixIsGrid(u: User, a: Action, r: Resource)
    ensures HasPermission(u, a.Name(), r.Name()) <==> r in Grid(u.department, a)
  {
  }

  /** An action name outside the table is denied for every department. */
  lemma UnknownActionDenied(u: User, action: string, resource: string)
    requires action !in {"create", "update", "delete", "read"}
    ensures !HasPermission(u, action, resource)
  {
  }

  /** A resource name outside the table is denied for every action. */
  lemma UnknownResourceDenied(u: User, action: string, resource: string)
    requires resource !in {"user", "client", "contract", "event"}
    ensures !HasPermission(u, action, resource)
  {
  }

  /** Only MANAGEMENT deletes, and only users. */
  lemma OnlyManagementDeletesUsers(u: User, resource: string)
    ensures HasPermission(u, "delete", resource) <==> IsManagement(u) && resource == "user"
  {
  }

  /** Everyone reads clients, contracts and events; only MANAGEMENT reads users. */
  lemma ReadRules(u: User)
    ensures HasPermission(u, "read", "client")
    ensures HasPermission(u, "read", "contract")
    ensures HasPermission(u, "read", "event")
    ensures HasPermission(u, "read", "user") <==> IsManagement(u)
  {
  }

  /** SUPPORT creates nothing; COMMERCIAL creates clients and events but not contracts. */
  lemma CreateRules(u: User, resource: string)
    ensures IsSupport(u) ==> !HasPermission(u, "create", resource)
    ensures IsCommercial(u) ==>
      (HasPermission(u, "create", resource) <==> resource == "client" || resource == "event")
    ensures HasPermission(u, "create", "contract") <==> IsManagement(u)
  {
  }
}
