/**
 * The three decorators of epicevents/app/utils/permissions.py. The ambient
 * logged-in user is passed in as an `Option<Identity>`; the wrapped call
 * receives it as `current_user`.
 */
module Guards {
  import opened Wrappers
  import opened AuthModels
  import opened Errors

  datatype Guard =
    /** `@require_auth` */
    | RequireAuth
    /** `@require_department(*departments)` */
    | RequireDepartment(departments: seq<Department>)
    /** `@require_permission(action, resource)` */
    | RequirePermission(action: string, resource: string)

  /** Why one decorator refuses the call, if it does: authentication is always tested first. */
  function Refusal(g: Guard, user: Option<Identity>): (f: Option<Failure>)
    ensures user.None? ==> f == Some(AuthenticationRequired)
    ensures user.Some? && g.RequireAuth? ==> f.None?
    ensures user.Some? && g.RequireDepartment? ==>
      (f.None? <==> user.value.user.department in g.departments)
      && (f.Some? ==> f.value == WrongDepartment(g.departments))
    ensures user.Some? && g.RequirePermission? ==>
      (f.None? <==> HasPermission(user.value.user, g.action, g.resource))
      && (f.Some? ==> f.value == NoPermission(g.action, g.resource))
    ensures f.Some? ==> f.value.IsPermissionError()
  {
    match user
    case None => Some(AuthenticationRequired)
    case Some(me) =>
      match g
      case RequireAuth => None
      case RequireDepartment(ds) => if me.user.department in ds then None else Some(WrongDepartment(ds))
      case RequirePermission(a, r) => if HasPermission(me.user, a, r) then None else Some(NoPermission(a, r))
  }

  /**
   * A function decorated by `guards`, outermost first: each wrapper either
   * raises or calls the next, and the innermost calls `body` with the user.
   */
  function Guarded<T>(guards: seq<Guard>, user: Option<Identity>, body: Identity -> Result<T>): (r: Result<T>)
    requires |guards| > 0
    ensures (forall i :: 0 <= i < |guards| ==> Refusal(guards[i], user).None?) ==>
      user.Some? && r == body(user.value)
    ensures forall i :: 0 <= i < |guards| && Refusal(guards[i], user).Some? &&
             (forall j :: 0 <= j < i ==> Refusal(guards[j], user).None?)
             ==> r == Err(Refusal(guards[i], user).value)
    decreases |guards|
  {
    match Refusal(guards[0], user)
    case Some(f) => Err(f)
    case None =>
      if |guards| == 1 then body(user.value) else Guarded(guards[1..], user, body)
  }

  /** Without a logged-in user every decorated function fails before running. */
  lemma NoUserNoCall<T>(guards: seq<Guard>, body: Identity -> Result<T>)
    requires |guards| > 0
    ensures Guarded(guards, None, body) == Err(AuthenticationRequired)
  {
    assert Refusal(guards[0], None).Some?;
  }

  /** A stack fails exactly when one of its decorators refuses, and then with a permission error. */
  lemma {:induction false} GuardedFailsOnlyByRefusal<T>(guards: seq<Guard>, user: Option<Identity>, body: Identity -> Result<T>)
    requires |guards| > 0
    requires exists i :: 0 <= i < |guards| && Refusal(guards[i], user).Some?
    ensures Guarded(guards, user, body).Err? && Guarded(guards, user, body).failure.IsPermissionError()
    decreases |guards|
  {
    if Refusal(guards[0], user).None? {
      var i :| 0 <= i < |guards| && Refusal(guards[i], user).Some?;
      assert i != 0;
      assert guards[1..][i - 1] == guards[i];
      GuardedFailsOnlyByRefusal(guards[1..], user, body);
    }
  }

  /** A MANAGEMENT user passes `require_auth`, `require_department(MANAGEMENT)` and `require_permission("create", "user")`. */
  lemma ManagementPassesFullStack<T>(me: Identity, body: Identity -> Result<T>)
    requires IsManagement(me.user)
    ensures Guarded([RequireAuth, RequireDepartment([Management]), RequirePermission("create", "user")], Some(me), body)
      == body(me)
  {
    assert HasPermission(me.user, "create", "user");
    assert me.user.department in [Management];
  }

  /** The same stack refuses COMMERCIAL and SUPPORT users at the department test. */
  lemma OtherDepartmentsStopAtDepartment<T>(me: Identity, body: Identity -> Result<T>)
    requires !IsManagement(me.user)
    ensures Guarded([RequireAuth, RequireDepartment([Management]), RequirePermission("create", "user")], Some(me), body)
      == Err(WrongDepartment([Management]))
  {
  }
}
