/**
  The precondition checks the handlers run before they write: tenant-scoped
  lookups, invite validity, manager and last-admin rules, and the ownership
  rules for tasks and comments. Each check passes (possibly with the object it
  looked up) or fails with the status the handler answers with.
 */
module Validators {
  import opened Outcomes
  import opened Tables
  import opened Records
  import opened Store
  import opened Schemas
  import opened Emails
  import TaskCrud

  // ---------------------------------------------------------------------------
  // Lookups

  /** The row with primary key `id`, or 404. */
  function GetOr404<T>(rows: seq<T>, key: T -> int, id: int): (r: Result<T>)
    ensures r.Ok? <==> exists x :: x in rows && key(x) == id
    ensures r.Ok? ==> r.value in rows && key(r.value) == id
    ensures r.Err? ==> r.status == NotFound
  {
    match Get(rows, key, id)
    case Some(x) => Ok(x)
    case None => Err(NotFound)
  }

  /**
    The row with primary key `id`, returned unchanged, provided it belongs to
    `companyId`; a missing row and a row of another company both give 404.
   */
  function GetInCompanyOr404<T>(rows: seq<T>, key: T -> int, company: T -> int, id: int, companyId: int)
    : (r: Result<T>)
    ensures r.Ok? ==> r.value in rows && key(r.value) == id && company(r.value) == companyId
    ensures r.Ok? ==> Get(rows, key, id) == Some(r.value)
    ensures r.Err? ==> r.status == NotFound
    ensures UniqueBy(rows, key) ==>
      (r.Ok? <==> exists x :: x in rows && key(x) == id && company(x) == companyId)
  {
    var found := Get(rows, key, id);
    if found.None? || company(found.value) != companyId then Err(NotFound)
    else Ok(found.value)
  }

  /** The membership of `userId` in `companyId`, or 404. */
  function CheckUserInCompany(s: Store, userId: int, companyId: int): (r: Result<Membership>)
    ensures r.Ok? <==> MembershipOf(s, userId, companyId).Some?
    ensures r.Ok? ==> r.value in s.memberships && r.value.userId == userId && r.value.companyId == companyId
    ensures r.Err? ==> r.status == NotFound
  {
    match MembershipOf(s, userId, companyId)
    case Some(m) => Ok(m)
    case None => Err(NotFound)
  }

  // ---------------------------------------------------------------------------
  // Invites

  /**
    The invite with `code`, if it has not expired (an invite expiring exactly
    now is still valid) and is addressed to the acting user. Unknown and
    expired codes give 404; an invite for another address gives 403.
   */
  function CheckInviteExists(s: Store, code: string, actor: Actor, now: int): (r: Result<Invite>)
    ensures r.Ok? ==> r.value in s.invites && r.value.code == code
    ensures r.Ok? ==> now <= r.value.expiresAt && EmailsMatch(r.value.email, actor.email)
    ensures (forall i :: i in s.invites ==> i.code != code) ==> r == Err(NotFound)
    ensures r.Err? ==> r.status in {NotFound, Forbidden}
  {
    match Get(s.invites, InviteCode, code)
    case None => Err(NotFound)
    case Some(invite) =>
      if invite.expiresAt < now then Err(NotFound)
      else if Normalize(invite.email) != Normalize(actor.email) then Err(Forbidden)
      else Ok(invite)
  }

  /**
    With unique codes, the outcome for a stored invite is decided in this
    order: expiry first (404), then the address (403).
   */
  lemma InviteCheckOrder(s: Store, invite: Invite, actor: Actor, now: int)
    requires UniqueBy(s.invites, InviteCode)
    requires invite in s.invites
    ensures CheckInviteExists(s, invite.code, actor, now) ==
      if invite.expiresAt < now then Err(NotFound)
      else if !EmailsMatch(invite.email, actor.email) then Err(Forbidden)
      else Ok(invite)
  {
    GetUnique(s.invites, InviteCode, invite);
  }

  /** The manager's membership, which must exist (404) and be MANAGER or ADMIN (400). */
  function CheckManagerInCompany(s: Store, managerId: int, companyId: int): (r: Result<Membership>)
    ensures r.Ok? <==>
      && MembershipOf(s, managerId, companyId).Some?
      && MembershipOf(s, managerId, companyId).value.role in {Manager, Admin}
    ensures r.Ok? ==> r.value == MembershipOf(s, managerId, companyId).value
    ensures r.Err? ==> r.status == (if MembershipOf(s, managerId, companyId).None? then NotFound else BadRequest)
  {
    var m :- CheckUserInCompany(s, managerId, companyId);
    if m.role !in {Manager, Admin} then Err(BadRequest) else Ok(m)
  }

  /** What an invite points at exists: its department in the company when one is given, else the company. */
  predicate InviteTargetExists(s: Store, input: InviteCreate, companyId: int) {
    if Truthy(input.departmentId) then
      exists d :: d in s.departments && d.id == input.departmentId.value && d.companyId == companyId
    else CompanyExists(s, companyId)
  }

  /** A truthy manager id names a MANAGER or ADMIN member of the company. */
  predicate InviteManagerOk(s: Store, input: InviteCreate, companyId: int) {
    Truthy(input.managerId) ==> CheckManagerInCompany(s, input.managerId.value, companyId).Ok?
  }

  /**
    The invite's department must belong to the company (else the company must
    exist), 404 otherwise; then its manager must qualify (404 or 400).
   */
  function CheckBeforeInvite(s: Store, input: InviteCreate, companyId: int): (r: Check)
    ensures r.Ok? ==> InviteTargetExists(s, input, companyId) && InviteManagerOk(s, input, companyId)
    ensures UniqueBy(s.departments, DepartmentKey) ==>
      (r.Ok? <==> InviteTargetExists(s, input, companyId) && InviteManagerOk(s, input, companyId))
    ensures UniqueBy(s.departments, DepartmentKey) && !InviteTargetExists(s, input, companyId) ==>
      r == Err(NotFound)
    ensures UniqueBy(s.departments, DepartmentKey) && InviteTargetExists(s, input, companyId) ==>
      Truthy(input.managerId) && CheckManagerInCompany(s, input.managerId.value, companyId).Err? ==>
      r == Err(CheckManagerInCompany(s, input.managerId.value, companyId).status)
    ensures r.Err? ==> r.status in {NotFound, BadRequest}
  {
    var _ :- if Truthy(input.departmentId)
             then Ignore(GetInCompanyOr404(s.departments, DepartmentKey, DepartmentCompany,
                                           input.departmentId.value, companyId))
             else Ignore(GetOr404(s.companies, CompanyKey, companyId));
    if Truthy(input.managerId) then Ignore(CheckManagerInCompany(s, input.managerId.value, companyId))
    else Pass
  }

  // ---------------------------------------------------------------------------
  // Memberships

  /** Removing or demoting `m` is refused (400) when it is the company's last ADMIN. */
  function CheckLastAdmin(s: Store, m: Membership, companyId: int): (r: Check)
    ensures r.Err? <==> m.role == Admin && AdminCount(s, companyId) <= 1
    ensures r.Err? ==> r.status == BadRequest
  {
    if m.role == Admin && AdminCount(s, companyId) <= 1 then Err(BadRequest) else Pass
  }

  /** A truthy department id in an update must name a department of the company. */
  predicate DepartmentRefOk(s: Store, department: Field<int>, companyId: int) {
    department.Given? && department.value != 0 ==>
      GetInCompanyOr404(s.departments, DepartmentKey, DepartmentCompany, department.value, companyId).Ok?
  }

  /** A supplied manager must not be the member themself, and must be a MANAGER or ADMIN of the company. */
  predicate ManagerRefOk(s: Store, manager: Field<int>, m: Membership, companyId: int) {
    manager.Given? ==> manager.value != m.userId && CheckManagerInCompany(s, manager.value, companyId).Ok?
  }

  /** The update demotes an ADMIN to another role. */
  predicate Demotes(u: MembershipUpdate, m: Membership) {
    u.role.Given? && u.role.value != Admin && m.role == Admin
  }

  /**
    The checks before a membership update, in order: department (404), then
    the self-as-manager rule (400) ahead of the manager lookup (404 or 400),
    then the last-admin rule, which runs only for a demotion of an ADMIN.
   */
  function CheckBeforeUpdateMembership(s: Store, u: MembershipUpdate, companyId: int, m: Membership): (r: Check)
    ensures r.Ok? <==>
      && DepartmentRefOk(s, u.departmentId, companyId)
      && ManagerRefOk(s, u.managerId, m, companyId)
      && (Demotes(u, m) ==> AdminCount(s, companyId) >= 2)
    ensures DepartmentRefOk(s, u.departmentId, companyId) && u.managerId == Given(m.userId)
      ==> r == Err(BadRequest)
    ensures (!Demotes(u, m) && DepartmentRefOk(s, u.departmentId, companyId)
             && ManagerRefOk(s, u.managerId, m, companyId)) ==> r == Pass
    ensures r.Err? ==> r.status in {NotFound, BadRequest}
  {
    var _ :- if u.departmentId.Given? && u.departmentId.value != 0
             then Ignore(GetInCompanyOr404(s.departments, DepartmentKey, DepartmentCompany,
                                           u.departmentId.value, companyId))
             else Pass;
    var _ :- if u.managerId.Given? then
               if u.managerId.value == m.userId then Err(BadRequest)
               else Ignore(CheckManagerInCompany(s, u.managerId.value, companyId))
             else Pass;
    if u.role.Given? && u.role.value != Admin && m.role == Admin then CheckLastAdmin(s, m, companyId)
    else Pass
  }

  /** The membership to delete must belong to the company (404) and not be its last ADMIN (400). */
  function CheckBeforeDeleteMembership(s: Store, membershipId: int, companyId: int): (r: Result<Membership>)
    ensures UniqueBy(s.memberships, MembershipKey) ==>
      forall m :: m in s.memberships && m.id == membershipId && m.companyId == companyId ==>
        r == (if m.role == Admin && AdminCount(s, companyId) <= 1 then Err(BadRequest) else Ok(m))
    ensures r.Ok? ==> r.value in s.memberships && r.value.id == membershipId && r.value.companyId == companyId
    ensures r.Ok? ==> r.value.role != Admin || AdminCount(s, companyId) >= 2
    ensures r.Err? ==> r.status in {NotFound, BadRequest}
    ensures UniqueBy(s.memberships, MembershipKey) ==>
      ((forall x :: x in s.memberships ==> !(x.id == membershipId && x.companyId == companyId))
       <==> r == Err(NotFound))
  {
    var m :- GetInCompanyOr404(s.memberships, MembershipKey, MembershipCompany, membershipId, companyId);
    var _ :- CheckLastAdmin(s, m, companyId);
    Ok(m)
  }

  /** The leaving user must be a member (404) and not the last ADMIN (400). */
  function CheckBeforeLeave(s: Store, userId: int, companyId: int): (r: Result<Membership>)
    ensures r.Ok? ==> r.value in s.memberships && r.value.userId == userId && r.value.companyId == companyId
    ensures r.Ok? ==> r.value.role != Admin || AdminCount(s, companyId) >= 2
    ensures MembershipOf(s, userId, companyId).None? <==> r == Err(NotFound)
    ensures UniqueBy(s.memberships, MembershipUserCompany) ==>
      forall m :: m in s.memberships && m.userId == userId && m.companyId == companyId ==>
        r == (if m.role == Admin && AdminCount(s, companyId) <= 1 then Err(BadRequest) else Ok(m))
    ensures r.Err? ==> r.status in {NotFound, BadRequest}
  {
    var m :- CheckUserInCompany(s, userId, companyId);
    var _ :- CheckLastAdmin(s, m, companyId);
    Ok(m)
  }

  // ---------------------------------------------------------------------------
  // Tasks and comments

  /** Superuser, the object's author, or an ADMIN of the company. */
  predicate HasFullAccess(s: Store, actor: Actor, companyId: int, authorId: int) {
    || actor.isSuperuser
    || actor.id == authorId
    || (MembershipOf(s, actor.id, companyId).Some? && MembershipOf(s, actor.id, companyId).value.role == Admin)
  }

  /** With one membership per (user, company), full access means: superuser, author, or holder of any ADMIN membership here. */
  lemma FullAccessMeansAdminOrAuthor(s: Store, actor: Actor, companyId: int, authorId: int)
    requires UniqueBy(s.memberships, MembershipUserCompany)
    ensures HasFullAccess(s, actor, companyId, authorId) <==>
      || actor.isSuperuser
      || actor.id == authorId
      || exists m :: m in s.memberships && m.userId == actor.id && m.companyId == companyId && m.role == Admin
  {
    var found := MembershipOf(s, actor.id, companyId);
    if exists m :: m in s.memberships && m.userId == actor.id && m.companyId == companyId && m.role == Admin {
      var m :| m in s.memberships && m.userId == actor.id && m.companyId == companyId && m.role == Admin;
      UniqueMatch(s.memberships, MembershipUserCompany, m, found.value);
    }
  }

  /**
    A task creator who is an ADMIN may assign to anyone in the company; a
    MANAGER only to a member whose manager they are (403 otherwise). The
    creator must be a MANAGER or ADMIN member (404, 400).
   */
  function CheckManagerCanCreateTask(s: Store, managerId: int, companyId: int, executor: Membership): (r: Check)
    ensures r.Ok? <==>
      && CheckManagerInCompany(s, managerId, companyId).Ok?
      && (MembershipOf(s, managerId, companyId).value.role == Admin || executor.managerId == Some(managerId))
    ensures CheckManagerInCompany(s, managerId, companyId).Ok? && r.Err? ==> r.status == Forbidden
    ensures r.Err? ==> r.status in {NotFound, BadRequest, Forbidden}
  {
    var manager :- CheckManagerInCompany(s, managerId, companyId);
    if manager.role == Admin then Pass
    else if manager.role == Manager && executor.managerId != Some(managerId) then Err(Forbidden)
    else Pass
  }

  /**
    Full access allows any update. Otherwise the task's executor may send the
    status and nothing else; everyone else is refused. All refusals are 403.
   */
  function CheckCanUpdateTask(s: Store, actor: Actor, companyId: int, task: Task, u: TaskUpdate): (r: Check)
    ensures r.Ok? <==>
      || HasFullAccess(s, actor, companyId, task.authorId)
      || (actor.id == task.executorId && SuppliedTaskFields(u) <= {StatusField})
    ensures r.Err? ==> r.status == Forbidden
  {
    if HasFullAccess(s, actor, companyId, task.authorId) then Pass
    else if actor.id == task.executorId then
      if SuppliedTaskFields(u) - {StatusField} != {} then Err(Forbidden) else Pass
    else Err(Forbidden)
  }

  /** Only full access over an object by `authorId` passes (403 otherwise). */
  function RequireFullAccess(s: Store, actor: Actor, companyId: int, authorId: int): (r: Check)
    ensures r.Ok? <==> HasFullAccess(s, actor, companyId, authorId)
    ensures r.Err? ==> r.status == Forbidden
  {
    Require(HasFullAccess(s, actor, companyId, authorId), Forbidden)
  }

  /** Only full access may delete a task (403 otherwise). */
  function CheckCanDeleteTask(s: Store, actor: Actor, companyId: int, task: Task): (r: Check)
    ensures r.Ok? <==> HasFullAccess(s, actor, companyId, task.authorId)
    ensures r.Err? ==> r.status == Forbidden
  {
    RequireFullAccess(s, actor, companyId, task.authorId)
  }

  /** Only full access may edit or delete a comment (403 otherwise). */
  function CheckCanManageComment(s: Store, actor: Actor, companyId: int, comment: Comment): (r: Check)
    ensures r.Ok? <==> HasFullAccess(s, actor, companyId, comment.authorId)
    ensures r.Err? ==> r.status == Forbidden
  {
    RequireFullAccess(s, actor, companyId, comment.authorId)
  }

  /** Comment `commentId` is stored on task `taskId`. */
  predicate CommentOnTask(s: Store, commentId: int, taskId: int) {
    exists c :: c in s.comments && c.id == commentId && c.taskId == taskId
  }

  /** The comment, provided its task is in the company and it is in that task; 404 otherwise. */
  function CheckCommentInTaskAndCompany(s: Store, companyId: int, taskId: int, commentId: int): (r: Result<Comment>)
    ensures r.Ok? ==> r.value in s.comments && r.value.id == commentId && r.value.taskId == taskId
    ensures r.Ok? ==> GetInCompanyOr404(s.tasks, TaskKey, TaskCompany, taskId, companyId).Ok?
    ensures r.Err? ==> r.status == NotFound
    ensures GetInCompanyOr404(s.tasks, TaskKey, TaskCompany, taskId, companyId).Err? ==> r.Err?
    ensures UniqueBy(s.tasks, TaskKey) ==>
      (r.Ok? <==> TaskOfCompany(s, taskId, companyId) && CommentOnTask(s, commentId, taskId))
  {
    var _ :- GetInCompanyOr404(s.tasks, TaskKey, TaskCompany, taskId, companyId);
    match TaskCrud.GetByTask(s, commentId, taskId)
    case Some(c) => Ok(c)
    case None => Err(NotFound)
  }
}
