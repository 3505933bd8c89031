/**
  The task and comment handlers as store transitions.

  Creating a task needs a MANAGER or ADMIN (or a superuser); everything else
  needs membership in the company. As in the company handlers, the guard
  runs first (403), then the body schema (422), then the lookups and
  ownership checks (404, 400, 403), and only then the write.
 */
module TaskEndpoints {
  import opened Outcomes
  import opened Tables
  import opened Records
  import opened Store
  import opened Schemas
  import opened Dependencies
  import opened Validators
  import opened TaskCrud

  // ---------------------------------------------------------------------------
  // Tasks

  /**
    Creates a task. The executor must be a member of the company (404). A
    superuser may assign to any member; anyone else must pass the manager
    rule: an ADMIN assigns to anyone, a MANAGER only to their own reports.
   */
  function CreateTask(s: Store, actor: Actor, companyId: int, body: TaskCreateBody): (r: Result<Step<Task>>)
    ensures ManagerAdminOrSuperuser(s, actor, companyId).Err? ==> r == Err(Forbidden)
    ensures r.Ok? ==> ValidateTaskCreate(body).Accepted?
    ensures r.Ok? ==> MembershipOf(s, body.executorId, companyId).Some?
    ensures r.Ok? && !actor.isSuperuser ==>
      && MembershipOf(s, actor.id, companyId).Some?
      && (|| MembershipOf(s, actor.id, companyId).value.role == Admin
          || MembershipOf(s, body.executorId, companyId).value.managerId == Some(actor.id))
    ensures r.Ok? ==>
      && r.value.out.companyId == companyId && r.value.out.authorId == actor.id
      && r.value.out.executorId == body.executorId
      && r.value.out.startAt == body.startAt && r.value.out.dueAt == body.endAt
      && r.value.out.title == body.title && r.value.out.body == body.body
      && r.value.out.status == (if body.status.Some? then body.status.value else DefaultStatus)
    ensures r.Ok? ==> r.value.store == s.(tasks := s.tasks + [r.value.out], nextId := r.value.store.nextId)
    ensures r.Ok? ==> s.nextId <= r.value.out.id < r.value.store.nextId
    ensures ManagerAdminOrSuperuser(s, actor, companyId).Ok? && ValidateTaskCreate(body).Rejected? ==>
      r == Err(Unprocessable)
    ensures ManagerAdminOrSuperuser(s, actor, companyId).Ok? && ValidateTaskCreate(body).Accepted? ==>
      MembershipOf(s, body.executorId, companyId).None? ==> r == Err(NotFound)
    ensures ManagerAdminOrSuperuser(s, actor, companyId).Ok? && ValidateTaskCreate(body).Accepted? ==>
      actor.isSuperuser && MembershipOf(s, body.executorId, companyId).Some? ==> r.Ok?
    ensures ManagerAdminOrSuperuser(s, actor, companyId).Ok? && ValidateTaskCreate(body).Accepted? ==>
      !actor.isSuperuser && MembershipOf(s, body.executorId, companyId).Some? ==>
      var check := CheckManagerCanCreateTask(s, actor.id, companyId, MembershipOf(s, body.executorId, companyId).value);
      && (r.Ok? <==> check.Ok?)
      && (check.Err? ==> r == Err(check.status))
    ensures r.Err? ==> r.status in {Forbidden, Unprocessable, NotFound, BadRequest}
  {
    var _ :- ManagerAdminOrSuperuser(s, actor, companyId);
    var input :- AsResult(ValidateTaskCreate(body));
    var executor :- CheckUserInCompany(s, input.executorId, companyId);
    var _ :- if actor.isSuperuser then Pass else CheckManagerCanCreateTask(s, actor.id, companyId, executor);
    Ok(CreateForCompany(s, input, companyId, actor))
  }

  /** The company's tasks, for members and superusers. */
  function ListTasks(s: Store, actor: Actor, companyId: int): (r: Result<seq<Task>>)
    ensures r.Ok? <==> actor.isSuperuser || MembershipOf(s, actor.id, companyId).Some?
    ensures r.Ok? ==> forall t :: t in r.value <==> t in s.tasks && t.companyId == companyId
    ensures r.Err? ==> r.status == Forbidden
  {
    var _ :- MemberOrSuperuser(s, actor, companyId);
    Ok(ListByCompany(s, companyId))
  }

  /**
    A task after a partial update: each supplied field replaces the stored
    one, the body's end date replacing the due date. Id, company, author and
    executor are not part of an update.
   */
  function ApplyTaskUpdate(t: Task, u: TaskUpdate): (r: Task)
    ensures r.id == t.id && r.companyId == t.companyId
    ensures r.authorId == t.authorId && r.executorId == t.executorId
    ensures SuppliedTaskFields(u) <= {StatusField} ==> r == t.(status := r.status)
    ensures TaskUpdateHasNoNull(u) && SuppliedTaskFields(u) == {} ==> r == t
  {
    t.(title := Patch(u.title, t.title), body := Patch(u.body, t.body), status := Patch(u.status, t.status),
       startAt := Patch(u.startAt, t.startAt), dueAt := Patch(u.endAt, t.dueAt))
  }

  /**
    A task after a partial update as the handler writes it. The update copies
    only the supplied fields that name an attribute of the task model; the
    body's end date arrives as `end_at`, which names none, so the due date
    never moves.
   */
  function ApplyTaskUpdateAsWritten(t: Task, u: TaskUpdate): (r: Task)
    ensures r == ApplyTaskUpdate(t, u).(dueAt := t.dueAt)
    ensures u.endAt.Unset? ==> r == ApplyTaskUpdate(t, u)
  {
    t.(title := Patch(u.title, t.title), body := Patch(u.body, t.body), status := Patch(u.status, t.status),
       startAt := Patch(u.startAt, t.startAt))
  }

  /**
    As written, a patch the schema accepts can leave a task starting after it
    is due: a task from 0 to 10, patched to run from 20 to 30, is stored
    starting at 20 and still due at 10.
   */
  lemma EndAtPatchLeavesDatesCrossed()
    ensures var t := Task(1, "t", "b", Todo, 1, 1, 1, 0, 10);
      var u := TaskUpdate(Unset, Unset, Unset, Given(20), Given(30));
      && ValidateTaskUpdate(u).Accepted?
      && t.startAt <= t.dueAt
      && ApplyTaskUpdate(t, u).startAt <= ApplyTaskUpdate(t, u).dueAt
      && ApplyTaskUpdateAsWritten(t, u).startAt > ApplyTaskUpdateAsWritten(t, u).dueAt
  {
  }

  function UpdateTask(s: Store, actor: Actor, companyId: int, taskId: int, body: TaskUpdate)
    : (r: Result<Step<Task>>)
    ensures MemberOrSuperuser(s, actor, companyId).Err? ==> r == Err(Forbidden)
    ensures r.Ok? ==> ValidateTaskUpdate(body).Accepted?
    ensures r.Ok? ==> GetInCompanyOr404(s.tasks, TaskKey, TaskCompany, taskId, companyId).Ok?
    ensures r.Ok? ==>
      var old_ := GetInCompanyOr404(s.tasks, TaskKey, TaskCompany, taskId, companyId).value;
      && CheckCanUpdateTask(s, actor, companyId, old_, body).Ok?
      && r.value.out == ApplyTaskUpdate(old_, body)
      && r.value.store == s.(tasks := Replace(s.tasks, TaskKey, taskId, r.value.out))
    ensures MemberOrSuperuser(s, actor, companyId).Ok? && ValidateTaskUpdate(body).Rejected? ==>
      r == Err(Unprocessable)
    ensures MemberOrSuperuser(s, actor, companyId).Ok? && ValidateTaskUpdate(body).Accepted? ==>
      GetInCompanyOr404(s.tasks, TaskKey, TaskCompany, taskId, companyId).Err? ==> r == Err(NotFound)
    ensures MemberOrSuperuser(s, actor, companyId).Ok? && ValidateTaskUpdate(body).Accepted? ==>
      GetInCompanyOr404(s.tasks, TaskKey, TaskCompany, taskId, companyId).Ok? ==>
      var task := GetInCompanyOr404(s.tasks, TaskKey, TaskCompany, taskId, companyId).value;
      && (r.Ok? <==> CheckCanUpdateTask(s, actor, companyId, task, body).Ok?)
      && (r.Err? ==> r == Err(Forbidden))
    ensures r.Err? ==> r.status in {Forbidden, Unprocessable, NotFound}
  {
    var _ :- MemberOrSuperuser(s, actor, companyId);
    var u :- AsResult(ValidateTaskUpdate(body));
    var task :- GetInCompanyOr404(s.tasks, TaskKey, TaskCompany, taskId, companyId);
    var _ :- CheckCanUpdateTask(s, actor, companyId, task, u);
    var updated := ApplyTaskUpdate(task, u);
    Ok(Step(s.(tasks := Replace(s.tasks, TaskKey, taskId, updated)), updated))
  }

  /** The comments that survive deleting task `t`. */
  function NotOnTask(t: int): Comment -> bool { (c: Comment) => c.taskId != t }

  /** The ratings that survive deleting task `t`. */
  function NotForTask(t: int): Rating -> bool { (x: Rating) => x.taskId != t }

  /** The store without task `t`; its comments and its rating go with it (ON DELETE CASCADE). */
  function DropTask(s: Store, t: int): (r: Store)
    ensures forall x :: x in r.tasks <==> x in s.tasks && x.id != t
    ensures forall c :: c in r.comments <==> c in s.comments && c.taskId != t
    ensures forall x :: x in r.ratings <==> x in s.ratings && x.taskId != t
    ensures r == s.(tasks := r.tasks, comments := r.comments, ratings := r.ratings)
  {
    s.(tasks := Without(s.tasks, TaskKey, t),
       comments := Filter(s.comments, NotOnTask(t)),
       ratings := Filter(s.ratings, NotForTask(t)))
  }

  function DeleteTask(s: Store, actor: Actor, companyId: int, taskId: int): (r: Result<Step<Task>>)
    ensures MemberOrSuperuser(s, actor, companyId).Err? ==> r == Err(Forbidden)
    ensures r.Ok? ==>
      && r.value.out in s.tasks && r.value.out.id == taskId && r.value.out.companyId == companyId
      && HasFullAccess(s, actor, companyId, r.value.out.authorId)
      && r.value.store == DropTask(s, taskId)
    ensures MemberOrSuperuser(s, actor, companyId).Ok? && UniqueBy(s.tasks, TaskKey) ==>
      (r.Ok? <==> exists t :: t in s.tasks && t.id == taskId && t.companyId == companyId
                               && HasFullAccess(s, actor, companyId, t.authorId))
    ensures MemberOrSuperuser(s, actor, companyId).Ok? ==>
      GetInCompanyOr404(s.tasks, TaskKey, TaskCompany, taskId, companyId).Err? ==> r == Err(NotFound)
    ensures MemberOrSuperuser(s, actor, companyId).Ok? ==>
      GetInCompanyOr404(s.tasks, TaskKey, TaskCompany, taskId, companyId).Ok? ==>
      var task := GetInCompanyOr404(s.tasks, TaskKey, TaskCompany, taskId, companyId).value;
      && (r.Ok? <==> CheckCanDeleteTask(s, actor, companyId, task).Ok?)
      && (r.Err? ==> r == Err(Forbidden))
    ensures r.Err? ==> r.status in {Forbidden, NotFound}
  {
    var _ :- MemberOrSuperuser(s, actor, companyId);
    var task :- GetInCompanyOr404(s.tasks, TaskKey, TaskCompany, taskId, companyId);
    var _ :- CheckCanDeleteTask(s, actor, companyId, task);
    Ok(Step(DropTask(s, taskId), task))
  }

  // ---------------------------------------------------------------------------
  // Comments

  /** Any member may comment on a task of the company. */
  function CreateComment(s: Store, actor: Actor, companyId: int, taskId: int, body: CommentCreate)
    : (r: Result<Step<Comment>>)
    ensures r.Ok? <==>
      && (actor.isSuperuser || MembershipOf(s, actor.id, companyId).Some?)
      && GetInCompanyOr404(s.tasks, TaskKey, TaskCompany, taskId, companyId).Ok?
    ensures r.Ok? ==>
      && r.value.out.taskId == taskId && r.value.out.authorId == actor.id && r.value.out.body == body.body
      && r.value.store == s.(comments := s.comments + [r.value.out], nextId := r.value.store.nextId)
      && s.nextId <= r.value.out.id < r.value.store.nextId
    ensures r.Err? ==> r.status in {Forbidden, NotFound}
  {
    var _ :- MemberOrSuperuser(s, actor, companyId);
    var _ :- GetInCompanyOr404(s.tasks, TaskKey, TaskCompany, taskId, companyId);
    Ok(CreateForTask(s, body, taskId, actor))
  }

  function ListComments(s: Store, actor: Actor, companyId: int, taskId: int): (r: Result<seq<Comment>>)
    ensures r.Ok? <==>
      && (actor.isSuperuser || MembershipOf(s, actor.id, companyId).Some?)
      && GetInCompanyOr404(s.tasks, TaskKey, TaskCompany, taskId, companyId).Ok?
    ensures r.Ok? ==> forall c :: c in r.value <==> c in s.comments && c.taskId == taskId
    ensures r.Err? ==> r.status in {Forbidden, NotFound}
  {
    var _ :- MemberOrSuperuser(s, actor, companyId);
    var _ :- GetInCompanyOr404(s.tasks, TaskKey, TaskCompany, taskId, companyId);
    Ok(ListByTask(s, taskId))
  }

  /** Comment `commentId` is on task `taskId`, and the actor has full access over it. */
  predicate CommentManageable(s: Store, actor: Actor, companyId: int, taskId: int, commentId: int) {
    exists c :: c in s.comments && c.id == commentId && c.taskId == taskId && HasFullAccess(s, actor, companyId, c.authorId)
  }

  /** Under unique comment ids, the comment the lookup finds is the one a manageable comment must be. */
  lemma CommentFoundIsManageable(s: Store, actor: Actor, companyId: int, taskId: int, commentId: int)
    ensures UniqueBy(s.tasks, TaskKey) && UniqueBy(s.comments, CommentKey) ==>
      var found := CheckCommentInTaskAndCompany(s, companyId, taskId, commentId);
      (found.Ok? && HasFullAccess(s, actor, companyId, found.value.authorId)) <==>
        TaskOfCompany(s, taskId, companyId) && CommentManageable(s, actor, companyId, taskId, commentId)
  {
    var found := CheckCommentInTaskAndCompany(s, companyId, taskId, commentId);
    if UniqueBy(s.comments, CommentKey) && found.Ok? && CommentManageable(s, actor, companyId, taskId, commentId) {
      var c :| c in s.comments && c.id == commentId && c.taskId == taskId && HasFullAccess(s, actor, companyId, c.authorId);
      UniqueMatch(s.comments, CommentKey, c, found.value);
    }
  }

  /** Only the comment's author, an ADMIN or a superuser may change its text. */
  function UpdateComment(s: Store, actor: Actor, companyId: int, taskId: int, commentId: int, body: CommentCreate)
    : (r: Result<Step<Comment>>)
    ensures MemberOrSuperuser(s, actor, companyId).Err? ==> r == Err(Forbidden)
    ensures r.Ok? ==> CheckCommentInTaskAndCompany(s, companyId, taskId, commentId).Ok?
    ensures r.Ok? ==>
      var old_ := CheckCommentInTaskAndCompany(s, companyId, taskId, commentId).value;
      && HasFullAccess(s, actor, companyId, old_.authorId)
      && r.value.out == old_.(body := body.body)
      && r.value.store == s.(comments := Replace(s.comments, CommentKey, commentId, r.value.out))
    ensures MemberOrSuperuser(s, actor, companyId).Ok? && UniqueBy(s.tasks, TaskKey) && UniqueBy(s.comments, CommentKey) ==>
      (r.Ok? <==> TaskOfCompany(s, taskId, companyId) && CommentManageable(s, actor, companyId, taskId, commentId))
    ensures MemberOrSuperuser(s, actor, companyId).Ok? && CheckCommentInTaskAndCompany(s, companyId, taskId, commentId).Err? ==>
      r == Err(NotFound)
    ensures MemberOrSuperuser(s, actor, companyId).Ok? && CheckCommentInTaskAndCompany(s, companyId, taskId, commentId).Ok? ==>
      !HasFullAccess(s, actor, companyId, CheckCommentInTaskAndCompany(s, companyId, taskId, commentId).value.authorId) ==>
      r == Err(Forbidden)
    ensures r.Err? ==> r.status in {Forbidden, NotFound}
  {
    CommentFoundIsManageable(s, actor, companyId, taskId, commentId);
    var _ :- MemberOrSuperuser(s, actor, companyId);
    var comment :- CheckCommentInTaskAndCompany(s, companyId, taskId, commentId);
    var _ :- CheckCanManageComment(s, actor, companyId, comment);
    var updated := comment.(body := body.body);
    Ok(Step(s.(comments := Replace(s.comments, CommentKey, commentId, updated)), updated))
  }

  function DeleteComment(s: Store, actor: Actor, companyId: int, taskId: int, commentId: int)
    : (r: Result<Step<Comment>>)
    ensures MemberOrSuperuser(s, actor, companyId).Err? ==> r == Err(Forbidden)
    ensures r.Ok? ==>
      && r.value.out in s.comments && r.value.out.id == commentId && r.value.out.taskId == taskId
      && HasFullAccess(s, actor, companyId, r.value.out.authorId)
      && r.value.store == s.(comments := Without(s.comments, CommentKey, commentId))
    ensures GetInCompanyOr404(s.tasks, TaskKey, TaskCompany, taskId, companyId).Err? ==> r.Err?
    ensures MemberOrSuperuser(s, actor, companyId).Ok? && UniqueBy(s.tasks, TaskKey) && UniqueBy(s.comments, CommentKey) ==>
      (r.Ok? <==> TaskOfCompany(s, taskId, companyId) && CommentManageable(s, actor, companyId, taskId, commentId))
    ensures MemberOrSuperuser(s, actor, companyId).Ok? && CheckCommentInTaskAndCompany(s, companyId, taskId, commentId).Err? ==>
      r == Err(NotFound)
    ensures MemberOrSuperuser(s, actor, companyId).Ok? && CheckCommentInTaskAndCompany(s, companyId, taskId, commentId).Ok? ==>
      !HasFullAccess(s, actor, companyId, CheckCommentInTaskAndCompany(s, companyId, taskId, commentId).value.authorId) ==>
      r == Err(Forbidden)
    ensures r.Err? ==> r.status in {Forbidden, NotFound}
  {
    CommentFoundIsManageable(s, actor, companyId, taskId, commentId);
    var _ :- MemberOrSuperuser(s, actor, companyId);
    var comment :- CheckCommentInTaskAndCompany(s, companyId, taskId, commentId);
    var _ :- CheckCanManageComment(s, actor, companyId, comment);
    Ok(Step(s.(comments := Without(s.comments, CommentKey, commentId)), comment))
  }
}
