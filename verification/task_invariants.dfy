/**
  What the task handlers preserve: the table constraints, the ordering of a
  task's dates, and tenant isolation (a handler acting in one company never
  changes another company's tasks). Also the executor rule: a user with no
  more than executor rights can move a task's status and nothing else.
 */
module TaskInvariants {
  import opened Outcomes
  import opened Tables
  import opened Records
  import opened Store
  import opened Schemas
  import opened Dependencies
  import opened Validators
  import opened TaskCrud
  import opened TaskEndpoints

  // ---------------------------------------------------------------------------
  // The executor rule

  /**
    An update by someone without full access (not a superuser, not the
    author, not an ADMIN) changes at most the status of the task.
   */
  lemma ExecutorChangesOnlyStatus(s: Store, actor: Actor, companyId: int, taskId: int, body: TaskUpdate)
    requires UpdateTask(s, actor, companyId, taskId, body).Ok?
    requires !HasFullAccess(s, actor, companyId, GetInCompanyOr404(s.tasks, TaskKey, TaskCompany, taskId, companyId).value.authorId)
    ensures
      var old_ := GetInCompanyOr404(s.tasks, TaskKey, TaskCompany, taskId, companyId).value;
      var out := UpdateTask(s, actor, companyId, taskId, body).value.out;
      && actor.id == old_.executorId
      && out == old_.(status := out.status)
  {
  }

  /** Anyone who is neither full-access nor the executor is refused every update. */
  lemma OutsidersCannotUpdate(s: Store, actor: Actor, companyId: int, t: Task, body: TaskUpdate)
    requires UniqueBy(s.tasks, TaskKey)
    requires t in s.tasks && t.companyId == companyId
    requires !HasFullAccess(s, actor, companyId, t.authorId) && actor.id != t.executorId
    ensures UpdateTask(s, actor, companyId, t.id, body).Err?
  {
    GetUnique(s.tasks, TaskKey, t);
  }

  // ---------------------------------------------------------------------------
  // Task dates

  /** Every task starts no later than it is due. */
  ghost predicate TaskDatesOrdered(s: Store) {
    forall t :: t in s.tasks ==> t.startAt <= t.dueAt
  }

  lemma CreateTaskKeepsDatesOrdered(s: Store, actor: Actor, companyId: int, body: TaskCreateBody)
    requires TaskDatesOrdered(s)
    requires CreateTask(s, actor, companyId, body).Ok?
    ensures TaskDatesOrdered(CreateTask(s, actor, companyId, body).value.store)
  {
  }

  /**
    An update supplies both dates or neither, and orders them when it supplies
    them, so an ordered task stays ordered.
   */
  lemma UpdateTaskKeepsDatesOrdered(s: Store, actor: Actor, companyId: int, taskId: int, body: TaskUpdate)
    requires TaskDatesOrdered(s)
    requires UpdateTask(s, actor, companyId, taskId, body).Ok?
    ensures TaskDatesOrdered(UpdateTask(s, actor, companyId, taskId, body).value.store)
  {
    var r := UpdateTask(s, actor, companyId, taskId, body).value;
    forall t | t in r.store.tasks
      ensures t.startAt <= t.dueAt
    {
      var k :| 0 <= k < |r.store.tasks| && r.store.tasks[k] == t;
      assert s.tasks[k] in s.tasks;
    }
  }

  lemma DeleteTaskKeepsDatesOrdered(s: Store, actor: Actor, companyId: int, taskId: int)
    requires TaskDatesOrdered(s)
    requires DeleteTask(s, actor, companyId, taskId).Ok?
    ensures TaskDatesOrdered(DeleteTask(s, actor, companyId, taskId).value.store)
  {
  }

  // ---------------------------------------------------------------------------
  // Tenant isolation

  /** An update in company `companyId` leaves every task of another company in place. */
  lemma UpdateTaskStaysInCompany(s: Store, actor: Actor, companyId: int, taskId: int, body: TaskUpdate)
    requires UniqueBy(s.tasks, TaskKey)
    requires UpdateTask(s, actor, companyId, taskId, body).Ok?
    ensures
      var t := UpdateTask(s, actor, companyId, taskId, body).value.store;
      forall k :: 0 <= k < |s.tasks| && s.tasks[k].companyId != companyId ==> t.tasks[k] == s.tasks[k]
  {
    var found := GetInCompanyOr404(s.tasks, TaskKey, TaskCompany, taskId, companyId).value;
    forall k | 0 <= k < |s.tasks| && s.tasks[k].companyId != companyId
      ensures s.tasks[k].id != taskId
    {
      if s.tasks[k].id == taskId {
        UniqueMatch(s.tasks, TaskKey, s.tasks[k], found);
      }
    }
  }

  /** A deletion in company `companyId` keeps every task of another company, with its comments. */
  lemma DeleteTaskStaysInCompany(s: Store, actor: Actor, companyId: int, taskId: int)
    requires UniqueBy(s.tasks, TaskKey)
    requires DeleteTask(s, actor, companyId, taskId).Ok?
    ensures
      var t := DeleteTask(s, actor, companyId, taskId).value.store;
      && (forall x :: x in s.tasks && x.companyId != companyId ==> x in t.tasks)
      && (forall c :: c in s.comments && TaskCompanyOf(s, c.taskId) != Some(companyId) ==> c in t.comments)
  {
    var found := DeleteTask(s, actor, companyId, taskId).value.out;
    forall x | x in s.tasks && x.companyId != companyId
      ensures x.id != taskId
    {
      if x.id == taskId {
        UniqueMatch(s.tasks, TaskKey, x, found);
      }
    }
    forall c | c in s.comments && TaskCompanyOf(s, c.taskId) != Some(companyId)
      ensures c.taskId != taskId
    {
      if c.taskId == taskId {
        GetUnique(s.tasks, TaskKey, found);
      }
    }
  }

  /** The company of task `taskId`, if the task exists. */
  function TaskCompanyOf(s: Store, taskId: int): (r: Option<int>)
    ensures r.Some? <==> exists t :: t in s.tasks && t.id == taskId
    ensures UniqueBy(s.tasks, TaskKey) ==>
      forall t :: t in s.tasks && t.id == taskId ==> r == Some(t.companyId)
  {
    match Get(s.tasks, TaskKey, taskId)
    case Some(t) =>
      assert forall x :: x in s.tasks && x.id == taskId && UniqueBy(s.tasks, TaskKey) ==> x == t by {
        forall x | x in s.tasks && x.id == taskId && UniqueBy(s.tasks, TaskKey)
          ensures x == t
        {
          UniqueMatch(s.tasks, TaskKey, x, t);
        }
      }
      Some(t.companyId)
    case None => None
  }

  /** A comment edit touches only the one comment it names. */
  lemma UpdateCommentTouchesOne(s: Store, actor: Actor, companyId: int, taskId: int, commentId: int, body: CommentCreate)
    requires UpdateComment(s, actor, companyId, taskId, commentId, body).Ok?
    ensures
      var t := UpdateComment(s, actor, companyId, taskId, commentId, body).value.store;
      && |t.comments| == |s.comments|
      && forall k :: 0 <= k < |s.comments| && s.comments[k].id != commentId ==> t.comments[k] == s.comments[k]
  {
  }

  // ---------------------------------------------------------------------------
  // Table constraints

  lemma CreateTaskKeepsValid(s: Store, actor: Actor, companyId: int, body: TaskCreateBody)
    requires Valid(s)
    requires CreateTask(s, actor, companyId, body).Ok?
    ensures Valid(CreateTask(s, actor, companyId, body).value.store)
  {
    var r := CreateTask(s, actor, companyId, body).value;
    UniqueAppend(s.tasks, TaskKey, r.out);
  }

  lemma UpdateTaskKeepsValid(s: Store, actor: Actor, companyId: int, taskId: int, body: TaskUpdate)
    requires Valid(s)
    requires UpdateTask(s, actor, companyId, taskId, body).Ok?
    ensures Valid(UpdateTask(s, actor, companyId, taskId, body).value.store)
  {
    var r := UpdateTask(s, actor, companyId, taskId, body).value;
    UniqueReplace(s.tasks, TaskKey, taskId, r.out, TaskKey);
    forall x | x in r.store.tasks
      ensures 1 <= x.id < r.store.nextId
    {
      var k :| 0 <= k < |r.store.tasks| && r.store.tasks[k] == x;
      assert s.tasks[k] in s.tasks;
    }
  }

  lemma DeleteTaskKeepsValid(s: Store, actor: Actor, companyId: int, taskId: int)
    requires Valid(s)
    requires DeleteTask(s, actor, companyId, taskId).Ok?
    ensures Valid(DeleteTask(s, actor, companyId, taskId).value.store)
  {
    UniqueWithout(s.tasks, TaskKey, taskId, TaskKey);
    UniqueFilter(s.comments, NotOnTask(taskId), CommentKey);
    UniqueFilter(s.ratings, NotForTask(taskId), RatingKey);
    UniqueFilter(s.ratings, NotForTask(taskId), RatingTask);
  }

  lemma CreateCommentKeepsValid(s: Store, actor: Actor, companyId: int, taskId: int, body: CommentCreate)
    requires Valid(s)
    requires CreateComment(s, actor, companyId, taskId, body).Ok?
    ensures Valid(CreateComment(s, actor, companyId, taskId, body).value.store)
  {
    var r := CreateComment(s, actor, companyId, taskId, body).value;
    UniqueAppend(s.comments, CommentKey, r.out);
  }

  lemma UpdateCommentKeepsValid(s: Store, actor: Actor, companyId: int, taskId: int, commentId: int, body: CommentCreate)
    requires Valid(s)
    requires UpdateComment(s, actor, companyId, taskId, commentId, body).Ok?
    ensures Valid(UpdateComment(s, actor, companyId, taskId, commentId, body).value.store)
  {
    var r := UpdateComment(s, actor, companyId, taskId, commentId, body).value;
    UniqueReplace(s.comments, CommentKey, commentId, r.out, CommentKey);
    forall x | x in r.store.comments
      ensures 1 <= x.id < r.store.nextId
    {
      var k :| 0 <= k < |r.store.comments| && r.store.comments[k] == x;
      assert s.comments[k] in s.comments;
    }
  }

  lemma DeleteCommentKeepsValid(s: Store, actor: Actor, companyId: int, taskId: int, commentId: int)
    requires Valid(s)
    requires DeleteComment(s, actor, companyId, taskId, commentId).Ok?
    ensures Valid(DeleteComment(s, actor, companyId, taskId, commentId).value.store)
  {
    UniqueWithout(s.comments, CommentKey, commentId, CommentKey);
  }
}
