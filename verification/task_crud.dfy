/**
  Task and comment persistence: creation with fields forced from the path and
  the acting user, and tenant-scoped lookups.
 */
module TaskCrud {
  import opened Outcomes
  import opened Tables
  import opened Records
  import opened Store
  import opened Schemas
  import Orm

  /**
    Stores a new task in `companyId`, authored by `author`. The body's end date
    becomes the task's due date: the intended reading of the insert (see
    CreateForCompanyAsWritten for the keyword it actually passes).
   */
  function CreateForCompany(s: Store, input: TaskCreate, companyId: int, author: Actor): (r: Step<Task>)
    ensures r.out.companyId == companyId && r.out.authorId == author.id
    ensures r.out.title == input.title && r.out.body == input.body && r.out.status == input.status
    ensures r.out.executorId == input.executorId
    ensures r.out.startAt == input.startAt && r.out.dueAt == input.endAt
    ensures r.store.tasks == s.tasks + [r.out]
    ensures r.store == s.(tasks := r.store.tasks, nextId := r.store.nextId)
    ensures s.nextId <= r.out.id < r.store.nextId
    ensures IdsBelow(s) ==> forall t :: t in s.tasks ==> t.id != r.out.id
  {
    var task := Task(s.nextId, input.title, input.body, input.status, companyId, author.id,
                     input.executorId, input.startAt, input.endAt);
    Step(s.(tasks := s.tasks + [task], nextId := s.nextId + 1), task)
  }

  /** The attributes of the task model. */
  const TaskColumns: set<string> :=
    {"id", "title", "body", "status", "company_id", "author_id", "executor_id", "start_at", "due_at"}

  /** The keywords the task insert passes: the body's fields plus the company and the author. */
  const TaskCreateKeywords: set<string> :=
    {"title", "body", "start_at", "end_at", "executor_id", "status", "company_id", "author_id"}

  /**
    The task insert as written: the row is built from the body's own field
    names, so the end date arrives under `end_at`, which the model does not
    have (it calls the column `due_at`).
   */
  function CreateForCompanyAsWritten(s: Store, input: TaskCreate, companyId: int, author: Actor)
    : (r: Result<Step<Task>>)
    ensures r.Ok? <==> TaskCreateKeywords <= TaskColumns
    ensures r.Err? ==> r.status == Internal
    ensures r.Ok? ==> r.value == CreateForCompany(s, input, companyId, author)
  {
    var _ :- Orm.Construct(TaskColumns, TaskCreateKeywords);
    Ok(CreateForCompany(s, input, companyId, author))
  }

  /** As written, every task insert fails with 500, whatever the body. */
  lemma EndAtKeywordGivesServerError(s: Store, input: TaskCreate, companyId: int, author: Actor)
    ensures CreateForCompanyAsWritten(s, input, companyId, author) == Err(Internal)
  {
    assert "end_at" in TaskCreateKeywords && "end_at" !in TaskColumns;
  }

  /** The tasks of one company, in table order. */
  function ListByCompany(s: Store, companyId: int): (r: seq<Task>)
    ensures forall t :: t in r <==> t in s.tasks && t.companyId == companyId
  {
    Filter(s.tasks, (t: Task) => t.companyId == companyId)
  }

  /** The task `taskId`, only if it belongs to `companyId`. */
  function GetByCompany(s: Store, taskId: int, companyId: int): (r: Option<Task>)
    ensures r.Some? ==> r.value in s.tasks && r.value.id == taskId && r.value.companyId == companyId
    ensures r.None? <==> forall t :: t in s.tasks ==> !(t.id == taskId && t.companyId == companyId)
  {
    Find(s.tasks, (t: Task) => t.id == taskId && t.companyId == companyId)
  }

  datatype CommentCreate = CommentCreate(body: string)

  /** Stores a new comment on `taskId`, authored by `author`. */
  function CreateForTask(s: Store, input: CommentCreate, taskId: int, author: Actor): (r: Step<Comment>)
    ensures r.out.taskId == taskId && r.out.authorId == author.id && r.out.body == input.body
    ensures r.store.comments == s.comments + [r.out]
    ensures r.store == s.(comments := r.store.comments, nextId := r.store.nextId)
    ensures s.nextId <= r.out.id < r.store.nextId
  {
    var comment := Comment(s.nextId, input.body, author.id, taskId);
    Step(s.(comments := s.comments + [comment], nextId := s.nextId + 1), comment)
  }

  /** The comments of one task, in table order. */
  function ListByTask(s: Store, taskId: int): (r: seq<Comment>)
    ensures forall c :: c in r <==> c in s.comments && c.taskId == taskId
  {
    Filter(s.comments, (c: Comment) => c.taskId == taskId)
  }

  /** The comment `commentId`, only if it belongs to `taskId`. */
  function GetByTask(s: Store, commentId: int, taskId: int): (r: Option<Comment>)
    ensures r.Some? ==> r.value in s.comments && r.value.id == commentId && r.value.taskId == taskId
    ensures r.None? <==> forall c :: c in s.comments ==> !(c.id == commentId && c.taskId == taskId)
  {
    Find(s.comments, (c: Comment) => c.id == commentId && c.taskId == taskId)
  }

  /** Under unique task ids, a scoped lookup finds a task exactly when its id and company both match. */
  lemma GetByCompanyExact(s: Store, t: Task, companyId: int)
    requires UniqueBy(s.tasks, TaskKey)
    requires t in s.tasks
    ensures GetByCompany(s, t.id, companyId) == (if t.companyId == companyId then Some(t) else None)
  {
    var r := GetByCompany(s, t.id, companyId);
    if r.Some? {
      UniqueMatch(s.tasks, TaskKey, r.value, t);
    }
  }
}
