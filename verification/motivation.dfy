/**
  Task ratings: evaluating a task once, and listing a user's ratings with
  optional company, year and quarter filters, newest first.

  The calendar year and quarter of a timestamp are computed by the database;
  here they are the functions `yearOf` and `quarterOf`, passed in.
 */
module Motivation {
  import opened Outcomes
  import opened Tables
  import opened Records
  import opened Store
  import opened Schemas
  import opened Validators

  // ---------------------------------------------------------------------------
  // Listing

  /** How a timestamp is split into calendar year and quarter. */
  datatype Periods = Periods(yearOf: int -> int, quarterOf: int -> int)

  /** The optional filters of a rating listing; `None` means "not filtered". */
  datatype RatingFilter = RatingFilter(companyId: Option<int>, year: Option<int>, quarter: Option<int>)

  const NoFilter: RatingFilter := RatingFilter(None, None, None)

  /** The rating's task is executed by `userId` and passes the company filter, if any. */
  predicate RatedTaskMatches(s: Store, x: Rating, userId: int, companyId: Option<int>) {
    exists t :: t in s.tasks && t.id == x.taskId && t.executorId == userId
                && (companyId.Some? ==> t.companyId == companyId.value)
  }

  /** The rating was created in the requested year and quarter, each only if requested. */
  predicate InPeriod(x: Rating, f: RatingFilter, cal: Periods) {
    && (f.year.Some? ==> cal.yearOf(x.createdAt) == f.year.value)
    && (f.quarter.Some? ==> cal.quarterOf(x.createdAt) == f.quarter.value)
  }

  function Listed(s: Store, userId: int, f: RatingFilter, cal: Periods): Rating -> bool {
    (x: Rating) => RatedTaskMatches(s, x, userId, f.companyId) && InPeriod(x, f, cal)
  }

  /** Orders ratings newest first. */
  function NewestFirst(x: Rating): int { -x.createdAt }

  /**
    The ratings of tasks `userId` executes, filtered by company, year and
    quarter where those are given, newest first.
   */
  function ListRatings(s: Store, userId: int, f: RatingFilter, cal: Periods): (r: seq<Rating>)
    ensures forall x :: x in r <==> x in s.ratings && RatedTaskMatches(s, x, userId, f.companyId) && InPeriod(x, f, cal)
    ensures forall i, j :: 0 <= i < j < |r| ==> r[i].createdAt >= r[j].createdAt
    ensures multiset(r) <= multiset(s.ratings)
  {
    var kept := Filter(s.ratings, Listed(s, userId, f, cal));
    var rows := SortBy(kept, NewestFirst);
    NewestFirstDescending(rows);
    assert forall x :: x in rows <==> x in s.ratings && Listed(s, userId, f, cal)(x);
    rows
  }

  /** Ascending by `NewestFirst` is descending by creation time. */
  lemma NewestFirstDescending(rows: seq<Rating>)
    requires SortedBy(rows, NewestFirst)
    ensures forall i, j :: 0 <= i < j < |rows| ==> rows[i].createdAt >= rows[j].createdAt
  {
    forall i, j | 0 <= i < j < |rows|
      ensures rows[i].createdAt >= rows[j].createdAt
    {
      assert NewestFirst(rows[i]) <= NewestFirst(rows[j]);
    }
  }

  /** The listing loses and repeats no rating: each listed rating appears as often as it is stored. */
  lemma ListRatingsKeepsMultiplicity(s: Store, userId: int, f: RatingFilter, cal: Periods)
    ensures forall x ::
      multiset(ListRatings(s, userId, f, cal))[x] == (
        if RatedTaskMatches(s, x, userId, f.companyId) && InPeriod(x, f, cal) then multiset(s.ratings)[x] else 0)
  {
    assert ListRatings(s, userId, f, cal) == SortBy(Filter(s.ratings, Listed(s, userId, f, cal)), NewestFirst);
    FilterMultiplicity(s.ratings, Listed(s, userId, f, cal));
  }

  /** Without filters the listing holds every rating of a task the user executes. */
  lemma UnfilteredListsAllOfUser(s: Store, userId: int, cal: Periods, x: Rating)
    requires x in s.ratings
    requires exists t :: t in s.tasks && t.id == x.taskId && t.executorId == userId
    ensures x in ListRatings(s, userId, NoFilter, cal)
  {
  }

  /** Adding a filter only removes ratings: each filtered listing is contained in the unfiltered one. */
  lemma FiltersOnlyNarrow(s: Store, userId: int, f: RatingFilter, cal: Periods)
    ensures forall x :: x in ListRatings(s, userId, f, cal) ==> x in ListRatings(s, userId, NoFilter, cal)
  {
  }

  /** A company filter keeps exactly the ratings of that company's tasks. */
  lemma CompanyFilterExact(s: Store, userId: int, c: int, cal: Periods, x: Rating)
    requires UniqueBy(s.tasks, TaskKey)
    requires x in ListRatings(s, userId, NoFilter, cal)
    ensures x in ListRatings(s, userId, RatingFilter(Some(c), None, None), cal) <==>
      exists t :: t in s.tasks && t.id == x.taskId && t.companyId == c
  {
    var f := RatingFilter(Some(c), None, None);
    assert x in s.ratings && RatedTaskMatches(s, x, userId, None);
    var u :| u in s.tasks && u.id == x.taskId && u.executorId == userId;
    if t :| t in s.tasks && t.id == x.taskId && t.companyId == c {
      UniqueMatch(s.tasks, TaskKey, t, u);
      assert RatedTaskMatches(s, x, userId, f.companyId) && InPeriod(x, f, cal);
    }
  }

  // ---------------------------------------------------------------------------
  // Evaluation

  /**
    Stores the rating of `task`, created `now`. A second rating of the same
    task (or one for a task that is gone) violates the store's constraints;
    the handler rolls back and answers 400.
   */
  function CreateRatingForTask(s: Store, task: Task, input: RatingCreate, now: int): (r: Result<Step<Rating>>)
    ensures r.Ok? <==> (exists t :: t in s.tasks && t.id == task.id) && (forall x :: x in s.ratings ==> x.taskId != task.id)
    ensures r.Err? ==> r.status == BadRequest
    ensures r.Ok? ==>
      && r.value.out.taskId == task.id && r.value.out.createdAt == now
      && r.value.out.timeliness == input.timeliness && r.value.out.completeness == input.completeness
      && r.value.out.quality == input.quality
      && r.value.store == s.(ratings := s.ratings + [r.value.out], nextId := r.value.store.nextId)
      && s.nextId <= r.value.out.id < r.value.store.nextId
  {
    var rating := Rating(s.nextId, task.id, input.timeliness, input.completeness, input.quality, now);
    if Get(s.ratings, RatingTask, task.id).Some? || Get(s.tasks, TaskKey, task.id).None? then Err(BadRequest)
    else Ok(Step(s.(ratings := s.ratings + [rating], nextId := s.nextId + 1), rating))
  }

  /**
    The evaluate handler. The body's scores are checked first (422); then the
    permission check, whose outcome `permission` is an input here (its rules
    are not part of this model), decides before anything is written.
   */
  function EvaluateTask(s: Store, permission: Result<Task>, body: RatingCreate, now: int): (r: Result<Step<Rating>>)
    ensures ValidateRating(body).Accepted? && permission.Err? ==> r == Err(permission.status)
    ensures r.Ok? ==>
      && ValidateRating(body).Accepted? && permission.Ok?
      && ScoresInRange(r.value.out)
      && r.value.out.taskId == permission.value.id
      && r.value.store == s.(ratings := s.ratings + [r.value.out], nextId := r.value.store.nextId)
    ensures ValidateRating(body).Rejected? ==> r == Err(Unprocessable)
    ensures ValidateRating(body).Accepted? && permission.Ok? ==>
      && (r.Ok? <==> (exists t :: t in s.tasks && t.id == permission.value.id)
                     && (forall x :: x in s.ratings ==> x.taskId != permission.value.id))
      && (r.Err? ==> r == Err(BadRequest))
  {
    var input :- AsResult(ValidateRating(body));
    var task :- permission;
    CreateRatingForTask(s, task, input, now)
  }

  /** A task is rated at most once: after a successful evaluation, evaluating it again gives 400. */
  lemma EvaluateOnce(s: Store, task: Task, body: RatingCreate, now: int, body2: RatingCreate, now2: int)
    requires EvaluateTask(s, Ok(task), body, now).Ok?
    requires ValidateRating(body2).Accepted?
    ensures EvaluateTask(EvaluateTask(s, Ok(task), body, now).value.store, Ok(task), body2, now2) == Err(BadRequest)
  {
    var t := EvaluateTask(s, Ok(task), body, now).value;
    assert t.out in t.store.ratings;
  }

  /** Every stored rating has its three scores in 1..5 (the store's check constraints). */
  ghost predicate AllScoresInRange(s: Store) {
    forall x :: x in s.ratings ==> ScoresInRange(x)
  }

  lemma EvaluateKeepsScoresInRange(s: Store, permission: Result<Task>, body: RatingCreate, now: int)
    requires AllScoresInRange(s)
    requires EvaluateTask(s, permission, body, now).Ok?
    ensures AllScoresInRange(EvaluateTask(s, permission, body, now).value.store)
  {
  }

  lemma EvaluateKeepsValid(s: Store, permission: Result<Task>, body: RatingCreate, now: int)
    requires Valid(s)
    requires EvaluateTask(s, permission, body, now).Ok?
    ensures Valid(EvaluateTask(s, permission, body, now).value.store)
  {
    var r := EvaluateTask(s, permission, body, now).value;
    UniqueAppend(s.ratings, RatingKey, r.out);
    UniqueAppend(s.ratings, RatingTask, r.out);
  }

  // ---------------------------------------------------------------------------
  // The summary

  /** The year and quarter a summary may ask for. */
  predicate PeriodQueryValid(year: int, quarter: int) {
    1000 <= year <= 9999 && 1 <= quarter <= 4
  }

  /**
    The ratings part of the summary handler: the query parameters are checked
    first (422), then the caller's membership in the company (404, with no
    exception for superusers); the items are the caller's ratings in that
    company, year and quarter.
   */
  function RatingsSummary(s: Store, actor: Actor, companyId: int, year: int, quarter: int, cal: Periods)
    : (r: Result<seq<Rating>>)
    ensures !PeriodQueryValid(year, quarter) ==> r == Err(Unprocessable)
    ensures PeriodQueryValid(year, quarter) ==>
      (r == Err(NotFound) <==> MembershipOf(s, actor.id, companyId).None?)
    ensures PeriodQueryValid(year, quarter) && MembershipOf(s, actor.id, companyId).Some? ==> r.Ok?
    ensures r.Ok? ==> forall x :: x in r.value <==>
      && x in s.ratings
      && (exists t :: t in s.tasks && t.id == x.taskId && t.executorId == actor.id && t.companyId == companyId)
      && cal.yearOf(x.createdAt) == year && cal.quarterOf(x.createdAt) == quarter
  {
    var _ :- Require(PeriodQueryValid(year, quarter), Unprocessable);
    var membership :- CheckUserInCompany(s, actor.id, companyId);
    Ok(ListRatings(s, membership.userId, RatingFilter(Some(membership.companyId), Some(year), Some(quarter)), cal))
  }
}
