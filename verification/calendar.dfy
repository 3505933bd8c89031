/**
  The personal calendar of a company member: the company's news published
  in the current window, the member's tasks and the meetings they attend that
  overlap the window, each list ordered by its time.

  The window starts at the current instant truncated to the scope (day,
  month or year) and ends one scope later. The truncation is done by the
  database clock; for the day scope it is computed here, for month and year
  the truncated start and the scope's length are inputs.
 */
module Calendar {
  import opened Outcomes
  import opened Tables
  import opened Records
  import opened Store
  import opened Schemas
  import opened Validators
  import opened Meetings

  datatype Scope = DayScope | MonthScope | YearScope

  /** The half-open interval `[start, end)` the calendar shows. */
  datatype Window = Window(start: int, end: int)

  /** The window that starts at `truncated` and lasts one scope of `unit` seconds. */
  function ScopeWindow(truncated: int, unit: nat): (w: Window)
    requires unit > 0
    ensures w.start == truncated && w.start < w.end
  {
    Window(truncated, truncated + unit)
  }

  /** The day-scope window: today's midnight to the next midnight. It contains `now`. */
  function DayWindow(now: int): (w: Window)
    ensures w.start <= now < w.end
    ensures w.end - w.start == SecondsPerDay
    ensures w.start % SecondsPerDay == 0
  {
    var start := Day(now) * SecondsPerDay;
    assert start <= now < start + SecondsPerDay by {
      var q := now / SecondsPerDay;
      assert now == q * SecondsPerDay + now % SecondsPerDay;
    }
    ScopeWindow(start, SecondsPerDay)
  }

  // ---------------------------------------------------------------------------
  // The three queries

  function NewsPublished(n: News): int { n.publishedAt }
  function TaskStart(t: Task): int { t.startAt }
  function MeetingStart(m: Meeting): int { m.startAt }

  function NewsInWindow(companyId: int, w: Window): News -> bool {
    (n: News) => n.companyId == companyId && w.start <= n.publishedAt < w.end
  }

  function TaskInWindow(companyId: int, userId: int, w: Window): Task -> bool {
    (t: Task) => t.companyId == companyId && t.startAt < w.end && t.dueAt > w.start && t.executorId == userId
  }

  function MeetingInWindow(s: Store, companyId: int, userId: int, w: Window): Meeting -> bool {
    (m: Meeting) => m.companyId == companyId && m.startAt < w.end && m.endAt > w.start && Attends(s, userId, m.id)
  }

  /** The company's news published in the window, oldest first. */
  function FetchNews(s: Store, companyId: int, w: Window): (r: seq<News>)
    ensures forall n :: n in r <==> n in s.news && n.companyId == companyId && w.start <= n.publishedAt < w.end
    ensures SortedBy(r, NewsPublished)
    ensures forall n ::
      multiset(r)[n] == (
        if n.companyId == companyId && w.start <= n.publishedAt < w.end then multiset(s.news)[n] else 0)
  {
    FilterMultiplicity(s.news, NewsInWindow(companyId, w));
    SortBy(Filter(s.news, NewsInWindow(companyId, w)), NewsPublished)
  }

  /** The user's tasks in the company whose span overlaps the window, earliest start first. */
  function FetchTasks(s: Store, companyId: int, userId: int, w: Window): (r: seq<Task>)
    ensures forall t :: t in r <==>
      && t in s.tasks && t.companyId == companyId && t.executorId == userId
      && Overlaps(t.startAt, t.dueAt, w.start, w.end)
    ensures SortedBy(r, TaskStart)
    ensures forall t ::
      multiset(r)[t] == (
        if t.companyId == companyId && t.executorId == userId && Overlaps(t.startAt, t.dueAt, w.start, w.end)
        then multiset(s.tasks)[t] else 0)
  {
    FilterMultiplicity(s.tasks, TaskInWindow(companyId, userId, w));
    SortBy(Filter(s.tasks, TaskInWindow(companyId, userId, w)), TaskStart)
  }

  /** The company's meetings the user attends that overlap the window, earliest start first. */
  function FetchMeetings(s: Store, companyId: int, userId: int, w: Window): (r: seq<Meeting>)
    ensures forall m :: m in r <==>
      && m in s.meetings && m.companyId == companyId && Attends(s, userId, m.id)
      && Overlaps(m.startAt, m.endAt, w.start, w.end)
    ensures SortedBy(r, MeetingStart)
    ensures forall m ::
      multiset(r)[m] == (
        if m.companyId == companyId && Attends(s, userId, m.id) && Overlaps(m.startAt, m.endAt, w.start, w.end)
        then multiset(s.meetings)[m] else 0)
  {
    FilterMultiplicity(s.meetings, MeetingInWindow(s, companyId, userId, w));
    SortBy(Filter(s.meetings, MeetingInWindow(s, companyId, userId, w)), MeetingStart)
  }

  datatype CalendarView = CalendarView(scope: Scope, news: seq<News>, tasks: seq<Task>, meetings: seq<Meeting>)

  /**
    The calendar handler: only a member of the company gets a calendar (404
    otherwise, superusers included); the three lists are the three queries.
   */
  function GetEvents(s: Store, actor: Actor, companyId: int, scope: Scope, w: Window): (r: Result<CalendarView>)
    ensures r.Ok? <==> MembershipOf(s, actor.id, companyId).Some?
    ensures r.Err? ==> r.status == NotFound
    ensures r.Ok? ==>
      && r.value.scope == scope
      && r.value.news == FetchNews(s, companyId, w)
      && r.value.tasks == FetchTasks(s, companyId, actor.id, w)
      && r.value.meetings == FetchMeetings(s, companyId, actor.id, w)
  {
    var _ :- CheckUserInCompany(s, actor.id, companyId);
    Ok(CalendarView(scope, FetchNews(s, companyId, w), FetchTasks(s, companyId, actor.id, w),
                    FetchMeetings(s, companyId, actor.id, w)))
  }

  // ---------------------------------------------------------------------------
  // Properties

  /** News published exactly at the window's start is shown; news published exactly at its end is not. */
  lemma NewsWindowHalfOpen(s: Store, companyId: int, w: Window, n: News)
    requires n in s.news && n.companyId == companyId
    ensures n.publishedAt == w.start && w.start < w.end ==> n in FetchNews(s, companyId, w)
    ensures n.publishedAt == w.end ==> n !in FetchNews(s, companyId, w)
  {
  }

  /** A task that spans the whole window is shown, even though it starts before and ends after it. */
  lemma SpanningTaskShown(s: Store, companyId: int, userId: int, w: Window, t: Task)
    requires t in s.tasks && t.companyId == companyId && t.executorId == userId
    requires t.startAt <= w.start && w.end <= t.dueAt && w.start < w.end
    ensures t in FetchTasks(s, companyId, userId, w)
  {
  }

  /**
    The calendar's meetings are exactly the company-scoped scheduling
    conflicts of the window: the two queries agree.
   */
  lemma CalendarMeetingsAreConflicts(s: Store, companyId: int, userId: int, w: Window)
    ensures forall m :: m in FetchMeetings(s, companyId, userId, w) <==>
      m in MeetingsAtSameTime(s, userId, w.start, w.end, Some(companyId))
  {
  }
}
