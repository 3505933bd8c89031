/**
  The relational store the endpoints read and write, as one immutable value.

  Each table is a sequence of rows. `nextId` stands for the database's id
  sequence: a new row takes `nextId` and advances it. `Valid` collects the
  table constraints the database enforces (primary keys, UNIQUE constraints,
  check constraints); the operations keep it, which the lemmas in the
  invariant modules prove.
 */
module Store {
  import opened Outcomes
  import opened Tables
  import opened Records

  datatype Store = Store(
    companies: seq<Company>,
    departments: seq<Department>,
    memberships: seq<Membership>,
    news: seq<News>,
    invites: seq<Invite>,
    tasks: seq<Task>,
    comments: seq<Comment>,
    meetings: seq<Meeting>,
    attendees: seq<Attendee>,
    ratings: seq<Rating>,
    nextId: int)

  /** The store after a successful operation, with what the operation returned. */
  datatype Step<+T> = Step(store: Store, out: T)

  /** A store with no rows, whose first id is 1. */
  function EmptyStore(): (s: Store)
    ensures Valid(s)
    ensures s.memberships == [] && s.invites == []
  {
    Store([], [], [], [], [], [], [], [], [], [], 1)
  }

  // ---------------------------------------------------------------------------
  // Table constraints

  ghost predicate IdsBelow(s: Store) {
    && 1 <= s.nextId
    && (forall x :: x in s.companies ==> 1 <= x.id < s.nextId)
    && (forall x :: x in s.departments ==> 1 <= x.id < s.nextId)
    && (forall x :: x in s.memberships ==> 1 <= x.id < s.nextId)
    && (forall x :: x in s.news ==> 1 <= x.id < s.nextId)
    && (forall x :: x in s.invites ==> 1 <= x.id < s.nextId)
    && (forall x :: x in s.tasks ==> 1 <= x.id < s.nextId)
    && (forall x :: x in s.comments ==> 1 <= x.id < s.nextId)
    && (forall x :: x in s.meetings ==> 1 <= x.id < s.nextId)
    && (forall x :: x in s.attendees ==> 1 <= x.id < s.nextId)
    && (forall x :: x in s.ratings ==> 1 <= x.id < s.nextId)
  }

  /** Company names are unique. */
  ghost predicate CompaniesValid(s: Store) {
    UniqueBy(s.companies, CompanyKey) && UniqueBy(s.companies, CompanyName)
  }

  /** Department names are unique within a company. */
  ghost predicate DepartmentsValid(s: Store) {
    UniqueBy(s.departments, DepartmentKey) && UniqueBy(s.departments, DepartmentNameInCompany)
  }

  /** At most one membership per (user, company). */
  ghost predicate MembershipsValid(s: Store) {
    UniqueBy(s.memberships, MembershipKey) && UniqueBy(s.memberships, MembershipUserCompany)
  }

  /** (title, published_at) is unique among news. */
  ghost predicate NewsValid(s: Store) {
    UniqueBy(s.news, NewsKey) && UniqueBy(s.news, NewsTitlePublished)
  }

  /** Invite codes are unique and at most six characters long. */
  ghost predicate InvitesValid(s: Store) {
    && UniqueBy(s.invites, InviteKey)
    && UniqueBy(s.invites, InviteCode)
    && (forall i :: i in s.invites ==> |i.code| <= InviteCodeMaxLength)
  }

  ghost predicate TasksValid(s: Store) {
    UniqueBy(s.tasks, TaskKey) && UniqueBy(s.comments, CommentKey)
  }

  /** Meetings end after they start; one attendee row per (meeting, user). */
  ghost predicate MeetingsValid(s: Store) {
    && UniqueBy(s.meetings, MeetingKey)
    && (forall m :: m in s.meetings ==> MeetingTimeValid(m))
    && UniqueBy(s.attendees, AttendeeKey)
    && UniqueBy(s.attendees, AttendeeMeetingUser)
  }

  /** At most one rating per task. */
  ghost predicate RatingsValid(s: Store) {
    UniqueBy(s.ratings, RatingKey) && UniqueBy(s.ratings, RatingTask)
  }

  /** Departments, memberships and invites belong to existing companies (their foreign keys). */
  ghost predicate CompanyRefsValid(s: Store) {
    && (forall d :: d in s.departments ==> CompanyExists(s, d.companyId))
    && (forall m :: m in s.memberships ==> CompanyExists(s, m.companyId))
    && (forall i :: i in s.invites ==> CompanyExists(s, i.companyId))
  }

  ghost predicate Valid(s: Store) {
    && IdsBelow(s)
    && CompanyRefsValid(s)
    && CompaniesValid(s)
    && DepartmentsValid(s)
    && MembershipsValid(s)
    && NewsValid(s)
    && InvitesValid(s)
    && TasksValid(s)
    && MeetingsValid(s)
    && RatingsValid(s)
  }

  // ---------------------------------------------------------------------------
  // The membership directory

  /** The membership of `userId` in `companyId`, if any. */
  function MembershipOf(s: Store, userId: int, companyId: int): (r: Option<Membership>)
    ensures r.Some? ==> r.value in s.memberships && r.value.userId == userId && r.value.companyId == companyId
    ensures r.None? <==> forall m :: m in s.memberships ==> !(m.userId == userId && m.companyId == companyId)
  {
    Get(s.memberships, MembershipUserCompany, (userId, companyId))
  }

  /** The predicate "is an ADMIN membership of company `c`". */
  function AdminOf(c: int): Membership -> bool {
    (m: Membership) => m.companyId == c && m.role == Admin
  }

  /** The number of ADMIN memberships of company `c`. */
  function AdminCount(s: Store, c: int): (n: nat)
    ensures n <= |s.memberships|
    ensures n == 0 <==> forall m :: m in s.memberships ==> !(m.companyId == c && m.role == Admin)
  {
    Count(s.memberships, AdminOf(c))
  }

  /** Whether a company with id `c` exists. */
  predicate CompanyExists(s: Store, c: int) {
    exists x :: x in s.companies && x.id == c
  }

  /** The task `taskId` belongs to company `c`. */
  predicate TaskOfCompany(s: Store, taskId: int, c: int) {
    exists t :: t in s.tasks && t.id == taskId && t.companyId == c
  }

  /** Every existing company has at least one ADMIN membership. */
  ghost predicate EveryCompanyHasAdmin(s: Store) {
    forall c :: CompanyExists(s, c) ==> AdminCount(s, c) >= 1
  }
}
