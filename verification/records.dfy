/**
  The stored entities of the business-management backend: companies and
  their departments, memberships, news and invites; tasks and comments;
  meetings and attendees; ratings. Timestamps are integers (seconds), ids are
  integers assigned by the store.
 */
module Records {
  import opened Outcomes

  /** A member's role inside one company. */
  datatype Role = User | Manager | Admin

  /** A membership created without an explicit role is a plain user. */
  const DefaultRole: Role := User

  datatype TaskStatus = Todo | InProgress | Done

  /** A task created without an explicit status is still to do. */
  const DefaultStatus: TaskStatus := Todo

  /** The authenticated user acting on a request. */
  datatype Actor = Actor(id: int, email: string, isSuperuser: bool)

  datatype Company = Company(id: int, name: string)

  /** A department; `parentId` refers to another department or is absent. */
  datatype Department = Department(id: int, name: string, companyId: int, parentId: Option<int>)

  /** A user's membership in one company, with an optional department and manager. */
  datatype Membership = Membership(
    id: int,
    userId: int,
    companyId: int,
    departmentId: Option<int>,
    managerId: Option<int>,
    role: Role)

  datatype News = News(id: int, title: string, body: string, authorId: int, companyId: int, publishedAt: int)

  /** A pending invitation, identified by a short code and addressed to one e-mail. */
  datatype Invite = Invite(
    id: int,
    code: string,
    companyId: int,
    departmentId: Option<int>,
    managerId: Option<int>,
    email: string,
    role: Role,
    expiresAt: int)

  /** The longest invite code the store accepts. */
  const InviteCodeMaxLength: nat := 6

  datatype Task = Task(
    id: int,
    title: string,
    body: string,
    status: TaskStatus,
    companyId: int,
    authorId: int,
    executorId: int,
    startAt: int,
    dueAt: int)

  datatype Comment = Comment(id: int, body: string, authorId: int, taskId: int)

  datatype Meeting = Meeting(
    id: int,
    title: string,
    description: string,
    companyId: int,
    authorId: int,
    startAt: int,
    endAt: int)

  datatype Attendee = Attendee(id: int, meetingId: int, userId: int)

  /** The three 1..5 scores a finished task receives, and when it received them. */
  datatype Rating = Rating(id: int, taskId: int, timeliness: int, completeness: int, quality: int, createdAt: int)

  /** The derived average of a rating; it is computed, never stored on its own. */
  function Average(r: Rating): real {
    (r.timeliness + r.completeness + r.quality) as real / 3.0
  }

  predicate ScoreInRange(score: int) {
    1 <= score <= 5
  }

  /** Each of a rating's three scores lies in 1..5, as the store's check constraints demand. */
  predicate ScoresInRange(r: Rating) {
    ScoreInRange(r.timeliness) && ScoreInRange(r.completeness) && ScoreInRange(r.quality)
  }

  lemma AverageInRange(r: Rating)
    requires ScoresInRange(r)
    ensures 1.0 <= Average(r) <= 5.0
    ensures Average(r) * 3.0 == (r.timeliness + r.completeness + r.quality) as real
  {
  }

  /** A stored meeting ends strictly after it starts. */
  predicate MeetingTimeValid(m: Meeting) {
    m.endAt > m.startAt
  }

  // ---------------------------------------------------------------------------
  // Keys. Each table's primary key and the columns its UNIQUE constraints and
  // tenant checks use, as named functions.

  function CompanyKey(c: Company): int { c.id }
  function CompanyName(c: Company): string { c.name }

  function DepartmentKey(d: Department): int { d.id }
  function DepartmentCompany(d: Department): int { d.companyId }
  function DepartmentNameInCompany(d: Department): (string, int) { (d.name, d.companyId) }

  function MembershipKey(m: Membership): int { m.id }
  function MembershipCompany(m: Membership): int { m.companyId }
  function MembershipUserCompany(m: Membership): (int, int) { (m.userId, m.companyId) }

  function NewsKey(n: News): int { n.id }
  function NewsCompany(n: News): int { n.companyId }
  function NewsTitlePublished(n: News): (string, int) { (n.title, n.publishedAt) }

  function InviteKey(i: Invite): int { i.id }
  function InviteCode(i: Invite): string { i.code }

  function TaskKey(t: Task): int { t.id }
  function TaskCompany(t: Task): int { t.companyId }

  function CommentKey(c: Comment): int { c.id }

  function MeetingKey(m: Meeting): int { m.id }

  function AttendeeKey(a: Attendee): int { a.id }
  function AttendeeMeetingUser(a: Attendee): (int, int) { (a.meetingId, a.userId) }

  function RatingKey(r: Rating): int { r.id }
  function RatingTask(r: Rating): int { r.taskId }
}
