/**
  Request-body validation: what the schema layer accepts before any handler
  runs. A rejected body is answered with 422 and reaches no handler.

  Field-level rules (required fields, "explicit null rejected", lengths,
  score bounds) are checked first; the whole-body rules (date ordering,
  "both dates or neither") run only on a body whose fields all passed. The
  model reports one reason per rejected body.
 */
module Schemas {
  import opened Outcomes
  import opened Records

  datatype Reason =
    | FieldCantBeEmpty   // a field sent as explicit null
    | Missing            // a required field left out
    | TooLong            // a string over its maximum length
    | OutOfRange         // a number outside its bounds
    | NotAnEmail         // a string that is not an e-mail address
    | InvalidDates       // end before start
    | BothOrNoneDates    // only one of the two dates supplied
    | DateInPast         // a news publish date before today

  datatype Parsed<+T> = Accepted(value: T) | Rejected(reason: Reason)

  /** A rejected body is answered with 422. */
  function AsResult<T>(p: Parsed<T>): (r: Result<T>)
    ensures r.Ok? <==> p.Accepted?
    ensures r.Ok? ==> r.value == p.value
    ensures r.Err? ==> r.status == Unprocessable
  {
    match p
    case Accepted(v) => Ok(v)
    case Rejected(_) => Err(Unprocessable)
  }

  /** The field was not sent as explicit null. */
  predicate NotNull<T>(f: Field<T>) {
    !f.Null?
  }

  /** A patch whose one non-nullable field `f` is sent as explicit null is refused; any other is kept as sent. */
  function RefuseNull<T, U>(f: Field<T>, patch: U): (r: Parsed<U>)
    ensures r.Accepted? <==> NotNull(f)
    ensures r.Accepted? ==> r.value == patch
    ensures r.Rejected? ==> r.reason == FieldCantBeEmpty
  {
    if f.Null? then Rejected(FieldCantBeEmpty) else Accepted(patch)
  }

  /** Both fields supplied, or neither. */
  predicate BothOrNeither<T, U>(a: Field<T>, b: Field<U>) {
    a.Given? <==> b.Given?
  }

  // ---------------------------------------------------------------------------
  // Tasks

  /** A task-creation body; a missing `status` is `None`. */
  datatype TaskCreateBody = TaskCreateBody(
    title: string, body: string, startAt: int, endAt: int, executorId: int, status: Option<TaskStatus>)

  datatype TaskCreate = TaskCreate(
    title: string, body: string, startAt: int, endAt: int, executorId: int, status: TaskStatus)

  function ValidateTaskCreate(b: TaskCreateBody): (r: Parsed<TaskCreate>)
    ensures r.Accepted? <==> b.startAt <= b.endAt
    ensures r.Rejected? ==> r.reason == InvalidDates
    ensures r.Accepted? ==> r.value.status == (if b.status.Some? then b.status.value else DefaultStatus)
    ensures r.Accepted? ==>
      && r.value.title == b.title && r.value.body == b.body
      && r.value.startAt == b.startAt && r.value.endAt == b.endAt
      && r.value.executorId == b.executorId
  {
    var status := match b.status case Some(st) => st case None => DefaultStatus;
    if b.endAt < b.startAt then Rejected(InvalidDates)
    else Accepted(TaskCreate(b.title, b.body, b.startAt, b.endAt, b.executorId, status))
  }

  datatype TaskField = TitleField | BodyField | StatusField | StartField | EndField

  /** A partial task update. */
  datatype TaskUpdate = TaskUpdate(
    title: Field<string>, body: Field<string>, status: Field<TaskStatus>, startAt: Field<int>, endAt: Field<int>)

  /** The fields the client sent, null or not (Pydantic's `exclude_unset` dump). */
  function SuppliedTaskFields(u: TaskUpdate): (fs: set<TaskField>)
    ensures TitleField in fs <==> !u.title.Unset?
    ensures BodyField in fs <==> !u.body.Unset?
    ensures StatusField in fs <==> !u.status.Unset?
    ensures StartField in fs <==> !u.startAt.Unset?
    ensures EndField in fs <==> !u.endAt.Unset?
  {
    (if u.title.Unset? then {} else {TitleField})
    + (if u.body.Unset? then {} else {BodyField})
    + (if u.status.Unset? then {} else {StatusField})
    + (if u.startAt.Unset? then {} else {StartField})
    + (if u.endAt.Unset? then {} else {EndField})
  }

  predicate TaskUpdateHasNoNull(u: TaskUpdate) {
    NotNull(u.title) && NotNull(u.body) && NotNull(u.status) && NotNull(u.startAt) && NotNull(u.endAt)
  }

  function ValidateTaskUpdate(u: TaskUpdate): (r: Parsed<TaskUpdate>)
    ensures r.Accepted? <==>
      && TaskUpdateHasNoNull(u)
      && BothOrNeither(u.startAt, u.endAt)
      && (u.startAt.Given? ==> u.startAt.value <= u.endAt.value)
    ensures r.Accepted? ==> r.value == u
    ensures !TaskUpdateHasNoNull(u) ==> r == Rejected(FieldCantBeEmpty)
    ensures TaskUpdateHasNoNull(u) && !BothOrNeither(u.startAt, u.endAt) ==> r == Rejected(BothOrNoneDates)
  {
    if !TaskUpdateHasNoNull(u) then Rejected(FieldCantBeEmpty)
    else if u.startAt.Given? != u.endAt.Given? then Rejected(BothOrNoneDates)
    else if u.startAt.Given? && u.endAt.value < u.startAt.value then Rejected(InvalidDates)
    else Accepted(u)
  }

  // ---------------------------------------------------------------------------
  // Meetings

  /** The maximum title and description lengths of a meeting. */
  datatype MeetingLimits = MeetingLimits(titleMax: nat, descriptionMax: nat)

  datatype MeetingCreate = MeetingCreate(title: string, description: string, startAt: int, endAt: int)

  function ValidateMeetingCreate(m: MeetingCreate, limits: MeetingLimits): (r: Parsed<MeetingCreate>)
    ensures r.Accepted? <==>
      |m.title| <= limits.titleMax && |m.description| <= limits.descriptionMax && m.startAt <= m.endAt
    ensures r.Accepted? ==> r.value == m
    ensures r.Rejected? && |m.title| <= limits.titleMax && |m.description| <= limits.descriptionMax
      ==> r.reason == InvalidDates
  {
    if |m.title| > limits.titleMax || |m.description| > limits.descriptionMax then Rejected(TooLong)
    else if m.endAt < m.startAt then Rejected(InvalidDates)
    else Accepted(m)
  }

  datatype MeetingUpdate = MeetingUpdate(
    title: Field<string>, description: Field<string>, startAt: Field<int>, endAt: Field<int>)

  predicate MeetingUpdateHasNoNull(u: MeetingUpdate) {
    NotNull(u.title) && NotNull(u.description) && NotNull(u.startAt) && NotNull(u.endAt)
  }

  predicate WithinLength(f: Field<string>, max: nat) {
    f.Given? ==> |f.value| <= max
  }

  function ValidateMeetingUpdate(u: MeetingUpdate, limits: MeetingLimits): (r: Parsed<MeetingUpdate>)
    ensures r.Accepted? <==>
      && MeetingUpdateHasNoNull(u)
      && WithinLength(u.title, limits.titleMax)
      && WithinLength(u.description, limits.descriptionMax)
      && BothOrNeither(u.startAt, u.endAt)
      && (u.startAt.Given? ==> u.startAt.value <= u.endAt.value)
    ensures r.Accepted? ==> r.value == u
    ensures !MeetingUpdateHasNoNull(u) ==> r.Rejected?
  {
    if !WithinLength(u.title, limits.titleMax) || !WithinLength(u.description, limits.descriptionMax) then
      Rejected(TooLong)
    else if !MeetingUpdateHasNoNull(u) then Rejected(FieldCantBeEmpty)
    else if u.startAt.Given? != u.endAt.Given? then Rejected(BothOrNoneDates)
    else if u.startAt.Given? && u.endAt.value < u.startAt.value then Rejected(InvalidDates)
    else Accepted(u)
  }

  // ---------------------------------------------------------------------------
  // Company, departments, memberships, news, invites

  const SecondsPerDay: int := 86400

  /** The calendar day of a timestamp (the date part of a naive datetime). */
  function Day(t: int): int {
    t / SecondsPerDay
  }

  /** A news item may be published today or later, never on an earlier date. */
  predicate PublishDateAllowed(publishedAt: int, now: int) {
    Day(publishedAt) >= Day(now)
  }

  datatype NewsCreateBody = NewsCreateBody(title: string, body: string, publishedAt: Field<int>)

  datatype NewsCreate = NewsCreate(title: string, body: string, publishedAt: int)

  /** An omitted publish date defaults to the current time. */
  function ValidateNewsCreate(b: NewsCreateBody, now: int): (r: Parsed<NewsCreate>)
    ensures r.Accepted? <==>
      NotNull(b.publishedAt) && (b.publishedAt.Given? ==> PublishDateAllowed(b.publishedAt.value, now))
    ensures r.Accepted? ==> r.value.title == b.title && r.value.body == b.body
    ensures r.Accepted? ==> r.value.publishedAt == (if b.publishedAt.Given? then b.publishedAt.value else now)
    ensures r.Accepted? ==> PublishDateAllowed(r.value.publishedAt, now)
  {
    match b.publishedAt
    case Null => Rejected(FieldCantBeEmpty)
    case Unset => Accepted(NewsCreate(b.title, b.body, now))
    case Given(p) =>
      if Day(p) < Day(now) then Rejected(DateInPast) else Accepted(NewsCreate(b.title, b.body, p))
  }

  datatype NewsUpdate = NewsUpdate(title: Field<string>, body: Field<string>, publishedAt: Field<int>)

  function ValidateNewsUpdate(u: NewsUpdate, now: int): (r: Parsed<NewsUpdate>)
    ensures r.Accepted? <==>
      && NotNull(u.title) && NotNull(u.body) && NotNull(u.publishedAt)
      && (u.publishedAt.Given? ==> PublishDateAllowed(u.publishedAt.value, now))
    ensures r.Accepted? ==> r.value == u
  {
    if u.title.Null? || u.body.Null? || u.publishedAt.Null? then Rejected(FieldCantBeEmpty)
    else if u.publishedAt.Given? && Day(u.publishedAt.value) < Day(now) then Rejected(DateInPast)
    else Accepted(u)
  }

  /**
    The publish-date rule compares dates, not instants: a time earlier today is
    allowed, and the allowed instants are exactly those from today's midnight on.
   */
  lemma PublishDateFromMidnight(p: int, now: int)
    ensures PublishDateAllowed(p, now) <==> p >= Day(now) * SecondsPerDay
    ensures Day(p) == Day(now) ==> PublishDateAllowed(p, now)
    ensures p >= now ==> PublishDateAllowed(p, now)
  {
    var d := Day(now);
    assert d * SecondsPerDay <= now;
    if p >= d * SecondsPerDay {
      assert (p - d * SecondsPerDay) / SecondsPerDay >= 0;
      DivShift(p, d);
    } else {
      DivBelow(p, d);
    }
    if p >= now {
      DivMonotone(now, p);
    }
  }

  lemma DivShift(p: int, d: int)
    requires p >= d * SecondsPerDay
    ensures p / SecondsPerDay >= d
  {
    var q := p / SecondsPerDay;
    var rem := p % SecondsPerDay;
    assert p == q * SecondsPerDay + rem && 0 <= rem < SecondsPerDay;
  }

  lemma DivBelow(p: int, d: int)
    requires p < d * SecondsPerDay
    ensures p / SecondsPerDay < d
  {
    var q := p / SecondsPerDay;
    var rem := p % SecondsPerDay;
    assert p == q * SecondsPerDay + rem && 0 <= rem < SecondsPerDay;
  }

  lemma DivMonotone(a: int, b: int)
    requires a <= b
    ensures a / SecondsPerDay <= b / SecondsPerDay
  {
    var qa := a / SecondsPerDay;
    DivShift(b, qa);
  }

  datatype CompanyUpdate = CompanyUpdate(name: Field<string>)

  function ValidateCompanyUpdate(u: CompanyUpdate): (r: Parsed<CompanyUpdate>)
    ensures r.Accepted? <==> NotNull(u.name)
    ensures r.Accepted? ==> r.value == u
    ensures r.Rejected? ==> r.reason == FieldCantBeEmpty
  {
    RefuseNull(u.name, u)
  }

  datatype DepartmentCreate = DepartmentCreate(name: string, parentId: Option<int>)

  /** A department update; an explicit null parent detaches the department. */
  datatype DepartmentUpdate = DepartmentUpdate(name: Field<string>, parentId: Field<int>)

  function ValidateDepartmentUpdate(u: DepartmentUpdate): (r: Parsed<DepartmentUpdate>)
    ensures r.Accepted? <==> NotNull(u.name)
    ensures r.Accepted? ==> r.value == u
    ensures r.Rejected? ==> r.reason == FieldCantBeEmpty
  {
    RefuseNull(u.name, u)
  }

  /** A membership update; explicit null clears the department or the manager. */
  datatype MembershipUpdate = MembershipUpdate(role: Field<Role>, departmentId: Field<int>, managerId: Field<int>)

  function ValidateMembershipUpdate(u: MembershipUpdate): (r: Parsed<MembershipUpdate>)
    ensures r.Accepted? <==> NotNull(u.role)
    ensures r.Accepted? ==> r.value == u
    ensures r.Rejected? ==> r.reason == FieldCantBeEmpty
  {
    RefuseNull(u.role, u)
  }

  /** An invite body as sent; `None` stands for a field left out or sent as null. */
  datatype InviteBody = InviteBody(
    departmentId: Option<int>, role: Option<Role>, email: Option<string>, managerId: Option<int>)

  datatype InviteCreate = InviteCreate(departmentId: Option<int>, role: Role, email: string, managerId: Option<int>)

  /**
    An invite needs a role and an e-mail address; `isEmail` is the address
    syntax the e-mail field type accepts.
   */
  function ValidateInvite(b: InviteBody, isEmail: string -> bool): (r: Parsed<InviteCreate>)
    ensures r.Accepted? <==> b.role.Some? && b.email.Some? && isEmail(b.email.value)
    ensures r.Rejected? ==> r.reason in {Missing, NotAnEmail}
    ensures b.role.Some? && b.email.Some? && !isEmail(b.email.value) ==> r == Rejected(NotAnEmail)
    ensures r.Accepted? ==>
      r.value == InviteCreate(b.departmentId, b.role.value, b.email.value, b.managerId)
  {
    match (b.role, b.email)
    case (Some(role), Some(email)) =>
      if isEmail(email) then Accepted(InviteCreate(b.departmentId, role, email, b.managerId))
      else Rejected(NotAnEmail)
    case _ => Rejected(Missing)
  }

  // ---------------------------------------------------------------------------
  // Ratings

  /** A rating body: three scores and nothing else; the average is never sent. */
  datatype RatingCreate = RatingCreate(timeliness: int, completeness: int, quality: int)

  function ValidateRating(b: RatingCreate): (r: Parsed<RatingCreate>)
    ensures r.Accepted? <==>
      ScoreInRange(b.timeliness) && ScoreInRange(b.completeness) && ScoreInRange(b.quality)
    ensures r.Accepted? ==> r.value == b
    ensures r.Rejected? ==> r.reason == OutOfRange
  {
    if ScoreInRange(b.timeliness) && ScoreInRange(b.completeness) && ScoreInRange(b.quality) then Accepted(b)
    else Rejected(OutOfRange)
  }
}
