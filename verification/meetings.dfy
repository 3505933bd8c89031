/**
  Meetings: creation, attendance, and the scheduling-conflict query.

  Two meetings conflict when their time intervals overlap strictly: each
  starts before the other ends. Intervals are half-open, so a meeting that
  starts exactly when another ends does not conflict with it.
 */
module Meetings {
  import opened Outcomes
  import opened Tables
  import opened Records
  import opened Store
  import opened Schemas
  import opened Dependencies
  import Orm

  // ---------------------------------------------------------------------------
  // Overlap

  /** The conflict condition of the query: `[aStart, aEnd)` and `[bStart, bEnd)` overlap. */
  predicate Overlaps(aStart: int, aEnd: int, bStart: int, bEnd: int) {
    aStart < bEnd && aEnd > bStart
  }

  /** Both intervals contain the instant `t`. */
  predicate SharesInstant(aStart: int, aEnd: int, bStart: int, bEnd: int, t: int) {
    aStart <= t < aEnd && bStart <= t < bEnd
  }

  lemma OverlapSymmetric(aStart: int, aEnd: int, bStart: int, bEnd: int)
    ensures Overlaps(aStart, aEnd, bStart, bEnd) <==> Overlaps(bStart, bEnd, aStart, aEnd)
  {
  }

  /** A meeting that starts when another ends, or ends when it starts, does not conflict with it. */
  lemma BackToBackDoNotOverlap(aStart: int, aEnd: int, bEnd: int)
    ensures !Overlaps(aStart, aEnd, aEnd, bEnd)
    ensures !Overlaps(aEnd, bEnd, aStart, aEnd)
  {
  }

  /**
    For non-empty intervals the query's condition is exactly "some instant lies
    in both": the conflict test neither misses a shared instant nor reports
    intervals that share none.
   */
  lemma OverlapMeansSharedInstant(aStart: int, aEnd: int, bStart: int, bEnd: int)
    requires aStart < aEnd && bStart < bEnd
    ensures Overlaps(aStart, aEnd, bStart, bEnd) <==> exists t :: SharesInstant(aStart, aEnd, bStart, bEnd, t)
  {
    if Overlaps(aStart, aEnd, bStart, bEnd) {
      var t := if aStart < bStart then bStart else aStart;
      assert SharesInstant(aStart, aEnd, bStart, bEnd, t);
    }
  }

  // ---------------------------------------------------------------------------
  // Attendance

  /** `userId` has an attendee row for meeting `meetingId`. */
  predicate Attends(s: Store, userId: int, meetingId: int) {
    exists a :: a in s.attendees && a.meetingId == meetingId && a.userId == userId
  }

  /** The meetings in conflict with `[start, end)` for `userId`, optionally restricted to one company. */
  function ConflictsWith(s: Store, userId: int, start: int, end: int, companyId: Option<int>): Meeting -> bool {
    (m: Meeting) =>
      && Overlaps(m.startAt, m.endAt, start, end)
      && Attends(s, userId, m.id)
      && (companyId.Some? ==> m.companyId == companyId.value)
  }

  /**
    The meetings `userId` attends that overlap `[start, end)`. With a company
    the result is limited to that company; without one, meetings of every
    company count.
   */
  function MeetingsAtSameTime(s: Store, userId: int, start: int, end: int, companyId: Option<int>)
    : (r: seq<Meeting>)
    ensures forall m :: m in r <==>
      && m in s.meetings
      && m.startAt < end && m.endAt > start
      && Attends(s, userId, m.id)
      && (companyId.Some? ==> m.companyId == companyId.value)
    ensures |r| <= |s.meetings|
  {
    Filter(s.meetings, ConflictsWith(s, userId, start, end, companyId))
  }

  /** Leaving out the company can only add conflicts: every company-scoped conflict is also a global one. */
  lemma CompanyScopeNarrows(s: Store, userId: int, start: int, end: int, c: int)
    ensures forall m :: m in MeetingsAtSameTime(s, userId, start, end, Some(c)) ==>
      m in MeetingsAtSameTime(s, userId, start, end, None) && m.companyId == c
    ensures forall m :: m in MeetingsAtSameTime(s, userId, start, end, None) && m.companyId == c ==>
      m in MeetingsAtSameTime(s, userId, start, end, Some(c))
  {
  }

  /** The users with an attendee row for the meeting (a join of attendees with users). */
  function UsersFromMeeting(s: Store, meetingId: int): (r: seq<int>)
    ensures forall u :: u in r <==> Attends(s, u, meetingId)
  {
    var rows := Filter(s.attendees, (a: Attendee) => a.meetingId == meetingId);
    var users := Map(rows, (a: Attendee) => a.userId);
    assert forall u :: u in users ==> Attends(s, u, meetingId) by {
      forall u | u in users
        ensures Attends(s, u, meetingId)
      {
        var k :| 0 <= k < |users| && users[k] == u;
        assert rows[k] in rows;
      }
    }
    assert forall u :: Attends(s, u, meetingId) ==> u in users by {
      forall u | Attends(s, u, meetingId)
        ensures u in users
      {
        var a :| a in s.attendees && a.meetingId == meetingId && a.userId == u;
        var k :| 0 <= k < |rows| && rows[k] == a;
        assert users[k] == u;
      }
    }
    users
  }

  // ---------------------------------------------------------------------------
  // Creation

  /** The meetings of one company, in table order. */
  function ListMeetings(s: Store, companyId: int): (r: seq<Meeting>)
    ensures forall m :: m in r <==> m in s.meetings && m.companyId == companyId
  {
    Filter(s.meetings, (m: Meeting) => m.companyId == companyId)
  }

  /**
    Stores a meeting, with the requesting user as organizer (the intended
    reading of the insert; see StoreMeetingAsWritten for the keyword it
    actually passes). Author and company come from the request, never from
    the body. The store rejects a meeting that does not end after
    it starts, and one whose company does not exist; nobody catches that
    rejection, so it surfaces as 500.
   */
  function StoreMeeting(s: Store, input: MeetingCreate, author: Actor, companyId: int): (r: Result<Step<Meeting>>)
    ensures r.Ok? <==> input.startAt < input.endAt && CompanyExists(s, companyId)
    ensures r.Err? ==> r.status == Internal
    ensures r.Ok? ==>
      && r.value.out == Meeting(r.value.out.id, input.title, input.description, companyId, author.id,
                                input.startAt, input.endAt)
      && r.value.store == s.(meetings := s.meetings + [r.value.out], nextId := r.value.store.nextId)
      && s.nextId <= r.value.out.id < r.value.store.nextId
  {
    var m := Meeting(s.nextId, input.title, input.description, companyId, author.id, input.startAt, input.endAt);
    if !MeetingTimeValid(m) || !CompanyExists(s, companyId) then Err(Internal)
    else Ok(Step(s.(meetings := s.meetings + [m], nextId := s.nextId + 1), m))
  }

  /** The attributes of the meeting model. */
  const MeetingColumns: set<string> :=
    {"id", "title", "description", "company_id", "organizer_id", "start_at", "end_at"}

  /** The keywords the meeting insert passes: the body's fields plus the author and the company. */
  const MeetingCreateKeywords: set<string> :=
    {"title", "description", "start_at", "end_at", "author_id", "company_id"}

  /**
    The meeting insert as written: the author arrives under `author_id`, which
    the model does not have (it calls the column `organizer_id`).
   */
  function StoreMeetingAsWritten(s: Store, input: MeetingCreate, author: Actor, companyId: int)
    : (r: Result<Step<Meeting>>)
    ensures r.Ok? <==> MeetingCreateKeywords <= MeetingColumns && StoreMeeting(s, input, author, companyId).Ok?
    ensures r.Err? ==> r.status == Internal
    ensures r.Ok? ==> r == StoreMeeting(s, input, author, companyId)
  {
    var _ :- Orm.Construct(MeetingColumns, MeetingCreateKeywords);
    StoreMeeting(s, input, author, companyId)
  }

  /** As written, every meeting insert fails with 500, whatever the body. */
  lemma AuthorKeywordGivesServerError(s: Store, input: MeetingCreate, author: Actor, companyId: int)
    ensures StoreMeetingAsWritten(s, input, author, companyId) == Err(Internal)
  {
    assert "author_id" in MeetingCreateKeywords && "author_id" !in MeetingColumns;
  }

  /**
    The create-meeting handler as written: guard (403), then the body schema
    (422), then the insert.
   */
  function CreateMeeting(s: Store, actor: Actor, companyId: int, body: MeetingCreate, limits: MeetingLimits)
    : (r: Result<Step<Meeting>>)
    ensures ManagerAdminOrSuperuser(s, actor, companyId).Err? ==> r == Err(Forbidden)
    ensures ManagerAdminOrSuperuser(s, actor, companyId).Ok? ==>
      (r.Err? && r.status == Unprocessable <==> ValidateMeetingCreate(body, limits).Rejected?)
    ensures r.Ok? ==> ValidateMeetingCreate(body, limits).Accepted? && r == StoreMeeting(s, body, actor, companyId)
    ensures ManagerAdminOrSuperuser(s, actor, companyId).Ok? && ValidateMeetingCreate(body, limits).Accepted? ==>
      r == StoreMeeting(s, body, actor, companyId)
    ensures r.Err? ==> r.status in {Forbidden, Unprocessable, Internal}
  {
    var _ :- ManagerAdminOrSuperuser(s, actor, companyId);
    var input :- AsResult(ValidateMeetingCreate(body, limits));
    StoreMeeting(s, input, actor, companyId)
  }

  /**
    A meeting body whose start equals its end passes the schema, which only
    refuses an end before the start, and then fails the store's strict check:
    a manager's request is answered with 500 rather than 422.
   */
  lemma EqualEndpointsGiveServerError(s: Store, actor: Actor, companyId: int, limits: MeetingLimits)
    requires ManagerAdminOrSuperuser(s, actor, companyId).Ok?
    ensures CreateMeeting(s, actor, companyId, MeetingCreate([], [], 600, 600), limits) == Err(Internal)
  {
  }

  /** The schema with the store's rule: a meeting must end strictly after it starts. */
  function ValidateMeetingCreateStrict(m: MeetingCreate, limits: MeetingLimits): (r: Parsed<MeetingCreate>)
    ensures r.Accepted? <==>
      |m.title| <= limits.titleMax && |m.description| <= limits.descriptionMax && m.startAt < m.endAt
    ensures r.Accepted? ==> r.value == m
    ensures r.Rejected? && |m.title| <= limits.titleMax && |m.description| <= limits.descriptionMax
      ==> r.reason == InvalidDates
  {
    if |m.title| > limits.titleMax || |m.description| > limits.descriptionMax then Rejected(TooLong)
    else if m.endAt <= m.startAt then Rejected(InvalidDates)
    else Accepted(m)
  }

  /** The create-meeting handler with the strict schema. */
  function CreateMeetingStrict(s: Store, actor: Actor, companyId: int, body: MeetingCreate, limits: MeetingLimits)
    : (r: Result<Step<Meeting>>)
    ensures ManagerAdminOrSuperuser(s, actor, companyId).Err? ==> r == Err(Forbidden)
    ensures r.Ok? ==> r == StoreMeeting(s, body, actor, companyId)
    ensures r.Err? ==> r.status in {Forbidden, Unprocessable, Internal}
  {
    var _ :- ManagerAdminOrSuperuser(s, actor, companyId);
    var input :- AsResult(ValidateMeetingCreateStrict(body, limits));
    StoreMeeting(s, input, actor, companyId)
  }

  /**
    With the strict schema every body the store would refuse for its dates is
    answered with 422, and a request by a member of an existing company never
    ends in 500.
   */
  lemma StrictSchemaAvoidsServerError(s: Store, actor: Actor, companyId: int, body: MeetingCreate, limits: MeetingLimits)
    requires CompanyExists(s, companyId)
    ensures CreateMeetingStrict(s, actor, companyId, body, limits) != Err(Internal)
    ensures ManagerAdminOrSuperuser(s, actor, companyId).Ok? && body.endAt <= body.startAt ==>
      CreateMeetingStrict(s, actor, companyId, body, limits) == Err(Unprocessable)
  {
  }

  // ---------------------------------------------------------------------------
  // Attendees

  /**
    Adds `userId` to meeting `meetingId`. A second row for the same pair, or a
    row for a missing meeting, is refused by the store; that refusal is not
    translated here and surfaces as 500.
   */
  function AddAttendee(s: Store, meetingId: int, userId: int): (r: Result<Step<Attendee>>)
    ensures r.Ok? <==> !Attends(s, userId, meetingId) && (exists m :: m in s.meetings && m.id == meetingId)
    ensures r.Err? ==> r.status == Internal
    ensures r.Ok? ==>
      && r.value.out.meetingId == meetingId && r.value.out.userId == userId
      && r.value.store == s.(attendees := s.attendees + [r.value.out], nextId := r.value.store.nextId)
      && s.nextId <= r.value.out.id < r.value.store.nextId
  {
    var a := Attendee(s.nextId, meetingId, userId);
    if Get(s.attendees, AttendeeMeetingUser, (meetingId, userId)).Some? then Err(Internal)
    else if Get(s.meetings, MeetingKey, meetingId).None? then Err(Internal)
    else Ok(Step(s.(attendees := s.attendees + [a], nextId := s.nextId + 1), a))
  }

  /** After a successful add the user attends the meeting, and a second add of the same pair fails. */
  lemma AddAttendeeOnce(s: Store, meetingId: int, userId: int)
    requires AddAttendee(s, meetingId, userId).Ok?
    ensures
      var t := AddAttendee(s, meetingId, userId).value.store;
      && Attends(t, userId, meetingId)
      && AddAttendee(t, meetingId, userId) == Err(Internal)
  {
    var t := AddAttendee(s, meetingId, userId).value.store;
    var a := AddAttendee(s, meetingId, userId).value.out;
    assert a in t.attendees;
  }

  // ---------------------------------------------------------------------------
  // Table constraints

  lemma CreateMeetingKeepsValid(s: Store, actor: Actor, companyId: int, body: MeetingCreate, limits: MeetingLimits)
    requires Valid(s)
    requires CreateMeeting(s, actor, companyId, body, limits).Ok?
    ensures Valid(CreateMeeting(s, actor, companyId, body, limits).value.store)
  {
    var r := CreateMeeting(s, actor, companyId, body, limits).value;
    UniqueAppend(s.meetings, MeetingKey, r.out);
  }

  lemma AddAttendeeKeepsValid(s: Store, meetingId: int, userId: int)
    requires Valid(s)
    requires AddAttendee(s, meetingId, userId).Ok?
    ensures Valid(AddAttendee(s, meetingId, userId).value.store)
  {
    var r := AddAttendee(s, meetingId, userId).value;
    UniqueAppend(s.attendees, AttendeeKey, r.out);
    UniqueAppend(s.attendees, AttendeeMeetingUser, r.out);
  }
}
