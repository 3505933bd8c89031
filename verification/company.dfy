/**
  The company handlers as store transitions: companies, news, departments,
  invites and memberships.

  Each handler runs its access guard first (403), then the request-body
  schema (422), then the lookups and checks the handler itself performs, and
  only then writes. A failed handler returns an error and no store: every
  write of a request is one transaction, and an error rolls it back.
  A uniqueness or foreign-key violation the handler catches becomes 400; one it
  does not catch becomes 500.
 */
module CompanyEndpoints {
  import opened Outcomes
  import opened Tables
  import opened Records
  import opened Store
  import opened Schemas
  import opened Dependencies
  import opened Validators

  // ---------------------------------------------------------------------------
  // Companies

  datatype CompanyCreate = CompanyCreate(name: string)

  predicate CompanyNameTaken(s: Store, name: string) {
    exists c :: c in s.companies && c.name == name
  }

  /**
    Creates a company and makes its creator its ADMIN, in one transaction. A
    taken name is refused with 400 and nothing is written.
   */
  function CreateCompany(s: Store, input: CompanyCreate, actor: Actor): (r: Result<Step<Membership>>)
    ensures r.Err? <==> CompanyNameTaken(s, input.name)
    ensures r.Err? ==> r.status == BadRequest
    ensures r.Ok? ==>
      var m := r.value.out;
      && m.userId == actor.id && m.role == Admin && m.departmentId.None? && m.managerId.None?
      && s.nextId <= m.companyId < m.id < r.value.store.nextId
      && r.value.store.companies == s.companies + [Company(m.companyId, input.name)]
      && r.value.store.memberships == s.memberships + [m]
      && r.value.store == s.(companies := r.value.store.companies, memberships := r.value.store.memberships,
                             nextId := r.value.store.nextId)
      && (IdsBelow(s) ==> !CompanyExists(s, m.companyId))
  {
    if CompanyNameTaken(s, input.name) then Err(BadRequest)
    else
      var company := Company(s.nextId, input.name);
      var membership := Membership(s.nextId + 1, actor.id, company.id, None, None, Admin);
      Ok(Step(s.(companies := s.companies + [company],
                 memberships := s.memberships + [membership],
                 nextId := s.nextId + 2),
              membership))
  }

  /** Another company than `companyId` already has `name`. */
  predicate CompanyNameTakenByOther(s: Store, name: string, companyId: int) {
    exists c :: c in s.companies && c.name == name && c.id != companyId
  }

  /** Renames a company; a name held by another company is refused with 400. */
  function UpdateCompany(s: Store, actor: Actor, companyId: int, body: CompanyUpdate): (r: Result<Step<Company>>)
    ensures AdminOrSuperuser(s, actor, companyId).Err? ==> r == Err(Forbidden)
    ensures r.Ok? ==> ValidateCompanyUpdate(body).Accepted? && CompanyExists(s, companyId)
    ensures r.Ok? ==>
      && r.value.out.id == companyId
      && r.value.out.name == Patch(body.name, Get(s.companies, CompanyKey, companyId).value.name)
      && !CompanyNameTakenByOther(s, r.value.out.name, companyId)
      && r.value.store == s.(companies := Replace(s.companies, CompanyKey, companyId, r.value.out))
    ensures AdminOrSuperuser(s, actor, companyId).Ok? && ValidateCompanyUpdate(body).Rejected? ==>
      r == Err(Unprocessable)
    ensures AdminOrSuperuser(s, actor, companyId).Ok? && ValidateCompanyUpdate(body).Accepted? ==>
      !CompanyExists(s, companyId) ==> r == Err(NotFound)
    ensures AdminOrSuperuser(s, actor, companyId).Ok? && ValidateCompanyUpdate(body).Accepted? ==>
      CompanyExists(s, companyId) ==>
      var name := Patch(body.name, Get(s.companies, CompanyKey, companyId).value.name);
      && (r.Ok? <==> !CompanyNameTakenByOther(s, name, companyId))
      && (r.Err? ==> r == Err(BadRequest))
    ensures r.Err? ==> r.status in {Forbidden, Unprocessable, NotFound, BadRequest}
  {
    var _ :- AdminOrSuperuser(s, actor, companyId);
    var u :- AsResult(ValidateCompanyUpdate(body));
    var company :- GetOr404(s.companies, CompanyKey, companyId);
    var updated := company.(name := Patch(u.name, company.name));
    if CompanyNameTakenByOther(s, updated.name, companyId) then Err(BadRequest)
    else Ok(Step(s.(companies := Replace(s.companies, CompanyKey, companyId, updated)), updated))
  }

  /** The meeting `meetingId` belongs to company `c`. */
  predicate MeetingOfCompany(s: Store, meetingId: int, c: int) {
    exists m :: m in s.meetings && m.id == meetingId && m.companyId == c
  }

  // The rows that survive deleting company `c`, one predicate per table.
  function KeepDepartment(c: int): Department -> bool { (d: Department) => d.companyId != c }
  function KeepMembership(c: int): Membership -> bool { (m: Membership) => m.companyId != c }
  function KeepNews(c: int): News -> bool { (n: News) => n.companyId != c }
  function KeepInvite(c: int): Invite -> bool { (i: Invite) => i.companyId != c }
  function KeepTask(c: int): Task -> bool { (x: Task) => x.companyId != c }
  function KeepMeeting(c: int): Meeting -> bool { (m: Meeting) => m.companyId != c }
  function KeepComment(s: Store, c: int): Comment -> bool { (x: Comment) => !TaskOfCompany(s, x.taskId, c) }
  function KeepAttendee(s: Store, c: int): Attendee -> bool { (a: Attendee) => !MeetingOfCompany(s, a.meetingId, c) }
  function KeepRating(s: Store, c: int): Rating -> bool { (x: Rating) => !TaskOfCompany(s, x.taskId, c) }

  /** Department `id` belongs to company `c`, so it goes when `c` goes. */
  predicate DepartmentOfCompany(s: Store, id: int, c: int) {
    exists d :: d in s.departments && d.id == id && d.companyId == c
  }

  /**
    A department reference cleared when the department it names goes with
    company `c` (the foreign keys' `SET NULL`), any other reference kept.
   */
  function UnlinkCompany(s: Store, c: int, ref: Option<int>): (r: Option<int>)
    ensures r == ref || r == None
    ensures r.Some? ==> !DepartmentOfCompany(s, r.value, c)
    ensures ref.Some? && !DepartmentOfCompany(s, ref.value, c) ==> r == ref
  {
    if ref.Some? && DepartmentOfCompany(s, ref.value, c) then None else ref
  }

  // The surviving rows of the tables that may refer to a department of the deleted company.
  function DetachParent(s: Store, c: int): Department -> Department {
    (x: Department) => x.(parentId := UnlinkCompany(s, c, x.parentId))
  }
  function DetachMember(s: Store, c: int): Membership -> Membership {
    (m: Membership) => m.(departmentId := UnlinkCompany(s, c, m.departmentId))
  }
  function DetachInvite(s: Store, c: int): Invite -> Invite {
    (i: Invite) => i.(departmentId := UnlinkCompany(s, c, i.departmentId))
  }

  /**
    The store after deleting company `c`: every row that refers to it, and
    every row that refers to one of those, goes with it; a surviving row that
    referred to one of its departments (a department of another company may
    have one as its parent) now refers to none.
   */
  function DropCompany(s: Store, c: int): (t: Store)
    ensures forall x :: x in t.companies <==> x in s.companies && x.id != c
    ensures forall x :: x in t.departments <==>
      exists y :: y in s.departments && y.companyId != c && x == y.(parentId := UnlinkCompany(s, c, y.parentId))
    ensures forall m :: m in t.memberships <==>
      exists y :: y in s.memberships && y.companyId != c && m == y.(departmentId := UnlinkCompany(s, c, y.departmentId))
    ensures forall i :: i in t.invites <==>
      exists y :: y in s.invites && y.companyId != c && i == y.(departmentId := UnlinkCompany(s, c, y.departmentId))
    ensures forall x :: x in t.news <==> x in s.news && x.companyId != c
    ensures forall x :: x in t.tasks <==> x in s.tasks && x.companyId != c
    ensures forall x :: x in t.comments <==> x in s.comments && !TaskOfCompany(s, x.taskId, c)
    ensures forall x :: x in t.ratings <==> x in s.ratings && !TaskOfCompany(s, x.taskId, c)
    ensures forall x :: x in t.meetings <==> x in s.meetings && x.companyId != c
    ensures forall x :: x in t.attendees <==> x in s.attendees && !MeetingOfCompany(s, x.meetingId, c)
    ensures t.nextId == s.nextId
  {
    var departments := Filter(s.departments, KeepDepartment(c));
    var memberships := Filter(s.memberships, KeepMembership(c));
    var invites := Filter(s.invites, KeepInvite(c));
    MapMembers(departments, DetachParent(s, c));
    MapMembers(memberships, DetachMember(s, c));
    MapMembers(invites, DetachInvite(s, c));
    Store(
      Without(s.companies, CompanyKey, c),
      Map(departments, DetachParent(s, c)),
      Map(memberships, DetachMember(s, c)),
      Filter(s.news, KeepNews(c)),
      Map(invites, DetachInvite(s, c)),
      Filter(s.tasks, KeepTask(c)),
      Filter(s.comments, KeepComment(s, c)),
      Filter(s.meetings, KeepMeeting(c)),
      Filter(s.attendees, KeepAttendee(s, c)),
      Filter(s.ratings, KeepRating(s, c)),
      s.nextId)
  }

  /** No surviving row refers to a department of the deleted company. */
  lemma DropCompanyLeavesNoDanglingDepartment(s: Store, c: int)
    ensures var t := DropCompany(s, c);
      && (forall x :: x in t.departments && x.parentId.Some? ==> !DepartmentOfCompany(s, x.parentId.value, c))
      && (forall m :: m in t.memberships && m.departmentId.Some? ==> !DepartmentOfCompany(s, m.departmentId.value, c))
      && (forall i :: i in t.invites && i.departmentId.Some? ==> !DepartmentOfCompany(s, i.departmentId.value, c))
  {
  }

  /** Deletes a company and, through the foreign keys, everything it owns. */
  function RemoveCompany(s: Store, actor: Actor, companyId: int): (r: Result<Step<Company>>)
    ensures r.Ok? <==>
      (actor.isSuperuser || IsCompanyAdmin(s, actor.id, companyId)) && CompanyExists(s, companyId)
    ensures r.Ok? ==> r.value.out in s.companies && r.value.out.id == companyId
    ensures r.Ok? ==> r.value.store == DropCompany(s, companyId)
    ensures r.Err? ==> r.status in {Forbidden, NotFound}
  {
    var _ :- AdminOrSuperuser(s, actor, companyId);
    var company :- GetOr404(s.companies, CompanyKey, companyId);
    Ok(Step(DropCompany(s, companyId), company))
  }

  // ---------------------------------------------------------------------------
  // News

  /** The news of an existing company, for its members. */
  function ListNews(s: Store, actor: Actor, companyId: int): (r: Result<seq<News>>)
    ensures r.Ok? <==>
      (actor.isSuperuser || MembershipOf(s, actor.id, companyId).Some?) && CompanyExists(s, companyId)
    ensures r.Ok? ==> forall n :: n in r.value <==> n in s.news && n.companyId == companyId
    ensures r.Err? ==> r.status in {Forbidden, NotFound}
  {
    var _ :- MemberOrSuperuser(s, actor, companyId);
    var _ :- GetOr404(s.companies, CompanyKey, companyId);
    Ok(Filter(s.news, (n: News) => n.companyId == companyId))
  }

  /** Some news item, other than the one `except` names, has this (title, publish time) pair. */
  predicate NewsClash(s: Store, title: string, publishedAt: int, except: Option<int>) {
    exists n :: n in s.news && n.title == title && n.publishedAt == publishedAt && Some(n.id) != except
  }

  /**
    Publishes a news item in the company, authored by the acting admin. A
    clash on (title, publish time) is not caught by the handler: 500.
   */
  function CreateNews(s: Store, actor: Actor, companyId: int, body: NewsCreateBody, now: int): (r: Result<Step<News>>)
    ensures AdminOrSuperuser(s, actor, companyId).Err? ==> r == Err(Forbidden)
    ensures r.Ok? ==> ValidateNewsCreate(body, now).Accepted? && CompanyExists(s, companyId)
    ensures r.Ok? ==>
      var n := r.value.out;
      && n.companyId == companyId && n.authorId == actor.id
      && n.title == body.title && n.body == body.body
      && PublishDateAllowed(n.publishedAt, now)
      && !NewsClash(s, n.title, n.publishedAt, None)
      && s.nextId <= n.id < r.value.store.nextId
      && r.value.store.news == s.news + [n]
      && r.value.store == s.(news := r.value.store.news, nextId := r.value.store.nextId)
    ensures AdminOrSuperuser(s, actor, companyId).Ok? && ValidateNewsCreate(body, now).Rejected? ==>
      r == Err(Unprocessable)
    ensures AdminOrSuperuser(s, actor, companyId).Ok? && ValidateNewsCreate(body, now).Accepted? ==>
      !CompanyExists(s, companyId) ==> r == Err(NotFound)
    ensures AdminOrSuperuser(s, actor, companyId).Ok? && ValidateNewsCreate(body, now).Accepted? ==>
      CompanyExists(s, companyId) ==>
      var input := ValidateNewsCreate(body, now).value;
      && (r.Ok? <==> !NewsClash(s, input.title, input.publishedAt, None))
      && (r.Ok? ==> r.value.out.publishedAt == input.publishedAt)
      && (r.Err? ==> r == Err(Internal))
    ensures r.Err? ==> r.status in {Forbidden, Unprocessable, NotFound, Internal}
  {
    var _ :- AdminOrSuperuser(s, actor, companyId);
    var input :- AsResult(ValidateNewsCreate(body, now));
    var _ :- GetOr404(s.companies, CompanyKey, companyId);
    if NewsClash(s, input.title, input.publishedAt, None) then Err(Internal)
    else
      var news := News(s.nextId, input.title, input.body, actor.id, companyId, input.publishedAt);
      Ok(Step(s.(news := s.news + [news], nextId := s.nextId + 1), news))
  }

  /** Edits a news item of the company; author and company never change. */
  function UpdateNews(s: Store, actor: Actor, companyId: int, newsId: int, body: NewsUpdate, now: int)
    : (r: Result<Step<News>>)
    ensures AdminOrSuperuser(s, actor, companyId).Err? ==> r == Err(Forbidden)
    ensures r.Ok? ==> ValidateNewsUpdate(body, now).Accepted?
    ensures r.Ok? ==> GetInCompanyOr404(s.news, NewsKey, NewsCompany, newsId, companyId).Ok?
    ensures r.Ok? ==>
      var old_ := GetInCompanyOr404(s.news, NewsKey, NewsCompany, newsId, companyId).value;
      && !NewsClash(s, r.value.out.title, r.value.out.publishedAt, Some(newsId))
      && r.value.out == old_.(title := Patch(body.title, old_.title), body := Patch(body.body, old_.body),
                              publishedAt := Patch(body.publishedAt, old_.publishedAt))
      && r.value.store == s.(news := Replace(s.news, NewsKey, newsId, r.value.out))
    ensures AdminOrSuperuser(s, actor, companyId).Ok? && ValidateNewsUpdate(body, now).Rejected? ==>
      r == Err(Unprocessable)
    ensures AdminOrSuperuser(s, actor, companyId).Ok? && ValidateNewsUpdate(body, now).Accepted? ==>
      GetInCompanyOr404(s.news, NewsKey, NewsCompany, newsId, companyId).Err? ==> r == Err(NotFound)
    ensures AdminOrSuperuser(s, actor, companyId).Ok? && ValidateNewsUpdate(body, now).Accepted? ==>
      UniqueBy(s.news, NewsKey) && (forall n :: n in s.news && n.id == newsId ==> n.companyId != companyId) ==>
      r == Err(NotFound)
    ensures AdminOrSuperuser(s, actor, companyId).Ok? && ValidateNewsUpdate(body, now).Accepted? ==>
      GetInCompanyOr404(s.news, NewsKey, NewsCompany, newsId, companyId).Ok? ==>
      var old_ := GetInCompanyOr404(s.news, NewsKey, NewsCompany, newsId, companyId).value;
      && (r.Ok? <==> !NewsClash(s, Patch(body.title, old_.title), Patch(body.publishedAt, old_.publishedAt), Some(newsId)))
      && (r.Err? ==> r == Err(Internal))
    ensures r.Err? ==> r.status in {Forbidden, Unprocessable, NotFound, Internal}
  {
    var _ :- AdminOrSuperuser(s, actor, companyId);
    var u :- AsResult(ValidateNewsUpdate(body, now));
    var news :- GetInCompanyOr404(s.news, NewsKey, NewsCompany, newsId, companyId);
    var updated := news.(title := Patch(u.title, news.title), body := Patch(u.body, news.body),
                         publishedAt := Patch(u.publishedAt, news.publishedAt));
    if NewsClash(s, updated.title, updated.publishedAt, Some(newsId)) then Err(Internal)
    else Ok(Step(s.(news := Replace(s.news, NewsKey, newsId, updated)), updated))
  }

  /** Deletes a news item of the company; one of another company is 404. */
  function RemoveNews(s: Store, actor: Actor, companyId: int, newsId: int): (r: Result<Step<News>>)
    ensures r.Ok? ==> r.value.out in s.news && r.value.out.id == newsId && r.value.out.companyId == companyId
    ensures r.Ok? ==> r.value.store == s.(news := Without(s.news, NewsKey, newsId))
    ensures AdminOrSuperuser(s, actor, companyId).Ok? ==>
      (r.Err? <==> GetInCompanyOr404(s.news, NewsKey, NewsCompany, newsId, companyId).Err?)
    ensures r.Err? ==> r.status in {Forbidden, NotFound}
  {
    var _ :- AdminOrSuperuser(s, actor, companyId);
    var news :- GetInCompanyOr404(s.news, NewsKey, NewsCompany, newsId, companyId);
    Ok(Step(s.(news := Without(s.news, NewsKey, newsId)), news))
  }

  // ---------------------------------------------------------------------------
  // Departments

  /** The departments of an existing company, for its members. */
  function ListDepartments(s: Store, actor: Actor, companyId: int): (r: Result<seq<Department>>)
    ensures r.Ok? <==>
      (actor.isSuperuser || MembershipOf(s, actor.id, companyId).Some?) && CompanyExists(s, companyId)
    ensures r.Ok? ==> forall d :: d in r.value <==> d in s.departments && d.companyId == companyId
    ensures r.Err? ==> r.status in {Forbidden, NotFound}
  {
    var _ :- MemberOrSuperuser(s, actor, companyId);
    var _ :- GetOr404(s.companies, CompanyKey, companyId);
    Ok(Filter(s.departments, (d: Department) => d.companyId == companyId))
  }

  /** Some department of the company, other than the one `except` names, has this name. */
  predicate DepartmentNameTaken(s: Store, name: string, companyId: int, except: Option<int>) {
    exists d :: d in s.departments && d.name == name && d.companyId == companyId && Some(d.id) != except
  }

  /** A department reference is absent or names an existing department (of any company). */
  predicate DepartmentRefExists(s: Store, ref: Option<int>) {
    ref.Some? ==> exists d :: d in s.departments && d.id == ref.value
  }

  /**
    Creates a department. A taken name in the company and a parent that does
    not exist are both refused with 400; the parent is not required to be in
    the same company.
   */
  function CreateDepartment(s: Store, actor: Actor, companyId: int, input: DepartmentCreate)
    : (r: Result<Step<Department>>)
    ensures AdminOrSuperuser(s, actor, companyId).Err? ==> r == Err(Forbidden)
    ensures r.Ok? ==> CompanyExists(s, companyId)
    ensures r.Ok? ==>
      var d := r.value.out;
      && d.companyId == companyId && d.name == input.name && d.parentId == input.parentId
      && !DepartmentNameTaken(s, d.name, companyId, None) && DepartmentRefExists(s, d.parentId)
      && s.nextId <= d.id < r.value.store.nextId
      && r.value.store.departments == s.departments + [d]
      && r.value.store == s.(departments := r.value.store.departments, nextId := r.value.store.nextId)
    ensures AdminOrSuperuser(s, actor, companyId).Ok? && !CompanyExists(s, companyId) ==> r == Err(NotFound)
    ensures AdminOrSuperuser(s, actor, companyId).Ok? && CompanyExists(s, companyId) ==>
      && (r.Err? <==> DepartmentNameTaken(s, input.name, companyId, None) || !DepartmentRefExists(s, input.parentId))
      && (r.Err? ==> r == Err(BadRequest))
    ensures r.Err? ==> r.status in {Forbidden, NotFound, BadRequest}
  {
    var _ :- AdminOrSuperuser(s, actor, companyId);
    var _ :- GetOr404(s.companies, CompanyKey, companyId);
    if DepartmentNameTaken(s, input.name, companyId, None) || !DepartmentRefExists(s, input.parentId) then
      Err(BadRequest)
    else
      var d := Department(s.nextId, input.name, companyId, input.parentId);
      Ok(Step(s.(departments := s.departments + [d], nextId := s.nextId + 1), d))
  }

  /**
    Renames or re-parents a department of the company; an explicit null parent
    detaches it. No check prevents a department from becoming its own
    ancestor.
   */
  function UpdateDepartment(s: Store, actor: Actor, companyId: int, departmentId: int, body: DepartmentUpdate)
    : (r: Result<Step<Department>>)
    ensures AdminOrSuperuser(s, actor, companyId).Err? ==> r == Err(Forbidden)
    ensures r.Ok? ==> ValidateDepartmentUpdate(body).Accepted?
    ensures r.Ok? ==> GetInCompanyOr404(s.departments, DepartmentKey, DepartmentCompany, departmentId, companyId).Ok?
    ensures r.Ok? ==>
      var old_ := GetInCompanyOr404(s.departments, DepartmentKey, DepartmentCompany, departmentId, companyId).value;
      && r.value.out == old_.(name := Patch(body.name, old_.name), parentId := PatchOption(body.parentId, old_.parentId))
      && !DepartmentNameTaken(s, r.value.out.name, companyId, Some(departmentId))
      && DepartmentRefExists(s, r.value.out.parentId)
      && r.value.store == s.(departments := Replace(s.departments, DepartmentKey, departmentId, r.value.out))
    ensures AdminOrSuperuser(s, actor, companyId).Ok? && ValidateDepartmentUpdate(body).Rejected? ==>
      r == Err(Unprocessable)
    ensures AdminOrSuperuser(s, actor, companyId).Ok? && ValidateDepartmentUpdate(body).Accepted? ==>
      GetInCompanyOr404(s.departments, DepartmentKey, DepartmentCompany, departmentId, companyId).Err? ==>
      r == Err(NotFound)
    ensures AdminOrSuperuser(s, actor, companyId).Ok? && ValidateDepartmentUpdate(body).Accepted? ==>
      GetInCompanyOr404(s.departments, DepartmentKey, DepartmentCompany, departmentId, companyId).Ok? ==>
      var old_ := GetInCompanyOr404(s.departments, DepartmentKey, DepartmentCompany, departmentId, companyId).value;
      var parent := PatchOption(body.parentId, old_.parentId);
      && (r.Ok? <==> !DepartmentNameTaken(s, Patch(body.name, old_.name), companyId, Some(departmentId))
                     && DepartmentRefExists(s, parent))
      && (r.Err? ==> r == Err(BadRequest))
    ensures r.Err? ==> r.status in {Forbidden, Unprocessable, NotFound, BadRequest}
  {
    var _ :- AdminOrSuperuser(s, actor, companyId);
    var u :- AsResult(ValidateDepartmentUpdate(body));
    var d :- GetInCompanyOr404(s.departments, DepartmentKey, DepartmentCompany, departmentId, companyId);
    var updated := d.(name := Patch(u.name, d.name), parentId := PatchOption(u.parentId, d.parentId));
    if DepartmentNameTaken(s, updated.name, companyId, Some(departmentId)) || !DepartmentRefExists(s, updated.parentId) then
      Err(BadRequest)
    else Ok(Step(s.(departments := Replace(s.departments, DepartmentKey, departmentId, updated)), updated))
  }

  // Each table's rows after deleting department `d`.
  function UnlinkParent(d: int): Department -> Department { (x: Department) => x.(parentId := Unlink(x.parentId, d)) }
  function UnlinkMember(d: int): Membership -> Membership { (m: Membership) => m.(departmentId := Unlink(m.departmentId, d)) }
  function UnlinkInvite(d: int): Invite -> Invite { (i: Invite) => i.(departmentId := Unlink(i.departmentId, d)) }

  /** A reference to department `d` cleared, any other reference kept. */
  function Unlink(ref: Option<int>, d: int): (r: Option<int>)
    ensures r == ref || r == None
    ensures r.Some? ==> r.value != d
    ensures ref.Some? && ref.value != d ==> r == ref
  {
    if ref == Some(d) then None else ref
  }

  /**
    The store after deleting department `d`: children, memberships and invites
    that pointed at it now point nowhere (the foreign keys' `SET NULL`).
   */
  function DropDepartment(s: Store, d: int): (t: Store)
    ensures forall x :: x in t.departments <==>
      exists y :: y in s.departments && y.id != d && x == y.(parentId := Unlink(y.parentId, d))
    ensures forall x :: x in t.departments ==> x.id != d && x.parentId != Some(d)
    ensures |t.memberships| == |s.memberships|
    ensures forall k :: 0 <= k < |s.memberships| ==>
      t.memberships[k] == s.memberships[k].(departmentId := Unlink(s.memberships[k].departmentId, d))
    ensures |t.invites| == |s.invites|
    ensures forall k :: 0 <= k < |s.invites| ==>
      t.invites[k] == s.invites[k].(departmentId := Unlink(s.invites[k].departmentId, d))
    ensures forall m :: m in t.memberships ==> m.departmentId != Some(d)
    ensures forall i :: i in t.invites ==> i.departmentId != Some(d)
    ensures t == s.(departments := t.departments, memberships := t.memberships, invites := t.invites)
  {
    var kept := Without(s.departments, DepartmentKey, d);
    MapMembers(kept, UnlinkParent(d));
    s.(departments := Map(kept, UnlinkParent(d)),
       memberships := Map(s.memberships, UnlinkMember(d)),
       invites := Map(s.invites, UnlinkInvite(d)))
  }

  /** Deletes a department of the company; references to it are cleared. */
  function DeleteDepartment(s: Store, actor: Actor, companyId: int, departmentId: int): (r: Result<Step<Department>>)
    ensures r.Ok? ==> r.value.out in s.departments && r.value.out.id == departmentId
    ensures r.Ok? ==> r.value.out.companyId == companyId
    ensures r.Ok? ==> r.value.store == DropDepartment(s, departmentId)
    ensures AdminOrSuperuser(s, actor, companyId).Ok? ==>
      (r.Err? <==> GetInCompanyOr404(s.departments, DepartmentKey, DepartmentCompany, departmentId, companyId).Err?)
    ensures r.Err? ==> r.status in {Forbidden, NotFound}
  {
    var _ :- AdminOrSuperuser(s, actor, companyId);
    var d :- GetInCompanyOr404(s.departments, DepartmentKey, DepartmentCompany, departmentId, companyId);
    Ok(Step(DropDepartment(s, departmentId), d))
  }

  // ---------------------------------------------------------------------------
  // Invites

  predicate InviteCodeTaken(s: Store, code: string) {
    exists i :: i in s.invites && i.code == code
  }

  /**
    Issues an invite to the path company. `isEmail` is the address syntax the
    body's e-mail field accepts; `code` stands for the generated
    invite code and `expiresAt` for the expiry the store assigns. The invite is
    written only after the pre-invite checks pass; a code that is too long or
    already taken, or a department id that names no department, fails the
    insert, which the handler does not catch: 500.
   */
  function SendInvite(s: Store, actor: Actor, companyId: int, body: InviteBody, isEmail: string -> bool,
                      code: string, expiresAt: int)
    : (r: Result<Step<Invite>>)
    ensures AdminOrSuperuser(s, actor, companyId).Err? ==> r == Err(Forbidden)
    ensures AdminOrSuperuser(s, actor, companyId).Ok? && ValidateInvite(body, isEmail).Rejected? ==>
      r == Err(Unprocessable)
    ensures r.Ok? ==> ValidateInvite(body, isEmail).Accepted? && isEmail(r.value.out.email)
    ensures r.Ok? ==> CheckBeforeInvite(s, ValidateInvite(body, isEmail).value, companyId).Ok?
    ensures r.Ok? ==>
      var i := r.value.out;
      && i.companyId == companyId && i.code == code && i.expiresAt == expiresAt
      && i.departmentId == body.departmentId && i.managerId == body.managerId
      && Some(i.email) == body.email && Some(i.role) == body.role
      && |code| <= InviteCodeMaxLength && !InviteCodeTaken(s, code)
      && s.nextId <= i.id < r.value.store.nextId
      && r.value.store.invites == s.invites + [i]
      && r.value.store == s.(invites := r.value.store.invites, nextId := r.value.store.nextId)
    ensures AdminOrSuperuser(s, actor, companyId).Ok? && ValidateInvite(body, isEmail).Accepted? ==>
      var input := ValidateInvite(body, isEmail).value;
      CheckBeforeInvite(s, input, companyId).Err? ==>
      r == Err(CheckBeforeInvite(s, input, companyId).status)
    ensures AdminOrSuperuser(s, actor, companyId).Ok? && ValidateInvite(body, isEmail).Accepted? ==>
      var input := ValidateInvite(body, isEmail).value;
      CheckBeforeInvite(s, input, companyId).Ok? ==>
      && (r.Ok? <==> |code| <= InviteCodeMaxLength && !InviteCodeTaken(s, code)
                     && DepartmentRefExists(s, input.departmentId))
      && (r.Err? ==> r == Err(Internal))
    ensures r.Err? ==> r.status in {Forbidden, Unprocessable, NotFound, BadRequest, Internal}
  {
    var _ :- AdminOrSuperuser(s, actor, companyId);
    var input :- AsResult(ValidateInvite(body, isEmail));
    var _ :- CheckBeforeInvite(s, input, companyId);
    if |code| > InviteCodeMaxLength || InviteCodeTaken(s, code) || !DepartmentRefExists(s, input.departmentId) then
      Err(Internal)
    else
      var invite := Invite(s.nextId, code, companyId, input.departmentId, input.managerId, input.email,
                           input.role, expiresAt);
      Ok(Step(s.(invites := s.invites + [invite], nextId := s.nextId + 1), invite))
  }

  /**
    Redeems an invite: the acting user joins the invite's company with the
    invite's department, manager and role, and the invite is consumed. A user
    who is already a member is refused with 400 and the invite is kept.
   */
  function AcceptInvite(s: Store, actor: Actor, code: string, now: int): (r: Result<Step<Membership>>)
    ensures r.Ok? ==> CheckInviteExists(s, code, actor, now).Ok?
    ensures r.Ok? ==>
      var i := CheckInviteExists(s, code, actor, now).value;
      var m := r.value.out;
      && m.userId == actor.id && m.companyId == i.companyId && m.departmentId == i.departmentId
      && m.managerId == i.managerId && m.role == i.role
      && MembershipOf(s, actor.id, i.companyId).None?
      && s.nextId <= m.id < r.value.store.nextId
      && r.value.store.memberships == s.memberships + [m]
      && r.value.store.invites == Without(s.invites, InviteKey, i.id)
      && r.value.store == s.(memberships := r.value.store.memberships, invites := r.value.store.invites,
                             nextId := r.value.store.nextId)
    ensures CheckInviteExists(s, code, actor, now).Err? ==> r == CheckInviteExists(s, code, actor, now).PropagateFailure()
    ensures CheckInviteExists(s, code, actor, now).Ok?
      && MembershipOf(s, actor.id, CheckInviteExists(s, code, actor, now).value.companyId).Some?
      ==> r == Err(BadRequest)
    ensures CheckInviteExists(s, code, actor, now).Ok?
      && MembershipOf(s, actor.id, CheckInviteExists(s, code, actor, now).value.companyId).None?
      ==> r.Ok?
  {
    var invite :- CheckInviteExists(s, code, actor, now);
    if MembershipOf(s, actor.id, invite.companyId).Some? then Err(BadRequest)
    else
      var m := Membership(s.nextId, actor.id, invite.companyId, invite.departmentId, invite.managerId, invite.role);
      Ok(Step(s.(memberships := s.memberships + [m],
                 invites := Without(s.invites, InviteKey, invite.id),
                 nextId := s.nextId + 1),
              m))
  }

  // ---------------------------------------------------------------------------
  // Memberships

  /** The memberships of an existing company, for its members. */
  function ListMemberships(s: Store, actor: Actor, companyId: int): (r: Result<seq<Membership>>)
    ensures r.Ok? <==>
      (actor.isSuperuser || MembershipOf(s, actor.id, companyId).Some?) && CompanyExists(s, companyId)
    ensures r.Ok? ==> forall m :: m in r.value <==> m in s.memberships && m.companyId == companyId
    ensures r.Err? ==> r.status in {Forbidden, NotFound}
  {
    var _ :- MemberOrSuperuser(s, actor, companyId);
    var _ :- GetOr404(s.companies, CompanyKey, companyId);
    Ok(Filter(s.memberships, (m: Membership) => m.companyId == companyId))
  }

  /** A membership after an accepted update: supplied fields replace, null clears department or manager. */
  function ApplyMembershipUpdate(m: Membership, u: MembershipUpdate): (r: Membership)
    ensures r.id == m.id && r.userId == m.userId && r.companyId == m.companyId
    ensures u.role.Given? ==> r.role == u.role.value
    ensures !u.role.Given? ==> r.role == m.role
    ensures u.departmentId.Unset? ==> r.departmentId == m.departmentId
    ensures u.departmentId.Null? ==> r.departmentId.None?
    ensures u.managerId.Unset? ==> r.managerId == m.managerId
    ensures u.managerId.Null? ==> r.managerId.None?
  {
    m.(role := Patch(u.role, m.role),
       departmentId := PatchOption(u.departmentId, m.departmentId),
       managerId := PatchOption(u.managerId, m.managerId))
  }

  /**
    Changes a member's role, department or manager after the pre-update
    checks. A department id the checks let through that names no department
    (the falsy id 0) fails the write, which the handler reports as 400.
   */
  function UpdateMembership(s: Store, actor: Actor, companyId: int, membershipId: int, body: MembershipUpdate)
    : (r: Result<Step<Membership>>)
    ensures AdminOrSuperuser(s, actor, companyId).Err? ==> r == Err(Forbidden)
    ensures r.Ok? ==> ValidateMembershipUpdate(body).Accepted?
    ensures r.Ok? ==> GetInCompanyOr404(s.memberships, MembershipKey, MembershipCompany, membershipId, companyId).Ok?
    ensures r.Ok? ==>
      var m := GetInCompanyOr404(s.memberships, MembershipKey, MembershipCompany, membershipId, companyId).value;
      && CheckBeforeUpdateMembership(s, body, companyId, m).Ok?
      && r.value.out == ApplyMembershipUpdate(m, body)
      && r.value.store == s.(memberships := Replace(s.memberships, MembershipKey, membershipId, r.value.out))
    ensures AdminOrSuperuser(s, actor, companyId).Ok? && ValidateMembershipUpdate(body).Rejected? ==>
      r == Err(Unprocessable)
    ensures AdminOrSuperuser(s, actor, companyId).Ok? && ValidateMembershipUpdate(body).Accepted? ==>
      GetInCompanyOr404(s.memberships, MembershipKey, MembershipCompany, membershipId, companyId).Err? ==>
      r == Err(NotFound)
    ensures AdminOrSuperuser(s, actor, companyId).Ok? && ValidateMembershipUpdate(body).Accepted? ==>
      GetInCompanyOr404(s.memberships, MembershipKey, MembershipCompany, membershipId, companyId).Ok? ==>
      var m := GetInCompanyOr404(s.memberships, MembershipKey, MembershipCompany, membershipId, companyId).value;
      CheckBeforeUpdateMembership(s, body, companyId, m).Err? ==>
      r == Err(CheckBeforeUpdateMembership(s, body, companyId, m).status)
    ensures AdminOrSuperuser(s, actor, companyId).Ok? && ValidateMembershipUpdate(body).Accepted? ==>
      GetInCompanyOr404(s.memberships, MembershipKey, MembershipCompany, membershipId, companyId).Ok? ==>
      var m := GetInCompanyOr404(s.memberships, MembershipKey, MembershipCompany, membershipId, companyId).value;
      CheckBeforeUpdateMembership(s, body, companyId, m).Ok? ==>
      && (r.Ok? <==> !body.departmentId.Given? || DepartmentRefExists(s, ApplyMembershipUpdate(m, body).departmentId))
      && (r.Err? ==> r == Err(BadRequest))
    ensures r.Err? ==> r.status in {Forbidden, Unprocessable, NotFound, BadRequest}
  {
    var _ :- AdminOrSuperuser(s, actor, companyId);
    var u :- AsResult(ValidateMembershipUpdate(body));
    var m :- GetInCompanyOr404(s.memberships, MembershipKey, MembershipCompany, membershipId, companyId);
    var _ :- CheckBeforeUpdateMembership(s, u, companyId, m);
    var updated := ApplyMembershipUpdate(m, u);
    if !DepartmentRefExists(s, updated.departmentId) && u.departmentId.Given? then Err(BadRequest)
    else Ok(Step(s.(memberships := Replace(s.memberships, MembershipKey, membershipId, updated)), updated))
  }

  /** Removes a membership of the company, unless it is the company's last ADMIN. */
  function DeleteMembership(s: Store, actor: Actor, companyId: int, membershipId: int): (r: Result<Step<Membership>>)
    ensures r.Ok? ==> CheckBeforeDeleteMembership(s, membershipId, companyId).Ok?
    ensures r.Ok? ==> r.value.out == CheckBeforeDeleteMembership(s, membershipId, companyId).value
    ensures r.Ok? ==> r.value.store == s.(memberships := Without(s.memberships, MembershipKey, membershipId))
    ensures AdminOrSuperuser(s, actor, companyId).Ok? ==>
      (r.Ok? <==> CheckBeforeDeleteMembership(s, membershipId, companyId).Ok?)
    ensures r.Err? ==> r.status in {Forbidden, NotFound, BadRequest}
  {
    var _ :- AdminOrSuperuser(s, actor, companyId);
    var m :- CheckBeforeDeleteMembership(s, membershipId, companyId);
    Ok(Step(s.(memberships := Without(s.memberships, MembershipKey, m.id)), m))
  }

  /** The acting user leaves the company, unless they are its last ADMIN. */
  function LeaveCompany(s: Store, actor: Actor, companyId: int): (r: Result<Step<Membership>>)
    ensures r.Ok? <==> CheckBeforeLeave(s, actor.id, companyId).Ok?
    ensures r.Ok? ==> r.value.out == CheckBeforeLeave(s, actor.id, companyId).value
    ensures r.Ok? ==> r.value.store == s.(memberships := Without(s.memberships, MembershipKey, r.value.out.id))
    ensures MembershipOf(s, actor.id, companyId).None? ==> r == Err(NotFound)
  {
    var m :- CheckBeforeLeave(s, actor.id, companyId);
    Ok(Step(s.(memberships := Without(s.memberships, MembershipKey, m.id)), m))
  }
}
