/**
  What the company handlers preserve: the table constraints (`Valid`), and
  the rule that a company with an ADMIN keeps one. Also the invite lifecycle:
  an accepted invite is consumed, so a second acceptance finds nothing.
 */
module CompanyInvariants {
  import opened Outcomes
  import opened Tables
  import opened Records
  import opened Store
  import opened Schemas
  import opened Validators
  import opened CompanyEndpoints

  // ---------------------------------------------------------------------------
  // The last ADMIN

  /**
    A successful role change never leaves a company without an ADMIN: a
    demotion of an ADMIN passes only when another ADMIN remains.
   */
  lemma UpdateMembershipKeepsAdmin(s: Store, actor: Actor, companyId: int, membershipId: int, body: MembershipUpdate, c: int)
    requires MembershipsValid(s)
    requires UpdateMembership(s, actor, companyId, membershipId, body).Ok?
    requires AdminCount(s, c) >= 1
    ensures AdminCount(UpdateMembership(s, actor, companyId, membershipId, body).value.store, c) >= 1
  {
    var r := UpdateMembership(s, actor, companyId, membershipId, body).value;
    var m := GetInCompanyOr404(s.memberships, MembershipKey, MembershipCompany, membershipId, companyId).value;
    CountReplace(s.memberships, MembershipKey, membershipId, m, r.out, AdminOf(c));
  }

  /** Deleting a membership never removes a company's last ADMIN. */
  lemma DeleteMembershipKeepsAdmin(s: Store, actor: Actor, companyId: int, membershipId: int, c: int)
    requires MembershipsValid(s)
    requires DeleteMembership(s, actor, companyId, membershipId).Ok?
    requires AdminCount(s, c) >= 1
    ensures AdminCount(DeleteMembership(s, actor, companyId, membershipId).value.store, c) >= 1
  {
    var m := DeleteMembership(s, actor, companyId, membershipId).value.out;
    CountWithout(s.memberships, MembershipKey, m.id, m, AdminOf(c));
  }

  /** Leaving a company never removes its last ADMIN. */
  lemma LeaveCompanyKeepsAdmin(s: Store, actor: Actor, companyId: int, c: int)
    requires MembershipsValid(s)
    requires LeaveCompany(s, actor, companyId).Ok?
    requires AdminCount(s, c) >= 1
    ensures AdminCount(LeaveCompany(s, actor, companyId).value.store, c) >= 1
  {
    var m := LeaveCompany(s, actor, companyId).value.out;
    GetUnique(s.memberships, MembershipKey, m);
    CountWithout(s.memberships, MembershipKey, m.id, m, AdminOf(c));
  }

  /** A new company starts with its creator as ADMIN; no other company loses one. */
  lemma CreateCompanyKeepsAdmins(s: Store, input: CompanyCreate, actor: Actor)
    requires EveryCompanyHasAdmin(s)
    requires CreateCompany(s, input, actor).Ok?
    ensures EveryCompanyHasAdmin(CreateCompany(s, input, actor).value.store)
    ensures AdminCount(CreateCompany(s, input, actor).value.store, CreateCompany(s, input, actor).value.out.companyId) >= 1
  {
    var r := CreateCompany(s, input, actor).value;
    forall c | CompanyExists(r.store, c)
      ensures AdminCount(r.store, c) >= 1
    {
      CountAppend(s.memberships, r.out, AdminOf(c));
      var x :| x in r.store.companies && x.id == c;
      if x in s.companies {
        assert AdminCount(s, c) >= 1;
      }
    }
    CountAppend(s.memberships, r.out, AdminOf(r.out.companyId));
  }

  /**
    The creator's membership is the new company's only one: no stored
    membership can refer to a company that did not exist yet.
   */
  lemma CreateCompanyHasOneMember(s: Store, input: CompanyCreate, actor: Actor)
    requires IdsBelow(s) && CompanyRefsValid(s)
    requires CreateCompany(s, input, actor).Ok?
    ensures var r := CreateCompany(s, input, actor).value;
      forall m :: m in r.store.memberships && m.companyId == r.out.companyId ==> m == r.out
    ensures var r := CreateCompany(s, input, actor).value;
      AdminCount(r.store, r.out.companyId) == 1
  {
    var r := CreateCompany(s, input, actor).value;
    var c := r.out.companyId;
    forall m | m in s.memberships
      ensures m.companyId != c
    {
      assert CompanyExists(s, m.companyId);
    }
    assert AdminCount(s, c) == 0;
    CountAppend(s.memberships, r.out, AdminOf(c));
  }

  /** Accepting an invite only adds a membership, so no company loses an ADMIN. */
  lemma AcceptInviteKeepsAdmins(s: Store, actor: Actor, code: string, now: int)
    requires EveryCompanyHasAdmin(s)
    requires AcceptInvite(s, actor, code, now).Ok?
    ensures EveryCompanyHasAdmin(AcceptInvite(s, actor, code, now).value.store)
  {
    var r := AcceptInvite(s, actor, code, now).value;
    forall c | CompanyExists(r.store, c)
      ensures AdminCount(r.store, c) >= 1
    {
      CountAppend(s.memberships, r.out, AdminOf(c));
      assert CompanyExists(s, c);
      assert AdminCount(s, c) >= 1;
    }
  }

  /** Deleting a company leaves every other company's ADMINs in place. */
  lemma RemoveCompanyKeepsAdmins(s: Store, actor: Actor, companyId: int)
    requires EveryCompanyHasAdmin(s)
    requires RemoveCompany(s, actor, companyId).Ok?
    ensures EveryCompanyHasAdmin(RemoveCompany(s, actor, companyId).value.store)
  {
    var t := RemoveCompany(s, actor, companyId).value.store;
    forall c | CompanyExists(t, c)
      ensures AdminCount(t, c) >= 1
    {
      var x :| x in t.companies && x.id == c;
      assert CompanyExists(s, c);
      assert AdminCount(s, c) >= 1;
      var kept := Filter(s.memberships, KeepMembership(companyId));
      CountFilter(s.memberships, KeepMembership(companyId), AdminOf(c));
      CountMap(kept, DetachMember(s, companyId), AdminOf(c));
    }
  }

  /** Deleting a department clears references but changes no role or company. */
  lemma DeleteDepartmentKeepsAdmins(s: Store, actor: Actor, companyId: int, departmentId: int)
    requires EveryCompanyHasAdmin(s)
    requires DeleteDepartment(s, actor, companyId, departmentId).Ok?
    ensures EveryCompanyHasAdmin(DeleteDepartment(s, actor, companyId, departmentId).value.store)
  {
    var t := DeleteDepartment(s, actor, companyId, departmentId).value.store;
    forall c | CompanyExists(t, c)
      ensures AdminCount(t, c) >= 1
    {
      assert CompanyExists(s, c);
      assert AdminCount(s, c) >= 1;
      CountMap(s.memberships, UnlinkMember(departmentId), AdminOf(c));
    }
  }

  // ---------------------------------------------------------------------------
  // Deletion removes exactly one membership

  /** Deleting a membership removes that row and keeps every other row. */
  lemma DeleteMembershipRemovesExactlyIt(s: Store, actor: Actor, companyId: int, membershipId: int)
    requires MembershipsValid(s)
    requires DeleteMembership(s, actor, companyId, membershipId).Ok?
    ensures var r := DeleteMembership(s, actor, companyId, membershipId).value;
      forall x :: x in r.store.memberships <==> x in s.memberships && x != r.out
  {
    var r := DeleteMembership(s, actor, companyId, membershipId).value;
    forall x | x in s.memberships && x.id == r.out.id
      ensures x == r.out
    {
      UniqueMatch(s.memberships, MembershipKey, x, r.out);
    }
  }

  /** Leaving removes the actor's membership in that company and keeps every other row. */
  lemma LeaveRemovesExactlyIt(s: Store, actor: Actor, companyId: int)
    requires MembershipsValid(s)
    requires LeaveCompany(s, actor, companyId).Ok?
    ensures var r := LeaveCompany(s, actor, companyId).value;
      && r.out.userId == actor.id && r.out.companyId == companyId
      && forall x :: x in r.store.memberships <==> x in s.memberships && x != r.out
    ensures MembershipOf(LeaveCompany(s, actor, companyId).value.store, actor.id, companyId).None?
  {
    var r := LeaveCompany(s, actor, companyId).value;
    forall x | x in s.memberships && x.id == r.out.id
      ensures x == r.out
    {
      UniqueMatch(s.memberships, MembershipKey, x, r.out);
    }
    forall x | x in s.memberships && x.userId == actor.id && x.companyId == companyId
      ensures x == r.out
    {
      UniqueMatch(s.memberships, MembershipUserCompany, x, r.out);
    }
  }

  // ---------------------------------------------------------------------------
  // The invite lifecycle

  /**
    An accepted invite is gone: presenting the same code again, by anyone at
    any time, is answered with 404.
   */
  lemma AcceptConsumesInvite(s: Store, actor: Actor, code: string, now: int, actor2: Actor, now2: int)
    requires InvitesValid(s)
    requires AcceptInvite(s, actor, code, now).Ok?
    ensures CheckInviteExists(AcceptInvite(s, actor, code, now).value.store, code, actor2, now2) == Err(NotFound)
    ensures AcceptInvite(AcceptInvite(s, actor, code, now).value.store, actor2, code, now2) == Err(NotFound)
  {
    var t := AcceptInvite(s, actor, code, now).value.store;
    var i := CheckInviteExists(s, code, actor, now).value;
    forall x | x in t.invites
      ensures x.code != code
    {
      if x.code == code {
        UniqueMatch(s.invites, InviteCode, x, i);
      }
    }
  }

  /** An accepted invite makes the acceptor a member of the invite's company. */
  lemma AcceptMakesMember(s: Store, actor: Actor, code: string, now: int)
    requires MembershipsValid(s)
    requires AcceptInvite(s, actor, code, now).Ok?
    ensures var r := AcceptInvite(s, actor, code, now).value;
      MembershipOf(r.store, actor.id, r.out.companyId) == Some(r.out)
  {
    var r := AcceptInvite(s, actor, code, now).value;
    var found := MembershipOf(r.store, actor.id, r.out.companyId);
  }

  // ---------------------------------------------------------------------------
  // Table constraints


  /** Adding one membership with a fresh id, for an existing company and a user not yet in it, keeps `Valid`. */
  lemma AddMembershipKeepsValid(s: Store, t: Store, m: Membership)
    requires Valid(s)
    requires s.nextId <= m.id < t.nextId
    requires CompanyExists(s, m.companyId) && MembershipOf(s, m.userId, m.companyId).None?
    requires t == s.(memberships := s.memberships + [m], nextId := t.nextId)
    ensures Valid(t)
  {
    UniqueAppend(s.memberships, MembershipKey, m);
    UniqueAppend(s.memberships, MembershipUserCompany, m);
  }

  /** Removing the invite `id` keeps `Valid`. */
  lemma DropInviteKeepsValid(s: Store, id: int)
    requires Valid(s)
    ensures Valid(s.(invites := Without(s.invites, InviteKey, id)))
  {
    UniqueWithout(s.invites, InviteKey, id, InviteKey);
    UniqueWithout(s.invites, InviteKey, id, InviteCode);
  }

  /** Removing the membership `id` keeps `Valid`. */
  lemma DropMembershipKeepsValid(s: Store, id: int)
    requires Valid(s)
    ensures Valid(s.(memberships := Without(s.memberships, MembershipKey, id)))
  {
    UniqueWithout(s.memberships, MembershipKey, id, MembershipKey);
    UniqueWithout(s.memberships, MembershipKey, id, MembershipUserCompany);
  }

  lemma CreateCompanyKeepsValid(s: Store, input: CompanyCreate, actor: Actor)
    requires Valid(s)
    requires CreateCompany(s, input, actor).Ok?
    ensures Valid(CreateCompany(s, input, actor).value.store)
  {
    var r := CreateCompany(s, input, actor).value;
    var m := r.out;
    var company := Company(m.companyId, input.name);
    var mid := s.(companies := s.companies + [company], nextId := m.id);
    UniqueAppend(s.companies, CompanyKey, company);
    UniqueAppend(s.companies, CompanyName, company);
    assert Valid(mid);
    assert MembershipOf(mid, m.userId, m.companyId).None? by {
      forall x | x in s.memberships
        ensures x.companyId != m.companyId
      {
        assert CompanyExists(s, x.companyId);
      }
    }
    assert CompanyExists(mid, m.companyId);
    AddMembershipKeepsValid(mid, r.store, m);
  }

  /** The company rows after renaming one company to a name no other company holds. */
  lemma RenamedCompaniesValid(s: Store, c: Company, v: Company)
    requires Valid(s)
    requires c in s.companies && v.id == c.id
    requires forall x :: x in s.companies && x.id != c.id ==> x.name != v.name
    ensures var rows := Replace(s.companies, CompanyKey, c.id, v);
      && UniqueBy(rows, CompanyKey) && UniqueBy(rows, CompanyName)
      && (forall x :: x in rows ==> 1 <= x.id < s.nextId)
      && (forall x :: x in s.companies ==> exists y :: y in rows && y.id == x.id)
  {
    var rows := Replace(s.companies, CompanyKey, c.id, v);
    UniqueReplace(s.companies, CompanyKey, c.id, v, CompanyKey);
    UniqueReplaceNew(s.companies, CompanyKey, c.id, v, CompanyName);
    forall x | x in s.companies
      ensures exists y :: y in rows && y.id == x.id
    {
      var k :| 0 <= k < |s.companies| && s.companies[k] == x;
      assert rows[k] in rows && rows[k].id == x.id;
    }
    forall x | x in rows
      ensures 1 <= x.id < s.nextId
    {
      var k :| 0 <= k < |rows| && rows[k] == x;
      assert s.companies[k] in s.companies;
    }
  }

  /** Renaming one company to a name no other company holds keeps `Valid`. */
  lemma RenameCompanyKeepsValid(s: Store, c: Company, v: Company)
    requires Valid(s)
    requires c in s.companies && v.id == c.id
    requires forall x :: x in s.companies && x.id != c.id ==> x.name != v.name
    ensures Valid(s.(companies := Replace(s.companies, CompanyKey, c.id, v)))
  {
    var t := s.(companies := Replace(s.companies, CompanyKey, c.id, v));
    RenamedCompaniesValid(s, c, v);
    assert forall i :: CompanyExists(s, i) ==> CompanyExists(t, i);
  }

  lemma UpdateCompanyKeepsValid(s: Store, actor: Actor, companyId: int, body: CompanyUpdate)
    requires Valid(s)
    requires UpdateCompany(s, actor, companyId, body).Ok?
    ensures Valid(UpdateCompany(s, actor, companyId, body).value.store)
  {
    var r := UpdateCompany(s, actor, companyId, body).value;
    var c := Get(s.companies, CompanyKey, companyId).value;
    RenameCompanyKeepsValid(s, c, r.out);
  }

  lemma RemoveCompanyKeepsValid(s: Store, actor: Actor, companyId: int)
    requires Valid(s)
    requires RemoveCompany(s, actor, companyId).Ok?
    ensures Valid(RemoveCompany(s, actor, companyId).value.store)
  {
    DropCompanyKeepsValid(s, companyId);
  }

  lemma DropCompanyKeepsValid(s: Store, c: int)
    requires Valid(s)
    ensures Valid(DropCompany(s, c))
  {
    DetachedDepartmentsValid(s, c);
    DetachedMembershipsValid(s, c);
    DetachedInvitesValid(s, c);
    UniqueWithout(s.companies, CompanyKey, c, CompanyKey);
    UniqueWithout(s.companies, CompanyKey, c, CompanyName);
    UniqueFilter(s.news, KeepNews(c), NewsKey);
    UniqueFilter(s.news, KeepNews(c), NewsTitlePublished);
    UniqueFilter(s.tasks, KeepTask(c), TaskKey);
    UniqueFilter(s.comments, KeepComment(s, c), CommentKey);
    UniqueFilter(s.meetings, KeepMeeting(c), MeetingKey);
    UniqueFilter(s.attendees, KeepAttendee(s, c), AttendeeKey);
    UniqueFilter(s.attendees, KeepAttendee(s, c), AttendeeMeetingUser);
    UniqueFilter(s.ratings, KeepRating(s, c), RatingKey);
    UniqueFilter(s.ratings, KeepRating(s, c), RatingTask);
    var t := DropCompany(s, c);
    forall x | x in s.companies && x.id != c
      ensures CompanyExists(t, x.id)
    {
    }
  }

  /** The department rows left by deleting company `c` keep their keys unique and their company alive. */
  lemma DetachedDepartmentsValid(s: Store, c: int)
    requires Valid(s)
    ensures var rows := DropCompany(s, c).departments;
      && UniqueBy(rows, DepartmentKey) && UniqueBy(rows, DepartmentNameInCompany)
      && forall x :: x in rows ==> 1 <= x.id < s.nextId && x.companyId != c && CompanyExists(s, x.companyId)
  {
    var kept := Filter(s.departments, KeepDepartment(c));
    assert DropCompany(s, c).departments == Map(kept, DetachParent(s, c));
    UniqueFilter(s.departments, KeepDepartment(c), DepartmentKey);
    UniqueFilter(s.departments, KeepDepartment(c), DepartmentNameInCompany);
    UniqueMap(kept, DetachParent(s, c), DepartmentKey);
    UniqueMap(kept, DetachParent(s, c), DepartmentNameInCompany);
  }

  /** The membership rows left by deleting company `c` keep their keys unique and their company alive. */
  lemma DetachedMembershipsValid(s: Store, c: int)
    requires Valid(s)
    ensures var rows := DropCompany(s, c).memberships;
      && UniqueBy(rows, MembershipKey) && UniqueBy(rows, MembershipUserCompany)
      && forall x :: x in rows ==> 1 <= x.id < s.nextId && x.companyId != c && CompanyExists(s, x.companyId)
  {
    var kept := Filter(s.memberships, KeepMembership(c));
    assert DropCompany(s, c).memberships == Map(kept, DetachMember(s, c));
    UniqueFilter(s.memberships, KeepMembership(c), MembershipKey);
    UniqueFilter(s.memberships, KeepMembership(c), MembershipUserCompany);
    UniqueMap(kept, DetachMember(s, c), MembershipKey);
    UniqueMap(kept, DetachMember(s, c), MembershipUserCompany);
  }

  /** The invite rows left by deleting company `c` keep their keys unique and their company alive. */
  lemma DetachedInvitesValid(s: Store, c: int)
    requires Valid(s)
    ensures var rows := DropCompany(s, c).invites;
      && UniqueBy(rows, InviteKey) && UniqueBy(rows, InviteCode)
      && forall x :: x in rows ==>
           1 <= x.id < s.nextId && x.companyId != c && CompanyExists(s, x.companyId) && |x.code| <= InviteCodeMaxLength
  {
    var kept := Filter(s.invites, KeepInvite(c));
    assert DropCompany(s, c).invites == Map(kept, DetachInvite(s, c));
    UniqueFilter(s.invites, KeepInvite(c), InviteKey);
    UniqueFilter(s.invites, KeepInvite(c), InviteCode);
    UniqueMap(kept, DetachInvite(s, c), InviteKey);
    UniqueMap(kept, DetachInvite(s, c), InviteCode);
  }

  lemma CreateNewsKeepsValid(s: Store, actor: Actor, companyId: int, body: NewsCreateBody, now: int)
    requires Valid(s)
    requires CreateNews(s, actor, companyId, body, now).Ok?
    ensures Valid(CreateNews(s, actor, companyId, body, now).value.store)
  {
    var r := CreateNews(s, actor, companyId, body, now).value;
    UniqueAppend(s.news, NewsKey, r.out);
    UniqueAppend(s.news, NewsTitlePublished, r.out);
  }

  /** Rewriting one news item to a (title, published_at) pair no other item holds keeps `Valid`. */
  lemma ReplaceNewsKeepsValid(s: Store, n: News, v: News)
    requires Valid(s)
    requires n in s.news && v.id == n.id
    requires !NewsClash(s, v.title, v.publishedAt, Some(n.id))
    ensures Valid(s.(news := Replace(s.news, NewsKey, n.id, v)))
  {
    var rows := Replace(s.news, NewsKey, n.id, v);
    UniqueReplace(s.news, NewsKey, n.id, v, NewsKey);
    UniqueReplaceNew(s.news, NewsKey, n.id, v, NewsTitlePublished);
    forall x | x in rows
      ensures 1 <= x.id < s.nextId
    {
      var k :| 0 <= k < |rows| && rows[k] == x;
      assert s.news[k] in s.news;
    }
  }

  lemma UpdateNewsKeepsValid(s: Store, actor: Actor, companyId: int, newsId: int, body: NewsUpdate, now: int)
    requires Valid(s)
    requires UpdateNews(s, actor, companyId, newsId, body, now).Ok?
    ensures Valid(UpdateNews(s, actor, companyId, newsId, body, now).value.store)
  {
    var r := UpdateNews(s, actor, companyId, newsId, body, now).value;
    var n := GetInCompanyOr404(s.news, NewsKey, NewsCompany, newsId, companyId).value;
    ReplaceNewsKeepsValid(s, n, r.out);
  }

  lemma RemoveNewsKeepsValid(s: Store, actor: Actor, companyId: int, newsId: int)
    requires Valid(s)
    requires RemoveNews(s, actor, companyId, newsId).Ok?
    ensures Valid(RemoveNews(s, actor, companyId, newsId).value.store)
  {
    UniqueWithout(s.news, NewsKey, newsId, NewsKey);
    UniqueWithout(s.news, NewsKey, newsId, NewsTitlePublished);
  }

  lemma CreateDepartmentKeepsValid(s: Store, actor: Actor, companyId: int, input: DepartmentCreate)
    requires Valid(s)
    requires CreateDepartment(s, actor, companyId, input).Ok?
    ensures Valid(CreateDepartment(s, actor, companyId, input).value.store)
  {
    var r := CreateDepartment(s, actor, companyId, input).value;
    UniqueAppend(s.departments, DepartmentKey, r.out);
    UniqueAppend(s.departments, DepartmentNameInCompany, r.out);
  }

  /** The department rows after rewriting one department, kept in its company, to a free name. */
  lemma ReplacedDepartmentsValid(s: Store, d: Department, v: Department)
    requires Valid(s)
    requires d in s.departments && v.id == d.id && v.companyId == d.companyId
    requires !DepartmentNameTaken(s, v.name, v.companyId, Some(d.id))
    ensures var rows := Replace(s.departments, DepartmentKey, d.id, v);
      && UniqueBy(rows, DepartmentKey) && UniqueBy(rows, DepartmentNameInCompany)
      && forall x :: x in rows ==> 1 <= x.id < s.nextId && CompanyExists(s, x.companyId)
  {
    var rows := Replace(s.departments, DepartmentKey, d.id, v);
    UniqueReplace(s.departments, DepartmentKey, d.id, v, DepartmentKey);
    UniqueReplaceNew(s.departments, DepartmentKey, d.id, v, DepartmentNameInCompany);
    forall x | x in rows
      ensures 1 <= x.id < s.nextId && CompanyExists(s, x.companyId)
    {
      var k :| 0 <= k < |rows| && rows[k] == x;
      assert s.departments[k] in s.departments;
    }
  }

  /** Rewriting one department, kept in its company, to a name free there keeps `Valid`. */
  lemma ReplaceDepartmentKeepsValid(s: Store, d: Department, v: Department)
    requires Valid(s)
    requires d in s.departments && v.id == d.id && v.companyId == d.companyId
    requires !DepartmentNameTaken(s, v.name, v.companyId, Some(d.id))
    ensures Valid(s.(departments := Replace(s.departments, DepartmentKey, d.id, v)))
  {
    ReplacedDepartmentsValid(s, d, v);
    ValidWithDepartments(s, Replace(s.departments, DepartmentKey, d.id, v));
  }

  /** Any department table with unique ids and names, fresh-bounded ids and existing companies keeps `Valid`. */
  lemma ValidWithDepartments(s: Store, rows: seq<Department>)
    requires Valid(s)
    requires UniqueBy(rows, DepartmentKey) && UniqueBy(rows, DepartmentNameInCompany)
    requires forall x :: x in rows ==> 1 <= x.id < s.nextId && CompanyExists(s, x.companyId)
    ensures Valid(s.(departments := rows))
  {
  }

  lemma UpdateDepartmentKeepsValid(s: Store, actor: Actor, companyId: int, departmentId: int, body: DepartmentUpdate)
    requires Valid(s)
    requires UpdateDepartment(s, actor, companyId, departmentId, body).Ok?
    ensures Valid(UpdateDepartment(s, actor, companyId, departmentId, body).value.store)
  {
    var r := UpdateDepartment(s, actor, companyId, departmentId, body).value;
    var d := GetInCompanyOr404(s.departments, DepartmentKey, DepartmentCompany, departmentId, companyId).value;
    ReplaceDepartmentKeepsValid(s, d, r.out);
  }

  lemma DeleteDepartmentKeepsValid(s: Store, actor: Actor, companyId: int, departmentId: int)
    requires Valid(s)
    requires DeleteDepartment(s, actor, companyId, departmentId).Ok?
    ensures Valid(DeleteDepartment(s, actor, companyId, departmentId).value.store)
  {
    DropDepartmentKeepsValid(s, departmentId);
  }

  lemma DropDepartmentKeepsValid(s: Store, d: int)
    requires Valid(s)
    ensures Valid(DropDepartment(s, d))
  {
    var t := DropDepartment(s, d);
    UnlinkedDepartmentsValid(s, d);
    UnlinkedMembershipsValid(s, d);
    UnlinkedInvitesValid(s, d);
    assert t.companies == s.companies && t.nextId == s.nextId;
    assert DepartmentsValid(t) && MembershipsValid(t) && InvitesValid(t);
    assert IdsBelow(t);
    assert CompanyRefsValid(t);
  }

  lemma UnlinkedDepartmentsValid(s: Store, d: int)
    requires Valid(s)
    ensures var rows := DropDepartment(s, d).departments;
      && UniqueBy(rows, DepartmentKey) && UniqueBy(rows, DepartmentNameInCompany)
      && forall x :: x in rows ==> 1 <= x.id < s.nextId && CompanyExists(s, x.companyId)
  {
    var kept := Without(s.departments, DepartmentKey, d);
    var rows := Map(kept, UnlinkParent(d));
    assert DropDepartment(s, d).departments == rows;
    UniqueWithout(s.departments, DepartmentKey, d, DepartmentKey);
    UniqueWithout(s.departments, DepartmentKey, d, DepartmentNameInCompany);
    UniqueMap(kept, UnlinkParent(d), DepartmentKey);
    UniqueMap(kept, UnlinkParent(d), DepartmentNameInCompany);
    forall x | x in rows
      ensures 1 <= x.id < s.nextId && CompanyExists(s, x.companyId)
    {
      var k :| 0 <= k < |rows| && rows[k] == x;
      assert kept[k] in kept;
    }
  }

  lemma UnlinkedMembershipsValid(s: Store, d: int)
    requires Valid(s)
    ensures var rows := DropDepartment(s, d).memberships;
      && UniqueBy(rows, MembershipKey) && UniqueBy(rows, MembershipUserCompany)
      && forall x :: x in rows ==> 1 <= x.id < s.nextId && CompanyExists(s, x.companyId)
  {
    var rows := Map(s.memberships, UnlinkMember(d));
    assert DropDepartment(s, d).memberships == rows;
    UniqueMap(s.memberships, UnlinkMember(d), MembershipKey);
    UniqueMap(s.memberships, UnlinkMember(d), MembershipUserCompany);
    forall x | x in rows
      ensures 1 <= x.id < s.nextId && CompanyExists(s, x.companyId)
    {
      var k :| 0 <= k < |rows| && rows[k] == x;
      assert s.memberships[k] in s.memberships;
    }
  }

  lemma UnlinkedInvitesValid(s: Store, d: int)
    requires Valid(s)
    ensures var rows := DropDepartment(s, d).invites;
      && UniqueBy(rows, InviteKey) && UniqueBy(rows, InviteCode)
      && forall x :: x in rows ==>
           1 <= x.id < s.nextId && CompanyExists(s, x.companyId) && |x.code| <= InviteCodeMaxLength
  {
    var rows := Map(s.invites, UnlinkInvite(d));
    assert DropDepartment(s, d).invites == rows;
    UniqueMap(s.invites, UnlinkInvite(d), InviteKey);
    UniqueMap(s.invites, UnlinkInvite(d), InviteCode);
    forall x | x in rows
      ensures 1 <= x.id < s.nextId && CompanyExists(s, x.companyId) && |x.code| <= InviteCodeMaxLength
    {
      var k :| 0 <= k < |rows| && rows[k] == x;
      assert s.invites[k] in s.invites;
    }
  }

  /** Appending a fresh invite of an existing company, with a short code no invite holds, keeps `Valid`. */
  lemma AddInviteKeepsValid(s: Store, t: Store, i: Invite)
    requires Valid(s)
    requires s.nextId <= i.id < t.nextId
    requires CompanyExists(s, i.companyId) && |i.code| <= InviteCodeMaxLength && !InviteCodeTaken(s, i.code)
    requires t == s.(invites := s.invites + [i], nextId := t.nextId)
    ensures Valid(t)
  {
    UniqueAppend(s.invites, InviteKey, i);
    UniqueAppend(s.invites, InviteCode, i);
  }

  lemma SendInviteKeepsValid(s: Store, actor: Actor, companyId: int, body: InviteBody, isEmail: string -> bool,
                             code: string, expiresAt: int)
    requires Valid(s)
    requires SendInvite(s, actor, companyId, body, isEmail, code, expiresAt).Ok?
    ensures Valid(SendInvite(s, actor, companyId, body, isEmail, code, expiresAt).value.store)
  {
    var r := SendInvite(s, actor, companyId, body, isEmail, code, expiresAt).value;
    var input := ValidateInvite(body, isEmail).value;
    if Truthy(input.departmentId) {
      var d :| d in s.departments && d.id == input.departmentId.value && d.companyId == companyId;
      assert CompanyExists(s, d.companyId);
    }
    assert CompanyExists(s, companyId);
    AddInviteKeepsValid(s, r.store, r.out);
  }

  lemma AcceptInviteKeepsValid(s: Store, actor: Actor, code: string, now: int)
    requires Valid(s)
    requires AcceptInvite(s, actor, code, now).Ok?
    ensures Valid(AcceptInvite(s, actor, code, now).value.store)
  {
    var r := AcceptInvite(s, actor, code, now).value;
    var i := CheckInviteExists(s, code, actor, now).value;
    var m := r.out;
    var mid := s.(memberships := s.memberships + [m], nextId := r.store.nextId);
    assert CompanyExists(s, i.companyId);
    AddMembershipKeepsValid(s, mid, m);
    DropInviteKeepsValid(mid, i.id);
    assert r.store == mid.(invites := Without(mid.invites, InviteKey, i.id));
  }

  /** The membership rows after rewriting one of them in place, keys and user-company pair kept. */
  lemma ReplacedMembershipsValid(s: Store, m: Membership, v: Membership)
    requires Valid(s)
    requires m in s.memberships
    requires v.id == m.id && v.userId == m.userId && v.companyId == m.companyId
    ensures var rows := Replace(s.memberships, MembershipKey, m.id, v);
      && UniqueBy(rows, MembershipKey) && UniqueBy(rows, MembershipUserCompany)
      && forall x :: x in rows ==> 1 <= x.id < s.nextId && CompanyExists(s, x.companyId)
  {
    forall x | x in s.memberships && x.id == m.id
      ensures x == m
    {
      UniqueMatch(s.memberships, MembershipKey, x, m);
    }
    var rows := Replace(s.memberships, MembershipKey, m.id, v);
    UniqueReplace(s.memberships, MembershipKey, m.id, v, MembershipKey);
    UniqueReplace(s.memberships, MembershipKey, m.id, v, MembershipUserCompany);
    forall x | x in rows
      ensures 1 <= x.id < s.nextId && CompanyExists(s, x.companyId)
    {
      var k :| 0 <= k < |rows| && rows[k] == x;
      assert s.memberships[k] in s.memberships;
    }
  }

  /** Rewriting one membership without moving it to another user, company or id keeps `Valid`. */
  lemma ReplaceMembershipKeepsValid(s: Store, m: Membership, v: Membership)
    requires Valid(s)
    requires m in s.memberships
    requires v.id == m.id && v.userId == m.userId && v.companyId == m.companyId
    ensures Valid(s.(memberships := Replace(s.memberships, MembershipKey, m.id, v)))
  {
    ReplacedMembershipsValid(s, m, v);
    ValidWithMemberships(s, Replace(s.memberships, MembershipKey, m.id, v));
  }

  /** Any membership table with unique ids and user-company pairs, fresh-bounded ids and existing companies keeps `Valid`. */
  lemma ValidWithMemberships(s: Store, rows: seq<Membership>)
    requires Valid(s)
    requires UniqueBy(rows, MembershipKey) && UniqueBy(rows, MembershipUserCompany)
    requires forall x :: x in rows ==> 1 <= x.id < s.nextId && CompanyExists(s, x.companyId)
    ensures Valid(s.(memberships := rows))
  {
  }

  lemma UpdateMembershipKeepsValid(s: Store, actor: Actor, companyId: int, membershipId: int, body: MembershipUpdate)
    requires Valid(s)
    requires UpdateMembership(s, actor, companyId, membershipId, body).Ok?
    ensures Valid(UpdateMembership(s, actor, companyId, membershipId, body).value.store)
  {
    var r := UpdateMembership(s, actor, companyId, membershipId, body).value;
    var m := GetInCompanyOr404(s.memberships, MembershipKey, MembershipCompany, membershipId, companyId).value;
    ReplaceMembershipKeepsValid(s, m, r.out);
  }

  lemma DeleteMembershipKeepsValid(s: Store, actor: Actor, companyId: int, membershipId: int)
    requires Valid(s)
    requires DeleteMembership(s, actor, companyId, membershipId).Ok?
    ensures Valid(DeleteMembership(s, actor, companyId, membershipId).value.store)
  {
    DropMembershipKeepsValid(s, membershipId);
  }

  lemma LeaveCompanyKeepsValid(s: Store, actor: Actor, companyId: int)
    requires Valid(s)
    requires LeaveCompany(s, actor, companyId).Ok?
    ensures Valid(LeaveCompany(s, actor, companyId).value.store)
  {
    DropMembershipKeepsValid(s, LeaveCompany(s, actor, companyId).value.out.id);
  }
}
