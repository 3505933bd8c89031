/**
  The per-request access guards that run before a handler's body: each lets
  the acting user through unchanged or answers 403.

  `AdminOrSuperuser` is the guard the source defines. `MemberOrSuperuser` and
  `ManagerAdminOrSuperuser` are referenced by the handlers but not part of
  this model's source; they are stated here as the role rules they are
  documented to enforce.
 */
module Dependencies {
  import opened Outcomes
  import opened Records
  import opened Store

  /** The user holds an ADMIN membership in exactly this company. */
  predicate IsCompanyAdmin(s: Store, userId: int, companyId: int) {
    exists m :: m in s.memberships && m.userId == userId && m.companyId == companyId && m.role == Admin
  }

  /** Superusers pass; other users pass only as an ADMIN of `companyId`. */
  function AdminOrSuperuser(s: Store, actor: Actor, companyId: int): (r: Result<Actor>)
    ensures r.Ok? <==> actor.isSuperuser || IsCompanyAdmin(s, actor.id, companyId)
    ensures r.Ok? ==> r.value == actor
    ensures r.Err? ==> r.status == Forbidden
  {
    if actor.isSuperuser then Ok(actor)
    else if IsCompanyAdmin(s, actor.id, companyId) then Ok(actor)
    else Err(Forbidden)
  }

  /** Assumed rule: superusers and members of the company pass. */
  function MemberOrSuperuser(s: Store, actor: Actor, companyId: int): (r: Result<Actor>)
    ensures r.Ok? <==> actor.isSuperuser || MembershipOf(s, actor.id, companyId).Some?
    ensures r.Ok? ==> r.value == actor
    ensures r.Err? ==> r.status == Forbidden
  {
    if actor.isSuperuser || MembershipOf(s, actor.id, companyId).Some? then Ok(actor) else Err(Forbidden)
  }

  /** Assumed rule: superusers and MANAGER or ADMIN members of the company pass. */
  function ManagerAdminOrSuperuser(s: Store, actor: Actor, companyId: int): (r: Result<Actor>)
    ensures r.Ok? <==>
      || actor.isSuperuser
      || (MembershipOf(s, actor.id, companyId).Some? && MembershipOf(s, actor.id, companyId).value.role in {Manager, Admin})
    ensures r.Ok? ==> r.value == actor
    ensures r.Err? ==> r.status == Forbidden
  {
    var m := MembershipOf(s, actor.id, companyId);
    if actor.isSuperuser || (m.Some? && m.value.role in {Manager, Admin}) then Ok(actor) else Err(Forbidden)
  }

  // ---------------------------------------------------------------------------
  // Properties of the admin guard

  /** A superuser's pass does not depend on the store at all. */
  lemma SuperuserNeedsNoMembership(s1: Store, s2: Store, actor: Actor, c1: int, c2: int)
    requires actor.isSuperuser
    ensures AdminOrSuperuser(s1, actor, c1) == AdminOrSuperuser(s2, actor, c2) == Ok(actor)
  {
  }

  /**
    The guard agrees with the membership directory: a non-superuser passes iff
    their one membership in this company has role ADMIN. USER and MANAGER
    members and non-members are refused.
   */
  lemma AdminGuardAgreesWithDirectory(s: Store, actor: Actor, c: int)
    requires MembershipsValid(s)
    requires !actor.isSuperuser
    ensures AdminOrSuperuser(s, actor, c).Ok? <==>
      MembershipOf(s, actor.id, c).Some? && MembershipOf(s, actor.id, c).value.role == Admin
  {
    var found := MembershipOf(s, actor.id, c);
    if IsCompanyAdmin(s, actor.id, c) {
      var m :| m in s.memberships && m.userId == actor.id && m.companyId == c && m.role == Admin;
      Tables.UniqueMatch(s.memberships, MembershipUserCompany, m, found.value);
    }
  }

  /** Being ADMIN of another company passes the guard there and grants nothing in this one. */
  lemma AdminElsewhereGrantsNothing(s: Store, actor: Actor, c: int, other: int)
    requires !actor.isSuperuser
    requires other != c && IsCompanyAdmin(s, actor.id, other)
    requires forall m :: m in s.memberships && m.userId == actor.id && m.companyId == c ==> m.role != Admin
    ensures AdminOrSuperuser(s, actor, other).Ok?
    ensures AdminOrSuperuser(s, actor, c) == Err(Forbidden)
  {
  }
}
