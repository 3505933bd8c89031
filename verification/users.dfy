/**
  The account rules of the user manager: what a password must satisfy, and
  when an account may be deleted.
 */
module Users {
  import opened Outcomes
  import opened Records
  import opened Store
  import opened Tables

  // ---------------------------------------------------------------------------
  // Passwords

  /** `needle` occurs in `hay` as a contiguous piece (Python `needle in hay`, case-sensitive). */
  predicate OccursAt(needle: string, hay: string, i: int) {
    0 <= i && i + |needle| <= |hay| && hay[i..i + |needle|] == needle
  }

  predicate Contains(hay: string, needle: string) {
    exists i :: 0 <= i <= |hay| && OccursAt(needle, hay, i)
  }

  /** Whether `needle` occurs in `hay`, by trying every start position from the left. */
  method Search(hay: string, needle: string) returns (found: bool, at: int)
    ensures found <==> Contains(hay, needle)
    ensures found ==> OccursAt(needle, hay, at)
    ensures found ==> forall k :: 0 <= k < at ==> !OccursAt(needle, hay, k)
  {
    if |needle| > |hay| {
      return false, -1;
    }
    var i := 0;
    while i <= |hay| - |needle|
      invariant 0 <= i <= |hay| - |needle| + 1
      invariant forall k :: 0 <= k < i ==> !OccursAt(needle, hay, k)
    {
      if hay[i..i + |needle|] == needle {
        assert OccursAt(needle, hay, i);
        return true, i;
      }
      i := i + 1;
    }
    return false, -1;
  }

  datatype PasswordVerdict = PasswordAccepted | TooShort | ContainsEmail

  /**
    A password must have at least `minLength` characters and must not contain
    the account's e-mail address. The length is checked first.
   */
  method ValidatePassword(password: string, email: string, minLength: nat) returns (v: PasswordVerdict)
    ensures v == TooShort <==> |password| < minLength
    ensures v == ContainsEmail <==> |password| >= minLength && Contains(password, email)
    ensures v == PasswordAccepted <==> |password| >= minLength && !Contains(password, email)
  {
    if |password| < minLength {
      return TooShort;
    }
    var found, _ := Search(password, email);
    if found {
      return ContainsEmail;
    }
    return PasswordAccepted;
  }

  /** An empty address occurs in every password, so it rules out every long-enough password. */
  lemma EmptyEmailOccursEverywhere(password: string)
    ensures Contains(password, [])
  {
    assert OccursAt([], password, 0);
  }

  /** The address itself, and any password that embeds it, is refused. */
  lemma EmbeddedEmailRefused(pre: string, email: string, post: string)
    ensures Contains(pre + email + post, email)
  {
    var p := pre + email + post;
    assert p[|pre|..|pre| + |email|] == email;
    assert OccursAt(email, p, |pre|);
  }

  // ---------------------------------------------------------------------------
  // Account deletion

  /** The first membership of `userId`, in any company. */
  function AnyMembership(s: Store, userId: int): (r: Option<Membership>)
    ensures r.Some? ==> r.value in s.memberships && r.value.userId == userId
    ensures r.None? <==> forall m :: m in s.memberships ==> m.userId != userId
  {
    Find(s.memberships, (m: Membership) => m.userId == userId)
  }

  /** A user who belongs to any company cannot be deleted (403); one who belongs to none can. */
  function CheckBeforeDeleteUser(s: Store, userId: int): (r: Check)
    ensures r.Ok? <==> forall m :: m in s.memberships ==> m.userId != userId
    ensures r.Err? ==> r.status == Forbidden
  {
    Require(AnyMembership(s, userId).None?, Forbidden)
  }

  /** Being a member of company `c` is enough to block deletion, whatever the role. */
  lemma MemberCannotBeDeleted(s: Store, userId: int, c: int)
    requires MembershipOf(s, userId, c).Some?
    ensures CheckBeforeDeleteUser(s, userId) == Err(Forbidden)
  {
  }
}
