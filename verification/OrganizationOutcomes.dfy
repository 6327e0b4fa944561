/**
 What each call of the organization service answers and changes, in terms of its arguments and the stored
 columns alone; and over whole runs, how anybody gets to be an admin.
 */
module OrganizationOutcomes {
  import opened Options
  import opened Organizations

  /** Stored as an admin, and not suspended now. */
  predicate ActiveAdmin(s: State, org: nat, user: int) {
    && (org, user) in s.members
    && s.members[(org, user)].role == "admin"
    && (s.members[(org, user)].suspendedUntil == None || s.members[(org, user)].suspendedUntil.value <= s.now)
  }

  /** A new organization has its creator as an admin, unless its slug is taken. */
  lemma CreateOutcome(s: State, user: int, slug: string)
    ensures var (s', r) := Do(s, Create(user, slug));
            if slug in s.slugs then r == ErrSlugTaken && s' == s
            else
              && r == Ok
              && s' == s.(slugs := s.slugs + [slug],
                          members := s.members[(|s.slugs|, user) := Member("admin", None)],
                          trail := s.trail + [OrgCreated(|s.slugs|, user)])
  {
  }

  lemma AskOutcome(s: State, org: nat, user: int)
    ensures var (s', r) := Do(s, AskToJoin(org, user));
            r == Ok && s' == s.(requests := if org < |s.slugs| then s.requests + {(org, user)} else s.requests)
  {
  }

  /** An invitation makes a new member with the role asked for, a plain member if none was, not suspended.
      Somebody stored as a member, suspended or not, is not invited again. */
  lemma InviteOutcome(s: State, org: nat, target: Option<int>, role: string, caller: int)
    ensures var (s', r) := Do(s, Invite(org, target, role, caller));
            if !ActiveAdmin(s, org, caller) then r == ErrNotAdmin && s' == s
            else if target == None then r == ErrUserNotFound && s' == s
            else if (org, target.value) in s.members then r == ErrAlreadyMember && s' == s
            else
              var given := if role == "" then "member" else role;
              && r == Ok
              && s' == s.(members := s.members[(org, target.value) := Member(given, None)],
                          trail := s.trail + [Invited(org, target.value, given)])
  {
  }

  /** Accepting makes a plain member and uses the request up. */
  lemma AcceptOutcome(s: State, org: nat, user: int, caller: int)
    ensures var (s', r) := Do(s, Accept(org, user, caller));
            if !ActiveAdmin(s, org, caller) then r == ErrNotAdmin && s' == s
            else if (org, user) !in s.requests then r == ErrRequestNotFound && s' == s
            else if (org, user) in s.members then
              r == ErrAlreadyMember && s' == s.(requests := s.requests - {(org, user)})
            else
              && r == Ok
              && s' == s.(members := s.members[(org, user) := Member("member", None)],
                          requests := s.requests - {(org, user)},
                          trail := s.trail + [RequestAccepted(org, user)])
  {
  }

  /** Revoking uses the request up and makes nobody a member. */
  lemma RevokeOutcome(s: State, org: nat, user: int, caller: int)
    ensures var (s', r) := Do(s, Revoke(org, user, caller));
            if !ActiveAdmin(s, org, caller) then r == ErrNotAdmin && s' == s
            else if (org, user) !in s.requests then r == ErrRequestNotFound && s' == s
            else
              && r == Ok
              && s' == s.(requests := s.requests - {(org, user)}, trail := s.trail + [RequestRevoked(org, user)])
  {
  }

  /** Removing takes the row and any join request away. */
  lemma RemoveOutcome(s: State, org: nat, user: int, caller: int)
    ensures var (s', r) := Do(s, Remove(org, user, caller));
            if !ActiveAdmin(s, org, caller) then r == ErrNotAdmin && s' == s
            else if user == caller then r == ErrSelfAction && s' == s
            else
              && r == (if (org, user) in s.members then Ok else ErrNotMember)
              && s'.slugs == s.slugs && s'.now == s.now
              && s'.requests == s.requests - {(org, user)}
              && s'.members == s.members - {(org, user)}
              && s'.trail == if r == Ok then s.trail + [Removed(org, user)] else s.trail
  {
    if (org, user) !in s.members {
      assert s.members - {(org, user)} == s.members;
    }
  }

  /** Suspending and unsuspending change when the suspension ends, and nothing else. */
  lemma SuspendOutcome(s: State, org: nat, user: int, days: int, caller: int)
    ensures var (s', r) := Do(s, Suspend(org, user, days, caller));
            if !ActiveAdmin(s, org, caller) then r == ErrNotAdmin && s' == s
            else if user == caller then r == ErrSelfAction && s' == s
            else if (org, user) !in s.members then r == ErrNotMember && s' == s
            else
              var until := s.now + days * 24 * 3600 * 1_000_000_000;
              && r == Ok
              && s' == s.(members := s.members[(org, user) := Member(s.members[(org, user)].role, Some(until))],
                          trail := s.trail + [Suspended(org, user, until)])
  {
  }

  lemma UnsuspendOutcome(s: State, org: nat, user: int, caller: int)
    ensures var (s', r) := Do(s, Unsuspend(org, user, caller));
            if !ActiveAdmin(s, org, caller) then r == ErrNotAdmin && s' == s
            else if (org, user) !in s.members then r == ErrNotMember && s' == s
            else
              && r == Ok
              && s' == s.(members := s.members[(org, user) := Member(s.members[(org, user)].role, None)],
                          trail := s.trail + [Unsuspended(org, user)])
  {
  }

  // ----- over whole runs -----

  /** The call names this user an admin of this organization: by founding it, or by an invitation that says so
      of somebody who is an admin already. */
  predicate MakesAdmin(s: State, c: Call, org: nat, user: int) {
    match c
    case Create(u, _) => u == user && org == |s.slugs|
    case Invite(o, target, role, caller) =>
      o == org && target == Some(user) && role == "admin" && ActiveAdmin(s, org, caller)
    case _ => false
  }

  ghost predicate MadeAdmin(boot: int, calls: seq<Call>, org: nat, user: int) {
    calls != []
    && (var n := |calls| - 1;
        MadeAdmin(boot, calls[..n], org, user) || MakesAdmin(Run(Boot(boot), calls[..n]), calls[n], org, user))
  }

  lemma CallMakesAdmin(s: State, c: Call, org: nat, user: int)
    requires var s' := Do(s, c).0; (org, user) in s'.members && s'.members[(org, user)].role == "admin"
    ensures MakesAdmin(s, c, org, user) || ((org, user) in s.members && s.members[(org, user)].role == "admin")
  {
  }

  /** In every run, whoever is stored as an admin founded the organization or was invited as an admin by one. */
  lemma {:induction false} AdminsAreMade(boot: int, calls: seq<Call>, org: nat, user: int)
    requires var s := Run(Boot(boot), calls); (org, user) in s.members && s.members[(org, user)].role == "admin"
    ensures MadeAdmin(boot, calls, org, user)
  {
    if calls != [] {
      var n := |calls| - 1;
      var s := Run(Boot(boot), calls[..n]);
      CallMakesAdmin(s, calls[n], org, user);
      if !MakesAdmin(s, calls[n], org, user) {
        AdminsAreMade(boot, calls[..n], org, user);
      }
    }
  }

  ghost predicate Distinct(slugs: seq<string>) {
    forall i, j :: 0 <= i < j < |slugs| ==> slugs[i] != slugs[j]
  }

  lemma CallKeepsSlugsDistinct(s: State, c: Call)
    requires Distinct(s.slugs)
    ensures Distinct(Do(s, c).0.slugs)
  {
    var slugs := Do(s, c).0.slugs;
    assert slugs == s.slugs || (c.Create? && c.slug !in s.slugs && slugs == s.slugs + [c.slug]);
  }

  /** In every run, no two organizations have the same slug. */
  lemma {:induction false} SlugsAreDistinct(boot: int, calls: seq<Call>)
    ensures Distinct(Run(Boot(boot), calls).slugs)
  {
    if calls != [] {
      var n := |calls| - 1;
      SlugsAreDistinct(boot, calls[..n]);
      CallKeepsSlugsDistinct(Run(Boot(boot), calls[..n]), calls[n]);
    }
  }
}
