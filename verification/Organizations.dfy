/**
 Organizations, members with timed suspension, join requests and the audit trail of their changes. An
 organization's id is its position; times are integer nanoseconds. Every call is atomic and its store
 writes succeed.
 */
module Organizations {
  import opened Options

  const ADMIN := "admin"
  const MEMBER := "member"
  const DAY := 24 * 60 * 60 * 1_000_000_000

  datatype Member = Member(role: string, suspendedUntil: Option<int>)

  datatype Event =
    | OrgCreated(org: nat, user: int)
    | Invited(org: nat, user: int, role: string)
    | RequestAccepted(org: nat, user: int)
    | RequestRevoked(org: nat, user: int)
    | Removed(org: nat, user: int)
    | Suspended(org: nat, user: int, until: int)
    | Unsuspended(org: nat, user: int)

  datatype State = State(slugs: seq<string>, members: map<(nat, int), Member>, requests: set<(nat, int)>,
                         trail: seq<Event>, now: int)

  datatype Outcome =
    | Ok
    | ErrSlugTaken
    | ErrNotAdmin
    | ErrUserNotFound
    | ErrAlreadyMember
    | ErrRequestNotFound
    | ErrSelfAction
    | ErrNotMember

  datatype Call =
    | Create(user: int, slug: string)
    | AskToJoin(org: nat, user: int)
    | Invite(org: nat, target: Option<int>, role: string, caller: int)
    | Accept(org: nat, user: int, caller: int)
    | Revoke(org: nat, user: int, caller: int)
    | Remove(org: nat, user: int, caller: int)
    | Suspend(org: nat, user: int, days: int, caller: int)
    | Unsuspend(org: nat, user: int, caller: int)
    | Wait(duration: nat)

  // ----- queries -----

  predicate IsActive(m: Member, now: int) {
    m.suspendedUntil.None? || m.suspendedUntil.value <= now
  }

  /** FindMember, the access gate: a suspended member is not found. */
  function FindMember(s: State, org: nat, user: int): Option<Member> {
    if (org, user) in s.members && IsActive(s.members[(org, user)], s.now) then Some(s.members[(org, user)]) else None
  }

  predicate IsAdmin(s: State, org: nat, user: int) {
    var m := FindMember(s, org, user);
    m.Some? && m.value.role == ADMIN
  }

  // ----- calls -----

  function Put(s: State, org: nat, user: int, m: Member, e: Event): State {
    s.(members := s.members[(org, user) := m], trail := s.trail + [e])
  }

  function Do(s: State, c: Call): (State, Outcome) {
    match c
    case Create(user, slug) =>
      if slug in s.slugs then (s, ErrSlugTaken) else
      var org := |s.slugs|;
      (Put(s, org, user, Member(ADMIN, None), OrgCreated(org, user)).(slugs := s.slugs + [slug]), Ok)
    case AskToJoin(org, user) =>
      (if org < |s.slugs| then s.(requests := s.requests + {(org, user)}) else s, Ok)
    case Invite(org, target, role, caller) =>
      if !IsAdmin(s, org, caller) then (s, ErrNotAdmin)
      else if target.None? then (s, ErrUserNotFound)
      else if (org, target.value) in s.members then (s, ErrAlreadyMember)
      else
        var given := if role == "" then MEMBER else role;
        (Put(s, org, target.value, Member(given, None), Invited(org, target.value, given)), Ok)
    case Accept(org, user, caller) =>
      if !IsAdmin(s, org, caller) then (s, ErrNotAdmin)
      else if (org, user) !in s.requests then (s, ErrRequestNotFound)
      else
        var s1 := s.(requests := s.requests - {(org, user)});
        if (org, user) in s.members then (s1, ErrAlreadyMember)
        else (Put(s1, org, user, Member(MEMBER, None), RequestAccepted(org, user)), Ok)
    case Revoke(org, user, caller) =>
      if !IsAdmin(s, org, caller) then (s, ErrNotAdmin)
      else if (org, user) !in s.requests then (s, ErrRequestNotFound)
      else (s.(requests := s.requests - {(org, user)}, trail := s.trail + [RequestRevoked(org, user)]), Ok)
    case Remove(org, user, caller) =>
      if !IsAdmin(s, org, caller) then (s, ErrNotAdmin)
      else if user == caller then (s, ErrSelfAction)
      else
        var s1 := s.(requests := s.requests - {(org, user)});
        if (org, user) !in s.members then (s1, ErrNotMember)
        else (s1.(members := s.members - {(org, user)}, trail := s.trail + [Removed(org, user)]), Ok)
    case Suspend(org, user, days, caller) =>
      if !IsAdmin(s, org, caller) then (s, ErrNotAdmin)
      else if user == caller then (s, ErrSelfAction)
      else if (org, user) !in s.members then (s, ErrNotMember)
      else
        var until := s.now + days * DAY;
        (Put(s, org, user, s.members[(org, user)].(suspendedUntil := Some(until)), Suspended(org, user, until)), Ok)
    case Unsuspend(org, user, caller) =>
      if !IsAdmin(s, org, caller) then (s, ErrNotAdmin)
      else if (org, user) !in s.members then (s, ErrNotMember)
      else (Put(s, org, user, s.members[(org, user)].(suspendedUntil := None), Unsuspended(org, user)), Ok)
    case Wait(d) => (s.(now := s.now + d), Ok)
  }

  function Run(s: State, calls: seq<Call>): State {
    if calls == [] then s else Do(Run(s, calls[..|calls| - 1]), calls[|calls| - 1]).0
  }

  function Boot(now: int): State {
    State([], map[], {}, [], now)
  }

  // ----- every organization keeps an active admin -----

  ghost predicate HasActiveAdmin(s: State, org: nat) {
    exists user :: IsAdmin(s, org, user)
  }

  ghost predicate MembersBelong(s: State) {
    forall key :: key in s.members ==> key.0 < |s.slugs|
  }

  /** An active admin survives every call: the caller, if it removes or suspends somebody, else the old one. */
  lemma CallKeepsActiveAdmin(s: State, c: Call, org: nat)
    requires HasActiveAdmin(s, org)
    requires MembersBelong(s)
    ensures HasActiveAdmin(Do(s, c).0, org)
  {
    var admin :| IsAdmin(s, org, admin);
    var s' := Do(s, c).0;
    if (c.Remove? || c.Suspend?) && c.org == org && IsAdmin(s, org, c.caller) {
      assert IsAdmin(s', org, c.caller);
    } else {
      assert IsAdmin(s', org, admin);
    }
  }

  /** In every run, from the moment Create returns, each organization has an admin who is not suspended. */
  lemma {:induction false} EveryOrgHasActiveAdmin(boot: int, calls: seq<Call>)
    ensures var s := Run(Boot(boot), calls);
            MembersBelong(s) && forall org: nat :: org < |s.slugs| ==> HasActiveAdmin(s, org)
  {
    if calls != [] {
      var n := |calls| - 1;
      EveryOrgHasActiveAdmin(boot, calls[..n]);
      var s := Run(Boot(boot), calls[..n]);
      var s' := Do(s, calls[n]).0;
      forall org: nat | org < |s'.slugs|
        ensures HasActiveAdmin(s', org)
      {
        if org < |s.slugs| {
          CallKeepsActiveAdmin(s, calls[n], org);
        } else {
          assert IsAdmin(s', org, calls[n].user);
        }
      }
    }
  }

  // ----- who may change what -----

  function CallerOf(c: Call): Option<(nat, int)> {
    match c
    case Invite(org, _, _, caller) => Some((org, caller))
    case Accept(org, _, caller) => Some((org, caller))
    case Revoke(org, _, caller) => Some((org, caller))
    case Remove(org, _, caller) => Some((org, caller))
    case Suspend(org, _, _, caller) => Some((org, caller))
    case Unsuspend(org, _, caller) => Some((org, caller))
    case _ => None
  }

  /** A member row changes only by creating its organization, or by an active admin of its organization;
      and an admin can neither remove nor suspend themselves. */
  lemma OnlyActiveAdminsChangeMembers(s: State, c: Call, org: nat, user: int)
    requires MembersBelong(s)
    ensures var s' := Do(s, c).0;
            (((org, user) in s'.members) != ((org, user) in s.members)
             || ((org, user) in s.members && s'.members[(org, user)] != s.members[(org, user)])) ==>
              || (c == Create(user, if c.Create? then c.slug else "") && org == |s.slugs|)
              || (CallerOf(c).Some? && CallerOf(c).value.0 == org && IsAdmin(s, org, CallerOf(c).value.1)
                  && (CallerOf(c).value.1 == user ==> c.Unsuspend?))
  {
  }

  /** A refused call changes no member and records nothing. It may still drop a join request: exactly when it
      accepts one of an existing member, or removes somebody who is none. */
  lemma RefusedCallsKeepMembers(s: State, c: Call)
    requires !Do(s, c).1.Ok?
    ensures var s' := Do(s, c).0;
            && s'.members == s.members && s'.slugs == s.slugs && s'.trail == s.trail
            && (s'.requests != s.requests <==>
                  || (c.Accept? && Do(s, c).1.ErrAlreadyMember?)
                  || (c.Remove? && Do(s, c).1.ErrNotMember? && (c.org, c.user) in s.requests))
  {
    if c.Accept? && Do(s, c).1.ErrAlreadyMember? {
      assert (c.org, c.user) in s.requests && (c.org, c.user) !in Do(s, c).0.requests;
    } else if c.Remove? && Do(s, c).1.ErrNotMember? {
      if (c.org, c.user) in s.requests {
        assert (c.org, c.user) !in Do(s, c).0.requests;
      } else {
        assert s.requests - {(c.org, c.user)} == s.requests;
      }
    }
  }

  /** The call removes, suspends or unsuspends this very member. */
  predicate Targets(c: Call, org: nat, user: int) {
    match c
    case Remove(o, u, _) => o == org && u == user
    case Suspend(o, u, _, _) => o == org && u == user
    case Unsuspend(o, u, _) => o == org && u == user
    case _ => false
  }

  lemma UntargetedRowStaysOnce(s: State, c: Call, org: nat, user: int)
    requires MembersBelong(s) && (org, user) in s.members && !Targets(c, org, user)
    ensures var s' := Do(s, c).0;
            MembersBelong(s') && (org, user) in s'.members && s'.members[(org, user)] == s.members[(org, user)]
  {
  }

  lemma {:induction false} UntargetedRowStays(s: State, calls: seq<Call>, org: nat, user: int)
    requires MembersBelong(s) && (org, user) in s.members
    requires forall i :: 0 <= i < |calls| ==> !Targets(calls[i], org, user)
    ensures var s' := Run(s, calls);
            MembersBelong(s') && (org, user) in s'.members && s'.members[(org, user)] == s.members[(org, user)]
  {
    if calls != [] {
      var n := |calls| - 1;
      UntargetedRowStays(s, calls[..n], org, user);
      UntargetedRowStaysOnce(Run(s, calls[..n]), calls[n], org, user);
    }
  }

  /** A suspension shuts its member out exactly until it ends by itself: through any calls of anybody, the
      member included, other than those that remove, suspend or unsuspend that member. */
  lemma SuspensionEndsByItself(s: State, org: nat, user: int, days: int, caller: int, calls: seq<Call>)
    requires MembersBelong(s)
    requires Do(s, Suspend(org, user, days, caller)).1.Ok?
    requires forall i :: 0 <= i < |calls| ==> !Targets(calls[i], org, user)
    ensures var s' := Run(Do(s, Suspend(org, user, days, caller)).0, calls);
            && (FindMember(s', org, user).None? <==> s'.now < s.now + days * DAY)
            && (FindMember(s', org, user).Some? ==> FindMember(s', org, user).value.role == s.members[(org, user)].role)
  {
    UntargetedRowStays(Do(s, Suspend(org, user, days, caller)).0, calls, org, user);
  }

  // ----- the trail rebuilds the member table -----

  function After(members: map<(nat, int), Member>, e: Event): map<(nat, int), Member> {
    match e
    case OrgCreated(org, user) => members[(org, user) := Member(ADMIN, None)]
    case Invited(org, user, role) => members[(org, user) := Member(role, None)]
    case RequestAccepted(org, user) => members[(org, user) := Member(MEMBER, None)]
    case RequestRevoked(_, _) => members
    case Removed(org, user) => members - {(org, user)}
    case Suspended(org, user, until) =>
      if (org, user) !in members then members
      else members[(org, user) := members[(org, user)].(suspendedUntil := Some(until))]
    case Unsuspended(org, user) =>
      if (org, user) in members then members[(org, user) := members[(org, user)].(suspendedUntil := None)] else members
  }

  /** The member table that the trail alone implies. */
  function Replay(trail: seq<Event>): map<(nat, int), Member> {
    if trail == [] then map[] else After(Replay(trail[..|trail| - 1]), trail[|trail| - 1])
  }

  lemma ReplayAppend(trail: seq<Event>, e: Event)
    ensures Replay(trail + [e]) == After(Replay(trail), e)
  {
    assert (trail + [e])[..|trail|] == trail;
  }

  /** A call records at most one event, and that event accounts for what it did to the members. */
  lemma CallRecordsItsChange(s: State, c: Call)
    ensures var s' := Do(s, c).0;
            || (s'.members == s.members && s'.trail == s.trail)
            || exists e :: s'.trail == s.trail + [e] && s'.members == After(s.members, e)
  {
    var s' := Do(s, c).0;
    if s'.trail != s.trail {
      var e := s'.trail[|s'.trail| - 1];
      assert s'.trail == s.trail + [e] && s'.members == After(s.members, e);
    }
  }

  /** Replaying the trail gives the member rows, roles and suspensions included, after every run. */
  lemma {:induction false} TrailRebuildsMembers(boot: int, calls: seq<Call>)
    ensures var s := Run(Boot(boot), calls); Replay(s.trail) == s.members
  {
    if calls != [] {
      var n := |calls| - 1;
      TrailRebuildsMembers(boot, calls[..n]);
      var s := Run(Boot(boot), calls[..n]);
      CallRecordsItsChange(s, calls[n]);
      var s' := Do(s, calls[n]).0;
      if s'.trail != s.trail {
        var e :| s'.trail == s.trail + [e] && s'.members == After(s.members, e);
        ReplayAppend(s.trail, e);
      }
    }
  }
}
