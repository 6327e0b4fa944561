/**
 The organization service as the source has it: methods that check, then insert, update or delete rows one
 statement at a time, and append to the audit trail. Each is proved to do what Organizations.Do says.
 */
module OrganizationService {
  import opened Options
  import opened Organizations

  /** strings.ReplaceAll of spaces by dashes. */
  function Dashed(s: string): string {
    seq(|s|, i requires 0 <= i < |s| => if s[i] == ' ' then '-' else s[i])
  }

  /** The requested slug, or one made of the name if it comes out empty. */
  function SlugOf(name: string, requested: string, lower: string -> string): string {
    if lower(Dashed(requested)) != "" then lower(Dashed(requested)) else lower(Dashed(name))
  }

  /** A slug has no spaces before lower-casing, differs from its text in nothing else, and is taken from the
      name exactly when the requested one comes out empty. */
  lemma SlugComesFrom(name: string, requested: string, lower: string -> string)
    ensures forall text: string ::
              && |Dashed(text)| == |text| && ' ' !in Dashed(text)
              && forall i :: 0 <= i < |text| ==>
                   Dashed(text)[i] == text[i] || (text[i] == ' ' && Dashed(text)[i] == '-')
    ensures SlugOf(name, requested, lower) == "" ==> lower(Dashed(requested)) == "" && lower(Dashed(name)) == ""
    ensures SlugOf(name, requested, lower) in {lower(Dashed(requested)), lower(Dashed(name))}
    ensures lower(Dashed(requested)) != "" ==> SlugOf(name, requested, lower) == lower(Dashed(requested))
  {
  }

  class OrgRepository {
    var slugs: seq<string>
    var members: map<(nat, int), Member>
    var requests: set<(nat, int)>

    constructor ()
      ensures slugs == [] && members == map[] && requests == {}
    {
      slugs, members, requests := [], map[], {};
    }

    /** FindMember: the row of a member who is not suspended at `now`. */
    method FindMember(org: nat, user: int, now: int) returns (m: Option<Member>)
      ensures m == Organizations.FindMember(State(slugs, members, requests, [], now), org, user)
    {
      if (org, user) !in members {
        return None;
      }
      var row := members[(org, user)];
      if row.suspendedUntil.Some? && row.suspendedUntil.value > now {
        return None;
      }
      return Some(row);
    }

    method AddMember(org: nat, user: int, role: string)
      modifies this`members
      ensures members == old(members)[(org, user) := Member(role, None)]
    {
      members := members[(org, user) := Member(role, None)];
    }

    method RemoveMember(org: nat, user: int) returns (found: bool)
      modifies this`members
      ensures found == ((org, user) in old(members))
      ensures members == old(members) - {(org, user)}
    {
      found := (org, user) in members;
      members := members - {(org, user)};
    }

    method SetSuspension(org: nat, user: int, until: Option<int>) returns (found: bool)
      modifies this`members
      ensures found == ((org, user) in old(members))
      ensures members == if found then old(members)[(org, user) := old(members)[(org, user)].(suspendedUntil := until)]
                         else old(members)
    {
      found := (org, user) in members;
      if found {
        members := members[(org, user) := members[(org, user)].(suspendedUntil := until)];
      }
    }

    method DeleteJoinRequest(org: nat, user: int) returns (found: bool)
      modifies this`requests
      ensures found == ((org, user) in old(requests))
      ensures requests == old(requests) - {(org, user)}
    {
      found := (org, user) in requests;
      requests := requests - {(org, user)};
    }
  }

  class Service {
    const repo: OrgRepository
    var trail: seq<Event>

    constructor (repo: OrgRepository)
      ensures this.repo == repo && trail == []
    {
      this.repo, trail := repo, [];
    }

    ghost function Contents(now: int): State
      reads this, repo
    {
      State(repo.slugs, repo.members, repo.requests, trail, now)
    }

    method RequireAdmin(org: nat, user: int, now: int) returns (ok: bool)
      ensures ok == IsAdmin(Contents(now), org, user)
    {
      var m := repo.FindMember(org, user, now);
      return m.Some? && m.value.role == ADMIN;
    }

    /** Create, from the requested slug and name; what lower-casing does to a text is a parameter. */
    method CreateOrg(user: int, name: string, requested: string, lower: string -> string, now: int)
      returns (r: Outcome)
      modifies this, repo
      ensures (Contents(now), r) == Do(old(Contents(now)), Create(user, SlugOf(name, requested, lower)))
    {
      var slug := lower(Dashed(requested));
      if slug == "" {
        slug := lower(Dashed(name));
      }
      if slug in repo.slugs {
        return ErrSlugTaken;
      }
      var org := |repo.slugs|;
      repo.slugs := repo.slugs + [slug];
      repo.AddMember(org, user, ADMIN);
      trail := trail + [OrgCreated(org, user)];
      return Ok;
    }

    method InviteMember(org: nat, target: Option<int>, role: string, caller: int, now: int) returns (r: Outcome)
      modifies this, repo
      ensures (Contents(now), r) == Do(old(Contents(now)), Invite(org, target, role, caller))
    {
      var admin := RequireAdmin(org, caller, now);
      if !admin {
        return ErrNotAdmin;
      }
      if target.None? {
        return ErrUserNotFound;
      }
      if (org, target.value) in repo.members {
        return ErrAlreadyMember;
      }
      var given := role;
      if given == "" {
        given := MEMBER;
      }
      repo.AddMember(org, target.value, given);
      trail := trail + [Invited(org, target.value, given)];
      return Ok;
    }

    method AcceptJoinRequest(org: nat, user: int, caller: int, now: int) returns (r: Outcome)
      modifies this, repo
      ensures (Contents(now), r) == Do(old(Contents(now)), Accept(org, user, caller))
    {
      var admin := RequireAdmin(org, caller, now);
      if !admin {
        return ErrNotAdmin;
      }
      if (org, user) !in repo.requests {
        return ErrRequestNotFound;
      }
      if (org, user) in repo.members {
        var stale := repo.DeleteJoinRequest(org, user);
        return ErrAlreadyMember;
      }
      repo.AddMember(org, user, MEMBER);
      var found := repo.DeleteJoinRequest(org, user);
      trail := trail + [RequestAccepted(org, user)];
      return Ok;
    }

    method RevokeJoinRequest(org: nat, user: int, caller: int, now: int) returns (r: Outcome)
      modifies this, repo
      ensures (Contents(now), r) == Do(old(Contents(now)), Revoke(org, user, caller))
    {
      var admin := RequireAdmin(org, caller, now);
      if !admin {
        return ErrNotAdmin;
      }
      assert (org, user) !in repo.requests ==> repo.requests - {(org, user)} == repo.requests;
      var found := repo.DeleteJoinRequest(org, user);
      if !found {
        return ErrRequestNotFound;
      }
      trail := trail + [RequestRevoked(org, user)];
      return Ok;
    }

    method RemoveMember(org: nat, user: int, caller: int, now: int) returns (r: Outcome)
      modifies this, repo
      ensures (Contents(now), r) == Do(old(Contents(now)), Remove(org, user, caller))
    {
      var admin := RequireAdmin(org, caller, now);
      if !admin {
        return ErrNotAdmin;
      }
      if user == caller {
        return ErrSelfAction;
      }
      var requested := repo.DeleteJoinRequest(org, user);
      assert (org, user) !in repo.members ==> repo.members - {(org, user)} == repo.members;
      var found := repo.RemoveMember(org, user);
      if !found {
        return ErrNotMember;
      }
      trail := trail + [Removed(org, user)];
      return Ok;
    }

    method SuspendMember(org: nat, user: int, days: int, caller: int, now: int) returns (r: Outcome)
      modifies this, repo
      ensures (Contents(now), r) == Do(old(Contents(now)), Suspend(org, user, days, caller))
    {
      var admin := RequireAdmin(org, caller, now);
      if !admin {
        return ErrNotAdmin;
      }
      if user == caller {
        return ErrSelfAction;
      }
      var until := now + days * DAY;
      var found := repo.SetSuspension(org, user, Some(until));
      if !found {
        return ErrNotMember;
      }
      trail := trail + [Suspended(org, user, until)];
      return Ok;
    }

    method UnsuspendMember(org: nat, user: int, caller: int, now: int) returns (r: Outcome)
      modifies this, repo
      ensures (Contents(now), r) == Do(old(Contents(now)), Unsuspend(org, user, caller))
    {
      var admin := RequireAdmin(org, caller, now);
      if !admin {
        return ErrNotAdmin;
      }
      var found := repo.SetSuspension(org, user, None);
      if !found {
        return ErrNotMember;
      }
      trail := trail + [Unsuspended(org, user)];
      return Ok;
    }
  }
}
