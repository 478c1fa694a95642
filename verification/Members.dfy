/** Membership of one organisation: invitations, role changes and removals, the last-owner guard, the
    role ceiling and the seat limit. */
module Members {
  import opened Text

  function RoleRank(role: string): nat {
    if role == "owner" then 3
    else if role == "admin" then 2
    else if role == "member" then 1
    else 0
  }

  predicate ValidRole(role: string) {
    role == "owner" || role == "admin" || role == "member" || role == "viewer"
  }

  /** The acting user may grant the role. */
  predicate WithinCeiling(acting: string, requested: string) {
    RoleRank(requested) <= RoleRank(acting)
  }

  /** The seat limit (none when the plan is unlimited), and how the database reads a user id: Postgres
      compares UUID values, so several spellings denote one user; SQLite compares the text. */
  datatype Env = Env(limit: Option<nat>, canon: string -> string)

  /** A membership, with the role its granter acted with; none for a founding member. */
  datatype Member = Member(role: string, granter: Option<string>)

  /** A pending invitation, with the role its sender acted with. */
  datatype Invitation = Invitation(email: string, role: string, granter: string)

  /** Members by stored id. Pending invitations only: accepted and expired ones are gone. `deleted`
      are deleted accounts. */
  datatype World = World(members: map<string, Member>, deleted: set<string>, invitations: map<nat, Invitation>, nextId: nat)

  /** A row of the member listing. */
  datatype Listed = Listed(user: string, role: string)

  /** Who calls: the user of the session, whether the membership query succeeds, and whether the user
      administers the platform. */
  datatype Actor = Actor(user: string, readOk: bool, platformAdmin: bool)

  /** The caller has no membership that could be read, and acts by default. */
  predicate ByDefault(s: World, actor: Actor) {
    !actor.readOk || actor.user !in s.members
  }

  /** The role a call acts with. */
  function ActingRole(s: World, actor: Actor): string {
    if !ByDefault(s, actor) then s.members[actor.user].role
    else if actor.platformAdmin then "owner"
    else "admin"
  }

  /** Ids in the `user` fields are spelled as the caller spelled them. */
  datatype Step =
    /** `memberCount` and `pendingCount` are what the two counting queries returned. */
    | Invite(actor: Actor, email: string, emailOk: bool, role: string, memberCount: nat, pendingCount: nat)
    | Accept(id: nat, user: string, userOk: bool, marked: bool)
    | ChangeRole(actor: Actor, user: string, role: string, listing: seq<Listed>)
    | Remove(user: string, listing: seq<Listed>)
    | Expire(id: nat)

  // ---- The last-owner guard ----

  function Owners(listing: seq<Listed>): nat {
    if listing == [] then 0
    else Owners(listing[..|listing| - 1]) + if listing[|listing| - 1].role == "owner" then 1 else 0
  }

  predicate ListsOwner(listing: seq<Listed>, user: string) {
    exists i :: 0 <= i < |listing| && listing[i] == Listed(user, "owner")
  }

  predicate Blocked(listing: seq<Listed>, user: string) {
    Owners(listing) <= 1 && ListsOwner(listing, user)
  }

  /** The guard: true when removing or demoting the user must be refused. */
  method GuardLastOwner(listing: seq<Listed>, user: string) returns (blocked: bool)
    ensures blocked <==> Blocked(listing, user)
  {
    var owners, target := 0, "";
    for i := 0 to |listing|
      invariant owners == Owners(listing[..i])
      invariant target == "owner" <==> exists j :: 0 <= j < i && listing[j] == Listed(user, "owner")
    {
      assert listing[..i + 1][..i] == listing[..i];
      if listing[i].role == "owner" {
        owners := owners + 1;
        if listing[i].user == user {
          target := listing[i].role;
        }
      }
    }
    assert listing[..|listing|] == listing;
    return owners <= 1 && target == "owner";
  }

  /** A live owner: an owner whose account is not deleted. */
  predicate LiveOwner(s: World, user: string) {
    user in s.members && user !in s.deleted && s.members[user].role == "owner"
  }

  predicate DistinctUsers(listing: seq<Listed>) {
    forall i, j :: 0 <= i < j < |listing| ==> listing[i].user != listing[j].user
  }

  /** The listing the store returns when the query succeeds: the members with a live account, once each. */
  ghost predicate Complete(s: World, listing: seq<Listed>) {
    && DistinctUsers(listing)
    && (forall i :: 0 <= i < |listing| ==>
          listing[i].user in s.members && listing[i].user !in s.deleted && listing[i].role == s.members[listing[i].user].role)
    && (forall u :: u in s.members && u !in s.deleted ==> exists i :: 0 <= i < |listing| && listing[i].user == u)
  }

  lemma {:induction false} NoOwners(listing: seq<Listed>)
    requires forall i :: 0 <= i < |listing| ==> listing[i].role != "owner"
    ensures Owners(listing) == 0
  {
    if listing != [] {
      NoOwners(listing[..|listing| - 1]);
    }
  }

  /** The listed owners number at most one exactly when no two of them differ. */
  lemma {:induction false} AtMostOneOwner(listing: seq<Listed>, user: string)
    requires DistinctUsers(listing) && ListsOwner(listing, user)
    ensures Owners(listing) >= 1
    ensures Owners(listing) == 1 <==> forall i :: 0 <= i < |listing| && listing[i].role == "owner" ==> listing[i].user == user
  {
    var n := |listing| - 1;
    var front, last := listing[..n], listing[n];
    if last == Listed(user, "owner") {
      if forall i :: 0 <= i < n ==> front[i].role != "owner" {
        NoOwners(front);
      } else {
        var i :| 0 <= i < n && front[i].role == "owner";
        assert listing[i].user != user;
        OwnerCounts(front, i);
      }
    } else {
      var i :| 0 <= i < |listing| && listing[i] == Listed(user, "owner");
      assert front[i] == Listed(user, "owner");
      AtMostOneOwner(front, user);
      assert last.user != user;
      assert forall j :: 0 <= j < n ==> listing[j] == front[j];
    }
  }

  lemma {:induction false} OwnerCounts(listing: seq<Listed>, i: nat)
    requires i < |listing| && listing[i].role == "owner"
    ensures Owners(listing) >= 1
  {
    if i < |listing| - 1 {
      OwnerCounts(listing[..|listing| - 1], i);
    }
  }

  /** Members are kept under the stored spelling of their id. */
  ghost predicate WellKeyed(env: Env, s: World) {
    forall u :: u in s.members ==> env.canon(u) == u
  }

  ghost predicate OnlyLiveOwner(s: World, user: string) {
    LiveOwner(s, user) && forall u :: LiveOwner(s, u) ==> u == user
  }

  /** On a complete listing the guard refuses exactly the only live owner, by the stored spelling. */
  lemma GuardIsExact(env: Env, s: World, listing: seq<Listed>, user: string)
    requires Complete(s, listing) && WellKeyed(env, s)
    ensures Blocked(listing, user) <==> user == env.canon(user) && OnlyLiveOwner(s, env.canon(user))
  {
    if LiveOwner(s, user) {
      var i :| 0 <= i < |listing| && listing[i].user == user;
      assert listing[i] == Listed(user, "owner");
      AtMostOneOwner(listing, user);
      if Blocked(listing, user) {
        forall u | LiveOwner(s, u) ensures u == user {
          var j :| 0 <= j < |listing| && listing[j].user == u;
        }
      } else {
        var j :| 0 <= j < |listing| && listing[j].role == "owner" && listing[j].user != user;
        assert LiveOwner(s, listing[j].user);
      }
    }
  }

  // ---- The operations ----

  function DefaultRole(role: string): string {
    if role == "" then "member" else role
  }

  /** The seat limit; none when the plan is unlimited. */
  predicate SeatFree(limit: Option<nat>, count: nat) {
    limit.None? || count < limit.value
  }

  predicate Invites(env: Env, s: World, a: Step)
    requires a.Invite?
  {
    && a.emailOk && ValidRole(DefaultRole(a.role)) && WithinCeiling(ActingRole(s, a.actor), DefaultRole(a.role))
    && SeatFree(env.limit, a.memberCount + a.pendingCount)
  }

  predicate Accepts(s: World, a: Step)
    requires a.Accept?
  {
    a.id in s.invitations && a.userOk
  }

  /** The guard compares spellings; it is not consulted for a change to owner. */
  predicate Changes(s: World, a: Step)
    requires a.ChangeRole?
  {
    && ValidRole(a.role) && WithinCeiling(ActingRole(s, a.actor), a.role)
    && (a.role != "owner" ==> !Blocked(a.listing, a.user))
  }

  /** The store finds the row of a user whatever the spelling. */
  function Next(env: Env, s: World, a: Step): World {
    match a
    case Invite(actor, email, _, role, _, _) =>
      if Invites(env, s, a)
      then s.(invitations := s.invitations[s.nextId := Invitation(email, DefaultRole(role), ActingRole(s, actor))], nextId := s.nextId + 1)
      else s
    case Accept(id, user, _, marked) =>
      if Accepts(s, a)
      then s.(members := s.members[env.canon(user) := Member(s.invitations[id].role, Some(s.invitations[id].granter))],
              invitations := if marked then s.invitations - {id} else s.invitations)
      else s
    case ChangeRole(actor, user, role, _) =>
      if Changes(s, a) then s.(members := s.members[env.canon(user) := Member(role, Some(ActingRole(s, actor)))]) else s
    case Remove(user, listing) => if Blocked(listing, user) then s else s.(members := s.members - {env.canon(user)})
    case Expire(id) => s.(invitations := s.invitations - {id})
  }

  function Run(env: Env, s: World, steps: seq<Step>): World
    decreases |steps|
  {
    if steps == [] then s else Run(env, Next(env, s, steps[0]), steps[1..])
  }

  // ---- A live owner stays ----

  ghost predicate HasLiveOwner(s: World) {
    exists u :: LiveOwner(s, u)
  }

  /** The step takes the owner role, or the membership, from its user unless that is refused. */
  predicate Takes(s: World, a: Step) {
    match a
    case Accept(id, _, _, _) => Accepts(s, a) && s.invitations[id].role != "owner"
    case ChangeRole(_, _, role, _) => Changes(s, a) && role != "owner"
    case Remove(user, listing) => !Blocked(listing, user)
    case _ => false
  }

  lemma OthersStayOwners(env: Env, s: World, a: Step, u: string)
    requires a.Accept? || a.ChangeRole? || a.Remove? ==> u != env.canon(a.user)
    ensures LiveOwner(Next(env, s, a), u) <==> LiveOwner(s, u)
  {
  }

  /** Exactly when a step loses the last live owner, whatever the listing was: its user, however
      spelled, is the only one, and the step takes the role. An acceptance always does when the
      invitation is for a lesser role; a change or removal does when the guard, reading that listing
      and comparing that spelling, does not see the owner. */
  lemma OwnerIsLostExactly(env: Env, s: World, a: Step)
    requires HasLiveOwner(s)
    ensures !HasLiveOwner(Next(env, s, a)) <==> Takes(s, a) && OnlyLiveOwner(s, env.canon(a.user))
  {
    var s' := Next(env, s, a);
    if a.Invite? || a.Expire? {
      var w :| LiveOwner(s, w);
      assert LiveOwner(s', w);
    } else {
      var k := env.canon(a.user);
      forall u | u != k ensures LiveOwner(s', u) <==> LiveOwner(s, u) {
        OthersStayOwners(env, s, a, u);
      }
      if LiveOwner(s, k) {
        assert LiveOwner(s', k) <==> !Takes(s, a);
      } else {
        var w :| LiveOwner(s, w);
        assert LiveOwner(s', w);
      }
    }
  }

  /** With a complete listing a change or removal still loses the last live owner, exactly when it
      spells the id otherwise than it is stored. */
  lemma SpellingLosesOwnerExactly(env: Env, s: World, a: Step)
    requires HasLiveOwner(s) && WellKeyed(env, s) && (a.ChangeRole? || a.Remove?) && Complete(s, a.listing)
    ensures !HasLiveOwner(Next(env, s, a)) <==>
      && a.user != env.canon(a.user) && OnlyLiveOwner(s, env.canon(a.user))
      && (a.ChangeRole? ==> a.role != "owner" && ValidRole(a.role) && WithinCeiling(ActingRole(s, a.actor), a.role))
  {
    OwnerIsLostExactly(env, s, a);
    GuardIsExact(env, s, a.listing, a.user);
  }

  /** Such an input, for any spelling other than the stored one (say, in upper case). */
  lemma OtherSpellingLosesOwner(env: Env, s: World, listing: seq<Listed>, spelling: string)
    requires WellKeyed(env, s) && Complete(s, listing)
    requires spelling != env.canon(spelling) && OnlyLiveOwner(s, env.canon(spelling))
    ensures !HasLiveOwner(Next(env, s, Remove(spelling, listing)))
    ensures forall actor :: !HasLiveOwner(Next(env, s, ChangeRole(actor, spelling, "viewer", listing)))
  {
    SpellingLosesOwnerExactly(env, s, Remove(spelling, listing));
    forall actor ensures !HasLiveOwner(Next(env, s, ChangeRole(actor, spelling, "viewer", listing))) {
      SpellingLosesOwnerExactly(env, s, ChangeRole(actor, spelling, "viewer", listing));
    }
  }

  /** Acceptances are not guarded: one loses the last live owner exactly when the invitation is pending,
      the account is found or created and is the only live owner's, and the role is a lesser one. */
  lemma AcceptanceLosesOwnerExactly(env: Env, s: World, id: nat, user: string, userOk: bool, marked: bool)
    requires HasLiveOwner(s)
    ensures !HasLiveOwner(Next(env, s, Accept(id, user, userOk, marked))) <==>
      id in s.invitations && userOk && s.invitations[id].role != "owner" && OnlyLiveOwner(s, env.canon(user))
  {
    OwnerIsLostExactly(env, s, Accept(id, user, userOk, marked));
  }

  /** A failed listing loses it too: its error is ignored, and the listing is empty or cut short. */
  lemma FailedListingLosesOwner(env: Env, s: World, user: string)
    requires OnlyLiveOwner(s, env.canon(user))
    ensures !HasLiveOwner(Next(env, s, Remove(user, [])))
  {
    OwnerIsLostExactly(env, s, Remove(user, []));
  }

  /** Calls must not overlap: when two removals both read the listing first, an organisation whose
      only live owners they remove is left without one. */
  lemma OverlappingRemovalsLoseOwner(env: Env, s: World, listing: seq<Listed>, a: string, b: string)
    requires WellKeyed(env, s) && Complete(s, listing) && a != b && forall u :: LiveOwner(s, u) <==> u == a || u == b
    ensures !HasLiveOwner(Next(env, Next(env, s, Remove(a, listing)), Remove(b, listing)))
  {
    assert LiveOwner(s, a) && LiveOwner(s, b);
    GuardIsExact(env, s, listing, a);
    GuardIsExact(env, s, listing, b);
    var s1 := Next(env, s, Remove(a, listing));
    OthersStayOwners(env, s, Remove(a, listing), b);
    forall u ensures LiveOwner(s1, u) ==> u == b {
      assert u != a && u != b ==> !LiveOwner(s, u);
    }
    OwnerIsLostExactly(env, s1, Remove(b, listing));
  }

  /** A change or removal with a complete listing and the stored spelling; no acceptance. */
  ghost predicate GuardedStep(env: Env, s: World, a: Step) {
    && !a.Accept?
    && (a.ChangeRole? || a.Remove? ==> Complete(s, a.listing) && env.canon(a.user) == a.user)
  }

  ghost predicate GuardedRun(env: Env, s: World, steps: seq<Step>)
    decreases |steps|
  {
    steps == [] || (GuardedStep(env, s, steps[0]) && GuardedRun(env, Next(env, s, steps[0]), steps[1..]))
  }

  lemma StepKeepsOwner(env: Env, s: World, a: Step)
    requires HasLiveOwner(s) && WellKeyed(env, s) && GuardedStep(env, s, a)
    ensures HasLiveOwner(Next(env, s, a)) && WellKeyed(env, Next(env, s, a))
  {
    OwnerIsLostExactly(env, s, a);
    if a.ChangeRole? || a.Remove? {
      SpellingLosesOwnerExactly(env, s, a);
    }
  }

  /** Over every sequential run of role changes and removals (and invitations) that spell ids as they
      are stored, an organisation with a live owner keeps one. */
  lemma {:induction false} OwnerIsKept(env: Env, s: World, steps: seq<Step>)
    requires HasLiveOwner(s) && WellKeyed(env, s) && GuardedRun(env, s, steps)
    ensures HasLiveOwner(Run(env, s, steps))
    decreases |steps|
  {
    if steps != [] {
      StepKeepsOwner(env, s, steps[0]);
      OwnerIsKept(env, Next(env, s, steps[0]), steps[1..]);
    }
  }

  // ---- No escalation ----

  /** No member and no pending invitation has a rank above r. */
  ghost predicate RankAtMost(s: World, r: nat) {
    && (forall u :: u in s.members ==> RoleRank(s.members[u].role) <= r)
    && (forall id :: id in s.invitations ==> RoleRank(s.invitations[id].role) <= r)
  }

  /** A role above r is granted by a caller who acts by default. */
  predicate Escalates(env: Env, s: World, a: Step, r: nat) {
    match a
    case Invite(actor, _, _, role, _, _) => ByDefault(s, actor) && Invites(env, s, a) && RoleRank(DefaultRole(role)) > r
    case ChangeRole(actor, _, role, _) => ByDefault(s, actor) && Changes(s, a) && RoleRank(role) > r
    case _ => false
  }

  /** A step raises the highest rank exactly when a caller without a readable membership, who acts as
      admin (or as owner for a platform administrator), grants a role above it. */
  lemma RankRisesExactly(env: Env, s: World, a: Step, r: nat)
    requires RankAtMost(s, r)
    ensures !RankAtMost(Next(env, s, a), r) <==> Escalates(env, s, a, r)
  {
    var s' := Next(env, s, a);
    if a.Invite? && Invites(env, s, a) {
      assert s'.invitations[s.nextId].role == DefaultRole(a.role);
    } else if a.ChangeRole? && Changes(s, a) {
      assert s'.members[env.canon(a.user)].role == a.role;
    }
  }

  ghost predicate EscalatesIn(env: Env, s: World, steps: seq<Step>, r: nat)
    decreases |steps|
  {
    steps != [] && (Escalates(env, s, steps[0], r) || EscalatesIn(env, Next(env, s, steps[0]), steps[1..], r))
  }

  /** No run raises the highest rank among members and invitations, unless some step in it does so by
      default; in particular no run of calls by members does. */
  lemma {:induction false} NoEscalation(env: Env, s: World, steps: seq<Step>, r: nat)
    requires RankAtMost(s, r) && !EscalatesIn(env, s, steps, r)
    ensures RankAtMost(Run(env, s, steps), r)
    decreases |steps|
  {
    if steps != [] {
      RankRisesExactly(env, s, steps[0], r);
      NoEscalation(env, Next(env, s, steps[0]), steps[1..], r);
    }
  }

  ghost predicate ByMembers(env: Env, s: World, steps: seq<Step>)
    decreases |steps|
  {
    steps == [] || (
      && (steps[0].Invite? || steps[0].ChangeRole? ==> !ByDefault(s, steps[0].actor))
      && ByMembers(env, Next(env, s, steps[0]), steps[1..]))
  }

  lemma {:induction false} MembersNeverEscalate(env: Env, s: World, steps: seq<Step>, r: nat)
    requires ByMembers(env, s, steps)
    ensures !EscalatesIn(env, s, steps, r)
    decreases |steps|
  {
    if steps != [] {
      MembersNeverEscalate(env, Next(env, s, steps[0]), steps[1..], r);
    }
  }

  /** In every run of calls by members, no rank appears above the highest there was. */
  lemma MembersKeepHighestRank(env: Env, s: World, steps: seq<Step>, r: nat)
    requires RankAtMost(s, r) && ByMembers(env, s, steps)
    ensures RankAtMost(Run(env, s, steps), r)
  {
    MembersNeverEscalate(env, s, steps, r);
    NoEscalation(env, s, steps, r);
  }

  // ---- Who may grant what, by name ----

  /** Owners grant every role, admins all but owner, members only member and viewer, viewers (and
      anybody else) only viewer. */
  predicate MayGrant(acting: string, role: string) {
    || role == "viewer"
    || acting == "owner"
    || (acting == "admin" && role != "owner")
    || (acting == "member" && role == "member")
  }

  lemma CeilingByName(acting: string, role: string)
    requires role == "owner" || role == "admin" || role == "member" || role == "viewer"
    ensures WithinCeiling(acting, role) <==> MayGrant(acting, role)
  {
  }

  /** The caller has the owner's role in the organisation, or, without a readable membership, administers
      the platform. */
  predicate ActsAsOwner(s: World, actor: Actor) {
    if actor.readOk && actor.user in s.members then s.members[actor.user].role == "owner" else actor.platformAdmin
  }

  /** The step grants the owner's role: an owner's invitation or promotion, or the acceptance of an
      invitation to become owner. */
  predicate GrantsOwner(s: World, a: Step) {
    match a
    case Invite(actor, _, _, role, _, _) => role == "owner" && ActsAsOwner(s, actor)
    case ChangeRole(actor, _, role, _) => role == "owner" && ActsAsOwner(s, actor)
    case Accept(id, _, _, _) => id in s.invitations && s.invitations[id].role == "owner"
    case _ => false
  }

  /** Whoever becomes owner, or is newly invited to, was granted it by one who acts as owner. */
  lemma OwnersAreGranted(env: Env, s: World, a: Step)
    ensures var s' := Next(env, s, a);
      && (forall u :: u in s'.members && s'.members[u].role == "owner" ==>
            (u in s.members && s.members[u].role == "owner") || GrantsOwner(s, a))
      && (forall id :: id in s'.invitations && s'.invitations[id].role == "owner" ==>
            (id in s.invitations && s.invitations[id].role == "owner") || (a.Invite? && GrantsOwner(s, a)))
  {
    if a.Invite? && Invites(env, s, a) {
      CeilingByName(ActingRole(s, a.actor), DefaultRole(a.role));
    } else if a.ChangeRole? && Changes(s, a) {
      CeilingByName(ActingRole(s, a.actor), a.role);
    }
  }

  /** Conversely one who acts as owner may make owners: a change to owner is never refused. */
  lemma OwnersMayPromote(env: Env, s: World, actor: Actor, user: string, listing: seq<Listed>)
    requires ActsAsOwner(s, actor)
    ensures env.canon(user) in Next(env, s, ChangeRole(actor, user, "owner", listing)).members
    ensures Next(env, s, ChangeRole(actor, user, "owner", listing)).members[env.canon(user)].role == "owner"
  {
  }

  /** Without a readable membership one may grant every role, or all but owner. */
  lemma DefaultCallersActAsAdmin(s: World, actor: Actor, role: string)
    requires !(actor.readOk && actor.user in s.members)
    requires role == "owner" || role == "admin" || role == "member" || role == "viewer"
    ensures WithinCeiling(ActingRole(s, actor), role) <==> role != "owner" || actor.platformAdmin
  {
  }

  /** No member and no pending invitation has one of the roles. */
  ghost predicate NoneOf(s: World, roles: set<string>) {
    && (forall u :: u in s.members ==> s.members[u].role !in roles)
    && (forall id :: id in s.invitations ==> s.invitations[id].role !in roles)
  }

  /** The roles from one up. */
  predicate IsTop(roles: set<string>) {
    roles == {"owner"} || roles == {"owner", "admin"} || roles == {"owner", "admin", "member"}
  }

  lemma StepKeepsNoneOf(env: Env, s: World, a: Step, roles: set<string>)
    requires IsTop(roles) && NoneOf(s, roles) && (a.Invite? || a.ChangeRole? ==> !ByDefault(s, a.actor))
    ensures NoneOf(Next(env, s, a), roles)
  {
    if a.Invite? && Invites(env, s, a) {
      CeilingByName(ActingRole(s, a.actor), DefaultRole(a.role));
    } else if a.ChangeRole? && Changes(s, a) {
      CeilingByName(ActingRole(s, a.actor), a.role);
    }
  }

  /** In every run of calls by members: an organisation without an owner, and without an invitation to
      become one, never gets one, whatever its admins do; without owners and admins it gets neither;
      and one of viewers alone keeps to viewers. */
  lemma {:induction false} OnlyOwnersMakeOwners(env: Env, s: World, steps: seq<Step>, roles: set<string>)
    requires IsTop(roles) && NoneOf(s, roles) && ByMembers(env, s, steps)
    ensures NoneOf(Run(env, s, steps), roles)
    decreases |steps|
  {
    if steps != [] {
      StepKeepsNoneOf(env, s, steps[0], roles);
      OnlyOwnersMakeOwners(env, Next(env, s, steps[0]), steps[1..], roles);
    }
  }

  /** Memberships and invitations carry only roles that the role of their granter may grant. */
  ghost predicate GrantsOk(s: World) {
    && (forall u :: u in s.members && s.members[u].granter.Some? ==> MayGrant(s.members[u].granter.value, s.members[u].role))
    && (forall id :: id in s.invitations ==> MayGrant(s.invitations[id].granter, s.invitations[id].role))
  }

  lemma StepKeepsGrants(env: Env, s: World, a: Step)
    requires GrantsOk(s)
    ensures GrantsOk(Next(env, s, a))
  {
    if a.Invite? && Invites(env, s, a) {
      CeilingByName(ActingRole(s, a.actor), DefaultRole(a.role));
    } else if a.ChangeRole? && Changes(s, a) {
      CeilingByName(ActingRole(s, a.actor), a.role);
    }
  }

  lemma {:induction false} GrantsStayWithinCeiling(env: Env, s: World, steps: seq<Step>)
    requires GrantsOk(s)
    ensures GrantsOk(Run(env, s, steps))
    decreases |steps|
  {
    if steps != [] {
      StepKeepsGrants(env, s, steps[0]);
      GrantsStayWithinCeiling(env, Next(env, s, steps[0]), steps[1..]);
    }
  }

  // ---- Seats ----

  function Used(s: World): nat {
    |s.members| + |s.invitations|
  }

  ghost predicate IdsBelow(s: World) {
    forall id :: id in s.invitations ==> id < s.nextId
  }

  /** What a step adds to the used seats. */
  function Growth(env: Env, s: World, a: Step): int {
    match a
    case Invite(_, _, _, _, _, _) => if Invites(env, s, a) then 1 else 0
    case Accept(_, user, _, marked) =>
      if Accepts(s, a) then (if env.canon(user) in s.members then 0 else 1) - (if marked then 1 else 0) else 0
    case ChangeRole(_, user, _, _) => if Changes(s, a) && env.canon(user) !in s.members then 1 else 0
    case Remove(user, listing) => if !Blocked(listing, user) && env.canon(user) in s.members then -1 else 0
    case Expire(id) => if id in s.invitations then -1 else 0
  }

  lemma SizeAfterPut<K, V>(m: map<K, V>, k: K, v: V)
    ensures |m[k := v]| == |m| + if k in m then 0 else 1
  {
    assert m[k := v].Keys == m.Keys + {k};
    assert |m[k := v]| == |m[k := v].Keys| && |m| == |m.Keys|;
  }

  lemma SizeAfterDrop<K, V>(m: map<K, V>, k: K)
    ensures |m - {k}| == |m| - if k in m then 1 else 0
  {
    assert (m - {k}).Keys == m.Keys - {k};
    assert |m - {k}| == |(m - {k}).Keys| && |m| == |m.Keys|;
  }

  lemma AcceptGrowth(env: Env, s: World, id: nat, user: string, marked: bool)
    requires id in s.invitations
    ensures var a := Accept(id, user, true, marked);
      Used(Next(env, s, a)) == Used(s) + Growth(env, s, a)
  {
    SizeAfterPut(s.members, env.canon(user), Member(s.invitations[id].role, Some(s.invitations[id].granter)));
    SizeAfterDrop(s.invitations, id);
  }

  lemma InviteGrowth(env: Env, s: World, a: Step)
    requires IdsBelow(s) && a.Invite?
    ensures Used(Next(env, s, a)) == Used(s) + Growth(env, s, a)
  {
    assert s.nextId !in s.invitations;
    SizeAfterPut(s.invitations, s.nextId, Invitation(a.email, DefaultRole(a.role), ActingRole(s, a.actor)));
  }

  lemma GrowthIsExact(env: Env, s: World, a: Step)
    requires IdsBelow(s)
    ensures Used(Next(env, s, a)) == Used(s) + Growth(env, s, a)
  {
    match a
    case Invite(_, _, _, _, _, _) => InviteGrowth(env, s, a);
    case Accept(id, user, userOk, marked) =>
      if id in s.invitations && userOk {
        AcceptGrowth(env, s, id, user, marked);
      }
    case ChangeRole(_, _, _, _) => ChangeGrowth(env, s, a);
    case Remove(user, listing) => RemoveGrowth(env, s, user, listing);
    case Expire(id) => ExpireGrowth(env, s, id);
  }

  lemma ChangeGrowth(env: Env, s: World, a: Step)
    requires a.ChangeRole?
    ensures Used(Next(env, s, a)) == Used(s) + Growth(env, s, a)
  {
    SizeAfterPut(s.members, env.canon(a.user), Member(a.role, Some(ActingRole(s, a.actor))));
  }

  lemma RemoveGrowth(env: Env, s: World, user: string, listing: seq<Listed>)
    ensures var a := Remove(user, listing);
      Used(Next(env, s, a)) == Used(s) + Growth(env, s, a)
  {
    if !Blocked(listing, user) {
      SizeAfterDrop(s.members, env.canon(user));
      assert Next(env, s, Remove(user, listing)).members == s.members - {env.canon(user)};
    }
  }

  lemma ExpireGrowth(env: Env, s: World, id: nat)
    ensures Used(Next(env, s, Expire(id))) == Used(s) + Growth(env, s, Expire(id))
  {
    SizeAfterDrop(s.invitations, id);
    assert Next(env, s, Expire(id)).invitations == s.invitations - {id};
  }

  lemma IdsStayBelow(env: Env, s: World, a: Step)
    requires IdsBelow(s)
    ensures IdsBelow(Next(env, s, a))
  {
  }

  /** The ways past the seat check: counts that are too low, because another invitation landed after they
      were taken or because a counting query failed (its error is ignored); an acceptance that could not be marked, and a role change of a non-member. */
  predicate Leaks(env: Env, s: World, a: Step) {
    match a
    case Invite(_, _, _, _, memberCount, pendingCount) => Invites(env, s, a) && memberCount + pendingCount < Used(s)
    case Accept(_, user, _, marked) => Accepts(s, a) && !marked && env.canon(user) !in s.members
    case ChangeRole(_, user, _, _) => Changes(s, a) && env.canon(user) !in s.members
    case _ => false
  }

  /** A step exceeds the seat limit exactly when every seat was in use and the step takes one of the
      ways past the check. Counting queries never count too much. */
  lemma LimitIsExceededExactly(env: Env, max: nat, s: World, a: Step)
    requires env.limit == Some(max) && IdsBelow(s) && Used(s) <= max && (a.Invite? ==> a.memberCount + a.pendingCount <= Used(s))
    ensures Used(Next(env, s, a)) > max <==> Used(s) == max && Leaks(env, s, a)
  {
    GrowthIsExact(env, s, a);
  }

  /** Overlapping invitations: two that both counted before either landed take one seat too many. */
  lemma OverlappingInvitationsExceedLimit(env: Env, max: nat, s: World, a: Step, b: Step)
    requires env.limit == Some(max) && IdsBelow(s) && Used(s) + 1 == max
    requires a.Invite? && b.Invite? && SeatStep(env, s, a) && SeatStep(env, s, b) && Invites(env, s, a) && Invites(env, s, b)
    ensures Used(Next(env, Next(env, s, a), b)) == max + 1
  {
    var s' := Next(env, s, a);
    GrowthIsExact(env, s, a);
    IdsStayBelow(env, s, a);
    assert ActingRole(s', b.actor) == ActingRole(s, b.actor);
    GrowthIsExact(env, s', b);
  }

  /** Counting queries that succeed, acceptances that are marked, role changes of members. */
  predicate SeatStep(env: Env, s: World, a: Step) {
    && (a.Invite? ==> a.memberCount == |s.members| && a.pendingCount == |s.invitations|)
    && (a.Accept? ==> a.marked)
    && (a.ChangeRole? ==> env.canon(a.user) in s.members)
  }

  ghost predicate SeatRun(env: Env, s: World, steps: seq<Step>)
    decreases |steps|
  {
    steps == [] || (SeatStep(env, s, steps[0]) && SeatRun(env, Next(env, s, steps[0]), steps[1..]))
  }

  /** Over every run of invitations, acceptances, removals, expiries and role changes of members,
      members and pending invitations together stay within the seat limit. */
  lemma {:induction false} SeatsStayWithinLimit(env: Env, max: nat, s: World, steps: seq<Step>)
    requires env.limit == Some(max) && IdsBelow(s) && Used(s) <= max && SeatRun(env, s, steps)
    ensures Used(Run(env, s, steps)) <= max
    decreases |steps|
  {
    if steps != [] {
      LimitIsExceededExactly(env, max, s, steps[0]);
      IdsStayBelow(env, s, steps[0]);
      SeatsStayWithinLimit(env, max, Next(env, s, steps[0]), steps[1..]);
    }
  }

  // ---- The service ----

  class MemberService {
    var members: map<string, Member>
    var deleted: set<string>
    var invitations: map<nat, Invitation>
    var nextId: nat

    function Snapshot(): World
      reads this
    {
      World(members, deleted, invitations, nextId)
    }

    constructor (members: map<string, Member>, deleted: set<string>)
      ensures Snapshot() == World(members, deleted, map[], 0)
    {
      this.members, this.deleted, invitations, nextId := members, deleted, map[], 0;
    }

    /** The members with a live account, in some order. */
    method ListMembers() returns (listing: seq<Listed>)
      ensures Complete(Snapshot(), listing)
    {
      listing := [];
      var rest := members.Keys - deleted;
      while rest != {}
        invariant rest <= members.Keys - deleted && DistinctUsers(listing)
        invariant forall i :: 0 <= i < |listing| ==>
          && listing[i].user in members.Keys - deleted - rest
          && listing[i].role == members[listing[i].user].role
        invariant forall u :: u in members.Keys - deleted - rest ==> exists i :: 0 <= i < |listing| && listing[i].user == u
        decreases |rest|
      {
        var u :| u in rest;
        ghost var before, left := listing, rest;
        listing := listing + [Listed(u, members[u].role)];
        rest := rest - {u};
        forall w | w in members.Keys - deleted - rest ensures exists i :: 0 <= i < |listing| && listing[i].user == w {
          if w == u {
            assert listing[|before|].user == w;
          } else {
            assert w in members.Keys - deleted - left;
            var i :| 0 <= i < |before| && before[i].user == w;
            assert listing[i].user == w;
          }
        }
      }
      assert forall u :: u in members && u !in deleted ==> u in members.Keys - deleted - rest;
    }

    /** Sends an invitation if the role and the seat limit permit it. A counting query that fails counts
        nothing. */
    method InviteMember(env: Env, actor: Actor, email: string, emailOk: bool, role: string,
                        countOk: bool, listOk: bool) returns (id: Option<nat>, ghost step: Step)
      modifies this
      ensures step.Invite? && Snapshot() == Next(env, old(Snapshot()), step)
      ensures countOk && listOk ==> SeatStep(env, old(Snapshot()), step)
      ensures id.Some? <==>
        && emailOk && (role == "" || role == "owner" || role == "admin" || role == "member" || role == "viewer")
        && MayGrant(old(ActingRole(Snapshot(), actor)), if role == "" then "member" else role)
        && (env.limit.Some? ==> (if countOk then |old(members)| else 0) + (if listOk then |old(invitations)| else 0) < env.limit.value)
      ensures id.Some? ==>
        && invitations == old(invitations)[old(nextId) := Invitation(email, if role == "" then "member" else role, old(ActingRole(Snapshot(), actor)))]
        && id.value == old(nextId) && nextId == old(nextId) + 1 && members == old(members)
      ensures id.None? ==> Snapshot() == old(Snapshot())
    {
      var memberCount := if countOk then |members| else 0;
      var pendingCount := if listOk then |invitations| else 0;
      step := Invite(actor, email, emailOk, role, memberCount, pendingCount);
      if !emailOk {
        return None, step;
      }
      var r := if role == "" then "member" else role;
      var acting := ActingRole(Snapshot(), actor);
      if ValidRole(r) {
        CeilingByName(acting, r);
      }
      if !ValidRole(r) || RoleRank(r) > RoleRank(acting) {
        return None, step;
      }
      if env.limit.Some? && memberCount + pendingCount >= env.limit.value {
        return None, step;
      }
      id := Some(nextId);
      invitations := invitations[nextId := Invitation(email, r, acting)];
      nextId := nextId + 1;
    }

    /** Consumes an invitation: `user` is the account of its address, existing or just created
        (`userOk`: it could be found or created). */
    method AcceptInvite(env: Env, id: nat, user: string, userOk: bool, marked: bool) returns (ok: bool)
      modifies this
      ensures Snapshot() == Next(env, old(Snapshot()), Accept(id, user, userOk, marked))
      ensures ok <==> id in old(invitations) && userOk
      ensures ok ==> env.canon(user) in members && members[env.canon(user)].role == old(invitations)[id].role
    {
      if id !in invitations || !userOk {
        return false;
      }
      members := members[env.canon(user) := Member(invitations[id].role, Some(invitations[id].granter))];
      if marked {
        invitations := invitations - {id};
      }
      return true;
    }

    /** Changes a role. The last live owner keeps theirs when the listing succeeds and the id is spelled
        as stored; a failed listing comes back empty. */
    method ChangeMemberRole(env: Env, actor: Actor, user: string, role: string, listOk: bool)
      returns (ok: bool, ghost step: Step)
      modifies this
      ensures step.ChangeRole? && step.user == user && Snapshot() == Next(env, old(Snapshot()), step)
      ensures listOk ==> Complete(old(Snapshot()), step.listing)
      ensures listOk && env.canon(user) == user && old(HasLiveOwner(Snapshot()) && WellKeyed(env, Snapshot())) ==> HasLiveOwner(Snapshot())
      ensures ok <==>
        && (role == "owner" || role == "admin" || role == "member" || role == "viewer")
        && MayGrant(old(ActingRole(Snapshot(), actor)), role)
        && (role != "owner" ==> !Blocked(step.listing, user))
      ensures ok ==> members == old(members)[env.canon(user) := Member(role, Some(old(ActingRole(Snapshot(), actor))))]
      ensures invitations == old(invitations)
      ensures !ok ==> Snapshot() == old(Snapshot())
    {
      var listing := [];
      if listOk {
        listing := ListMembers();
      }
      step := ChangeRole(actor, user, role, listing);
      if listOk && env.canon(user) == user && old(HasLiveOwner(Snapshot()) && WellKeyed(env, Snapshot())) {
        StepKeepsOwner(env, Snapshot(), step);
      }
      var acting := ActingRole(Snapshot(), actor);
      if ValidRole(role) {
        CeilingByName(acting, role);
      }
      if !ValidRole(role) || RoleRank(role) > RoleRank(acting) {
        return false, step;
      }
      if role != "owner" {
        var blocked := GuardLastOwner(listing, user);
        if blocked {
          return false, step;
        }
      }
      members := members[env.canon(user) := Member(role, Some(acting))];
      ok := true;
    }

    /** Removes a member, with the same reservations about the last live owner. */
    method RemoveMember(env: Env, user: string, listOk: bool) returns (ok: bool, ghost step: Step)
      modifies this
      ensures step.Remove? && step.user == user && Snapshot() == Next(env, old(Snapshot()), step)
      ensures listOk ==> Complete(old(Snapshot()), step.listing)
      ensures listOk && env.canon(user) == user && old(HasLiveOwner(Snapshot()) && WellKeyed(env, Snapshot())) ==> HasLiveOwner(Snapshot())
      ensures !listOk ==> ok
      ensures listOk && old(WellKeyed(env, Snapshot())) ==>
        (ok <==> !(user == env.canon(user) && old(OnlyLiveOwner(Snapshot(), env.canon(user)))))
      ensures ok ==> members == old(members) - {env.canon(user)}
      ensures !ok ==> Snapshot() == old(Snapshot())
    {
      var listing := [];
      if listOk {
        listing := ListMembers();
      }
      step := Remove(user, listing);
      if listOk && WellKeyed(env, Snapshot()) {
        GuardIsExact(env, Snapshot(), listing, user);
        if env.canon(user) == user && HasLiveOwner(Snapshot()) {
          StepKeepsOwner(env, Snapshot(), step);
        }
      }
      var blocked := GuardLastOwner(listing, user);
      if blocked {
        return false, step;
      }
      members := members - {env.canon(user)};
      ok := true;
    }
  }
}
