/** One organization's members and invitations, and who its Owner is. */
module Organization {
  import opened Collections

  datatype Role = Owner | Admin | Manager | Member | Viewer

  type UserId = int

  /** An address in lower case. */
  datatype Email = Email(text: string)

  datatype Status = Pending | Accepted | Rejected | Cancelled

  datatype Invitation = Invitation(email: Email, role: Role, status: Status, expiresAt: int)

  /** The members' roles and the invitations, an invitation's id and token being its index. */
  datatype State = State(members: map<UserId, Role>, invitations: seq<Invitation>)

  const WEEK := 7 * 24 * 60 * 60

  /** ROLE_HIERARCHY */
  function RankOf(role: Role): int {
    match role
    case Owner => 5
    case Admin => 4
    case Manager => 3
    case Member => 2
    case Viewer => 1
  }

  /** Someone who is no member ranks below every member. */
  function Rank(s: State, user: UserId): int {
    if user in s.members then RankOf(s.members[user]) else 0
  }

  predicate IsOwner(s: State, user: UserId) {
    user in s.members && s.members[user] == Owner
  }

  /** get_invitation_by_token_async, and the check of whom it was issued to. */
  predicate Open(s: State, token: int, email: Email, now: int) {
    && 0 <= token < |s.invitations|
    && s.invitations[token].status == Pending && s.invitations[token].expiresAt > now
    && s.invitations[token].email == email
  }

  function WithStatus(s: State, id: int, status: Status): State
    requires 0 <= id < |s.invitations|
  {
    s.(invitations := s.invitations[id := s.invitations[id].(status := status)])
  }

  // ---------------------------------------------------------------- steps

  /** A role is None when its text is not in the hierarchy; `existing` is the account with the address. */
  datatype Step =
    | Transfer(actor: UserId, target: UserId)
    | ChangeRole(actor: UserId, target: UserId, role: Option<Role>)
    | Remove(actor: UserId, target: UserId)
    | Invite(actor: UserId, email: Email, role: Option<Role>, existing: Option<UserId>, now: int)
    | Accept(actor: UserId, email: Email, token: int, now: int)
    | Reject(actor: UserId, email: Email, token: int, now: int)
    | Cancel(actor: UserId, token: int)

  /** Who may do what, by rank alone: that an Owner cannot be demoted or removed, and nobody made or
      invited as Owner, is because no rank is above theirs. */
  predicate Allowed(s: State, step: Step) {
    match step
    case Transfer(actor, target) => IsOwner(s, actor) && target in s.members && target != actor
    case ChangeRole(actor, target, role) =>
      && Rank(s, actor) >= RankOf(Manager) && target in s.members && Rank(s, target) < Rank(s, actor)
      && role.Some? && RankOf(role.value) < Rank(s, actor)
    case Remove(actor, target) =>
      && target in s.members
      && if target == actor then !IsOwner(s, actor)
         else Rank(s, actor) >= RankOf(Manager) && Rank(s, target) < Rank(s, actor)
    case Invite(actor, _, role, existing, _) =>
      && Rank(s, actor) >= RankOf(Manager) && role.Some? && RankOf(role.value) < Rank(s, actor)
      && (existing.Some? ==> existing.value !in s.members)
    case Accept(_, email, token, now) => Open(s, token, email, now)
    case Reject(_, email, token, now) => Open(s, token, email, now)
    case Cancel(actor, token) =>
      Rank(s, actor) >= RankOf(Manager) && 0 <= token < |s.invitations| && s.invitations[token].status == Pending
  }

  /** A step that is not allowed changes nothing. */
  function Apply(s: State, step: Step): State {
    if !Allowed(s, step) then s
    else
      match step
      case Transfer(actor, target) => s.(members := s.members[actor := Admin][target := Owner])
      case ChangeRole(_, target, role) => s.(members := s.members[target := role.value])
      case Remove(_, target) => s.(members := s.members - {target})
      case Invite(_, email, role, _, now) =>
        s.(invitations := s.invitations + [Invitation(email, role.value, Pending, now + WEEK)])
      case Accept(actor, _, token, _) =>
        WithStatus(s, token, Accepted).(members := s.members[actor := s.invitations[token].role])
      case Reject(_, _, token, _) => WithStatus(s, token, Rejected)
      case Cancel(_, token) => WithStatus(s, token, Cancelled)
  }

  function Created(creator: UserId): State { State(map[creator := Owner], []) }

  // ---------------------------------------------------------------- who may act on whom

  /** One role is above another. */
  predicate Above(a: Role, b: Role) {
    match a
    case Owner => b != Owner
    case Admin => b == Manager || b == Member || b == Viewer
    case Manager => b == Member || b == Viewer
    case Member => b == Viewer
    case Viewer => false
  }

  predicate Manages(s: State, user: UserId) {
    user in s.members && s.members[user] in {Owner, Admin, Manager}
  }

  /** The ranks, role by role: only Owner, Admin and Manager manage, and they change, remove and invite only roles
      below their own; an invitation is open for a week. */
  lemma RolesDecide(s: State, step: Step)
    ensures forall a, b :: RankOf(a) > RankOf(b) <==> Above(a, b)
    ensures step.ChangeRole? ==>
      (Allowed(s, step) <==>
        && Manages(s, step.actor) && step.target in s.members && step.role.Some?
        && Above(s.members[step.actor], s.members[step.target]) && Above(s.members[step.actor], step.role.value))
    ensures step.Remove? && step.actor != step.target ==>
      (Allowed(s, step) <==>
        Manages(s, step.actor) && step.target in s.members && Above(s.members[step.actor], s.members[step.target]))
    ensures step.Invite? ==>
      (Allowed(s, step) <==>
        && Manages(s, step.actor) && step.role.Some? && Above(s.members[step.actor], step.role.value)
        && (step.existing.Some? ==> step.existing.value !in s.members))
    ensures step.Invite? && Allowed(s, step) ==>
      Apply(s, step).invitations ==
        s.invitations + [Invitation(step.email, step.role.value, Pending, step.now + 604800)]
    ensures step.Cancel? ==>
      (Allowed(s, step) <==>
        Manages(s, step.actor) && 0 <= step.token < |s.invitations| && s.invitations[step.token].status == Pending)
  {
  }

  // ---------------------------------------------------------------- the Owner

  ghost predicate HasOwner(s: State) { exists user :: IsOwner(s, user) }

  ghost predicate Inv(s: State) {
    && (forall u, v :: IsOwner(s, u) && IsOwner(s, v) ==> u == v)
    && (forall i :: 0 <= i < |s.invitations| ==> s.invitations[i].role != Owner)
  }

  /** The current Owner accepts an invitation: their role becomes the invitation's. */
  predicate OwnerAccepts(s: State, step: Step) {
    step.Accept? && Allowed(s, step) && IsOwner(s, step.actor)
  }

  /** Who is Owner after a step. */
  lemma OwnerAfter(s: State, step: Step, user: UserId)
    requires Inv(s)
    ensures IsOwner(Apply(s, step), user) <==>
      if step.Transfer? && Allowed(s, step) then user == step.target
      else IsOwner(s, user) && !OwnerAccepts(s, step)
  {
    if step.Accept? && Allowed(s, step) {
      assert s.invitations[step.token].role != Owner;
      assert IsOwner(s, user) && IsOwner(s, step.actor) ==> user == step.actor;
    }
    if step.Transfer? && Allowed(s, step) {
      assert IsOwner(s, user) && IsOwner(s, step.actor) ==> user == step.actor;
    }
  }

  /** Every step keeps the Owner, or hands the role to one other member, or loses it in exactly one way. */
  lemma StepFacts(s: State, step: Step)
    requires Inv(s)
    ensures Inv(Apply(s, step))
    ensures HasOwner(Apply(s, step)) <==> HasOwner(s) && !OwnerAccepts(s, step)
    ensures forall u :: IsOwner(Apply(s, step), u) && !IsOwner(s, u) ==>
      step.Transfer? && IsOwner(s, step.actor) && u == step.target && u in s.members
  {
    var t := Apply(s, step);
    forall u: UserId ensures IsOwner(t, u) <==>
      if step.Transfer? && Allowed(s, step) then u == step.target else IsOwner(s, u) && !OwnerAccepts(s, step)
    {
      OwnerAfter(s, step, u);
    }
    forall i | 0 <= i < |t.invitations| ensures t.invitations[i].role != Owner {
      assert i < |s.invitations| ==> s.invitations[i].role != Owner;
    }
    if HasOwner(s) {
      var owner: UserId :| IsOwner(s, owner);
      assert IsOwner(t, if step.Transfer? && Allowed(s, step) then step.target else owner) || OwnerAccepts(s, step);
    }
  }

  // ---------------------------------------------------------------- runs

  function Run(s: State, steps: seq<Step>): State {
    if steps == [] then s else Apply(Run(s, steps[..|steps| - 1]), steps[|steps| - 1])
  }

  /** In every run there is at most one Owner, and no invitation to be one. */
  lemma {:induction false} AtMostOneOwner(creator: UserId, steps: seq<Step>)
    ensures Inv(Run(Created(creator), steps))
  {
    if steps != [] {
      AtMostOneOwner(creator, steps[..|steps| - 1]);
      StepFacts(Run(Created(creator), steps[..|steps| - 1]), steps[|steps| - 1]);
    }
  }

  /** Some step of the run is the Owner of the moment accepting an invitation. */
  ghost predicate OwnerAcceptsIn(s: State, steps: seq<Step>) {
    exists i :: AcceptsAt(s, steps, i)
  }

  ghost predicate AcceptsAt(s: State, steps: seq<Step>, i: int) {
    0 <= i < |steps| && OwnerAccepts(Run(s, steps[..i]), steps[i])
  }

  /** An organization still has an Owner if and only if no Owner has accepted an invitation; once it has
      none it never has one again. */
  lemma {:induction false} OwnedExactly(creator: UserId, steps: seq<Step>)
    ensures HasOwner(Run(Created(creator), steps)) <==> !OwnerAcceptsIn(Created(creator), steps)
  {
    var s := Created(creator);
    if steps == [] {
      assert IsOwner(s, creator);
    } else {
      var before := steps[..|steps| - 1];
      OwnedExactly(creator, before);
      AtMostOneOwner(creator, before);
      StepFacts(Run(s, before), steps[|steps| - 1]);
      AcceptsByLastStep(s, steps);
    }
  }

  lemma AcceptsByLastStep(s: State, steps: seq<Step>)
    requires steps != []
    ensures
      var before := steps[..|steps| - 1];
      OwnerAcceptsIn(s, steps) <==> OwnerAcceptsIn(s, before) || OwnerAccepts(Run(s, before), steps[|steps| - 1])
  {
    var before := steps[..|steps| - 1];
    forall i: int
      ensures AcceptsAt(s, steps, i) <==>
        AcceptsAt(s, before, i) || (i == |before| && OwnerAccepts(Run(s, before), steps[i]))
    {
      if 0 <= i < |before| { assert before[..i] == steps[..i]; }
    }
  }

  /** The Owner does lose the role that way: someone invited twice accepts once, is handed the
      organization, and accepts the other invitation. */
  lemma OwnerCanBeLost(first: UserId, second: UserId, email: Email)
    requires first != second
    ensures
      var invite := Invite(first, email, Some(Viewer), None, 0);
      var invited := Apply(Apply(Created(first), invite), invite);
      var handedOver := Apply(Apply(invited, Accept(second, email, 0, 1)), Transfer(first, second));
      IsOwner(handedOver, second) && !HasOwner(Apply(handedOver, Accept(second, email, 1, 2)))
  {
    var invite := Invite(first, email, Some(Viewer), None, 0);
    var invited := Apply(Apply(Created(first), invite), invite);
    assert invited.invitations == [Invitation(email, Viewer, Pending, WEEK), Invitation(email, Viewer, Pending, WEEK)];
    var handedOver := Apply(Apply(invited, Accept(second, email, 0, 1)), Transfer(first, second));
    StepFacts(handedOver, Accept(second, email, 1, 2));
  }

  // ---------------------------------------------------------------- the handlers

  datatype Answer = Done | Forbidden | NotFound | Invalid | Conflict

  class Handlers {
    var members: map<UserId, Role>
    var invitations: seq<Invitation>

    ghost function Now(): State
      reads this
    {
      State(members, invitations)
    }

    constructor (creator: UserId)
      ensures Now() == Created(creator)
    {
      members, invitations := map[creator := Owner], [];
    }

    method TransferOwnership(actor: UserId, target: UserId) returns (answer: Answer)
      modifies this
      ensures Now() == Apply(old(Now()), Transfer(actor, target))
      ensures answer == Done <==> Allowed(old(Now()), Transfer(actor, target))
      ensures answer == Forbidden <==> !IsOwner(old(Now()), actor)
      ensures answer == Invalid <==> IsOwner(old(Now()), actor) && target == actor
      ensures answer != Conflict
    {
      if actor !in members || RankOf(members[actor]) < RankOf(Owner) {
        return Forbidden;
      }
      if target == actor {
        return Invalid;
      }
      if members[actor] != Owner || target !in members {
        return NotFound;
      }
      members := members[actor := Admin];
      members := members[target := Owner];
      answer := Done;
    }

    method ChangeMemberRole(actor: UserId, target: UserId, role: Option<Role>) returns (answer: Answer)
      modifies this
      ensures Now() == Apply(old(Now()), ChangeRole(actor, target, role))
      ensures answer == Done <==> Allowed(old(Now()), ChangeRole(actor, target, role))
      ensures answer == Invalid <==> Manages(old(Now()), actor) && (role.None? || role == Some(Owner))
      ensures answer == NotFound <==>
        Manages(old(Now()), actor) && role.Some? && role != Some(Owner) && target !in old(members)
      ensures answer != Conflict
    {
      if actor !in members || RankOf(members[actor]) < RankOf(Manager) {
        return Forbidden;
      }
      if role.None? || role.value == Owner {
        return Invalid;
      }
      if target !in members {
        return NotFound;
      }
      if members[target] == Owner {
        return Forbidden;
      }
      var actorRank := RankOf(members[actor]);
      if actorRank <= RankOf(members[target]) || actorRank <= RankOf(role.value) {
        return Forbidden;
      }
      members := members[target := role.value];
      answer := Done;
    }

    method RemoveMember(actor: UserId, target: UserId) returns (answer: Answer)
      modifies this
      ensures Now() == Apply(old(Now()), Remove(actor, target))
      ensures answer == Done <==> Allowed(old(Now()), Remove(actor, target))
      ensures answer == NotFound <==> actor in old(members) && target !in old(members)
      ensures answer == Invalid <==> IsOwner(old(Now()), actor) && target == actor
      ensures answer != Conflict
    {
      if actor !in members {
        return Forbidden;
      }
      if target !in members {
        return NotFound;
      }
      if target == actor {
        if members[actor] == Owner {
          return Invalid;
        }
        members := members - {target};
        return Done;
      }
      if RankOf(members[actor]) < RankOf(Manager) || members[target] == Owner {
        return Forbidden;
      }
      if RankOf(members[actor]) <= RankOf(members[target]) {
        return Forbidden;
      }
      members := members - {target};
      answer := Done;
    }

    method InviteMember(actor: UserId, email: Email, role: Option<Role>, existing: Option<UserId>, now: int)
      returns (answer: Answer)
      modifies this
      ensures Now() == Apply(old(Now()), Invite(actor, email, role, existing, now))
      ensures answer == Done <==> Allowed(old(Now()), Invite(actor, email, role, existing, now))
      ensures answer == Invalid <==> Manages(old(Now()), actor) && (role.None? || role == Some(Owner))
      ensures answer == Conflict <==>
        && Manages(old(Now()), actor) && role.Some? && Above(old(members)[actor], role.value)
        && existing.Some? && existing.value in old(members)
      ensures answer != NotFound
    {
      if actor !in members || RankOf(members[actor]) < RankOf(Manager) {
        return Forbidden;
      }
      if role.None? || role.value == Owner {
        return Invalid;
      }
      if RankOf(members[actor]) <= RankOf(role.value) {
        return Forbidden;
      }
      if existing.Some? && existing.value in members {
        return Conflict;
      }
      invitations := invitations + [Invitation(email, role.value, Pending, now + WEEK)];
      answer := Done;
    }

    /** The role of someone who is a member already is overwritten, the Owner's too. */
    method AcceptInvitation(actor: UserId, email: Email, token: int, now: int) returns (answer: Answer)
      modifies this
      ensures Now() == Apply(old(Now()), Accept(actor, email, token, now))
      ensures answer == Done <==> Allowed(old(Now()), Accept(actor, email, token, now))
      ensures answer == Forbidden <==>
        0 <= token < |old(invitations)| && old(invitations)[token].email != email
        && Open(old(Now()), token, old(invitations)[token].email, now)
      ensures answer != Invalid && answer != Conflict
    {
      if !(0 <= token < |invitations|) || invitations[token].status != Pending || invitations[token].expiresAt <= now {
        return NotFound;
      }
      if invitations[token].email != email {
        return Forbidden;
      }
      invitations := invitations[token := invitations[token].(status := Accepted)];
      members := members[actor := invitations[token].role];
      answer := Done;
    }

    method RejectInvitation(actor: UserId, email: Email, token: int, now: int) returns (answer: Answer)
      modifies this
      ensures Now() == Apply(old(Now()), Reject(actor, email, token, now))
      ensures answer == Done <==> Allowed(old(Now()), Reject(actor, email, token, now))
      ensures answer == Forbidden <==>
        0 <= token < |old(invitations)| && old(invitations)[token].email != email
        && Open(old(Now()), token, old(invitations)[token].email, now)
      ensures answer != Invalid && answer != Conflict
    {
      if !(0 <= token < |invitations|) || invitations[token].status != Pending || invitations[token].expiresAt <= now {
        return NotFound;
      }
      if invitations[token].email != email {
        return Forbidden;
      }
      invitations := invitations[token := invitations[token].(status := Rejected)];
      answer := Done;
    }

    method CancelInvitation(actor: UserId, token: int) returns (answer: Answer)
      modifies this
      ensures Now() == Apply(old(Now()), Cancel(actor, token))
      ensures answer == Done <==> Allowed(old(Now()), Cancel(actor, token))
      ensures answer == Forbidden <==> !Manages(old(Now()), actor)
      ensures answer != Invalid && answer != Conflict
    {
      if actor !in members || RankOf(members[actor]) < RankOf(Manager) {
        return Forbidden;
      }
      if !(0 <= token < |invitations|) || invitations[token].status != Pending {
        return NotFound;
      }
      invitations := invitations[token := invitations[token].(status := Cancelled)];
      answer := Done;
    }
  }
}
