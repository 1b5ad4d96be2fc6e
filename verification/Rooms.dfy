/** A group room as a maintainer would describe it: its members with their roles, its creator and whether it was
    dissolved. The handlers of http/handler/room/room.go are proved against these operations in Membership. */
module Rooms {

  datatype Role = Normal | Admin | Owner

  /** creator is room.create_uid: the first owner, then whoever ownership was transferred to. */
  datatype Room = Room(members: map<string, Role>, creator: string, dissolved: bool)

  datatype Op =
    | Join(uid: string, admitted: bool)           // password, invitation or approval
    | Leave(uid: string)
    | Kick(operator: string, target: string)
    | SetRole(operator: string, target: string, role: Role)
    | Transfer(operator: string, target: string)
    | Dissolve(operator: string)

  function Created(uid: string): Room
  {
    Room(map[uid := Owner], uid, false)
  }

  /** CanKickMemberInRoom */
  predicate CanKick(r: Room, operator: string, target: string)
  {
    && operator != target && operator in r.members && target in r.members
    && r.members[operator] != Normal && r.members[target] != Owner
    && (r.members[target] == Admin ==> r.members[operator] == Owner)
  }

  function Rank(role: Role): nat
  {
    match role
    case Normal => 0
    case Admin => 1
    case Owner => 2
  }

  /** Which requests the handlers carry out. Changing roles asks for the creator, not for an owner. */
  predicate Accepted(r: Room, op: Op)
  {
    !r.dissolved &&
    match op
    case Join(uid, admitted) => admitted && uid !in r.members
    case Leave(uid) => uid in r.members && r.members[uid] != Owner
    case Kick(operator, target) => target != "" && CanKick(r, operator, target)
    case SetRole(operator, target, role) =>
      target != "" && operator == r.creator && role != Owner && target in r.members && r.members[target] != role
    case Transfer(operator, target) =>
      && operator != "" && target != "" && operator != target && operator in r.members && target in r.members
      && r.members[operator] == Owner && r.members[target] != Owner
    case Dissolve(operator) => operator in r.members && r.members[operator] == Owner
  }

  function Apply(r: Room, op: Op): Room
  {
    if !Accepted(r, op) then r
    else match op
      case Join(uid, admitted) => r.(members := r.members[uid := Normal])
      case Leave(uid) => r.(members := r.members - {uid})
      case Kick(operator, target) => r.(members := r.members - {target})
      case SetRole(operator, target, role) => r.(members := r.members[target := role])
      case Transfer(operator, target) =>
        r.(members := r.members[operator := Normal][target := Owner], creator := target)
      case Dissolve(operator) => r.(dissolved := true)
  }

  function After(r: Room, ops: seq<Op>): Room
    decreases |ops|
  {
    if ops == [] then r else After(Apply(r, ops[0]), ops[1..])
  }

  /** Only the creator can be owner; in particular there are not two owners. */
  predicate OwnerIsCreator(r: Room)
  {
    forall u :: u in r.members && r.members[u] == Owner ==> u == r.creator
  }

  predicate HasOwner(r: Room)
  {
    r.creator in r.members && r.members[r.creator] == Owner
  }

  /** The creator gives up the owner role without passing it on: nothing in the handler forbids it. */
  predicate GivesUpOwnership(r: Room, op: Op)
  {
    Accepted(r, op) && op.SetRole? && r.members[op.target] == Owner
  }

  lemma StepKeepsOwner(r: Room, op: Op)
    requires OwnerIsCreator(r)
    ensures OwnerIsCreator(Apply(r, op))
    ensures HasOwner(Apply(r, op)) <==> HasOwner(r) && !GivesUpOwnership(r, op)
  {
  }

  /** In every run of a room at most one member is owner, and that is create_uid. */
  lemma {:induction false} OwnerIsAlwaysCreator(r: Room, ops: seq<Op>)
    requires OwnerIsCreator(r)
    ensures OwnerIsCreator(After(r, ops))
    decreases |ops|
  {
    if ops != [] {
      StepKeepsOwner(r, ops[0]);
      OwnerIsAlwaysCreator(Apply(r, ops[0]), ops[1..]);
    }
  }

  /** Some request of the run was the owner's own step down. */
  predicate SomeoneGaveUp(r: Room, ops: seq<Op>)
    decreases |ops|
  {
    ops != [] && (GivesUpOwnership(r, ops[0]) || SomeoneGaveUp(Apply(r, ops[0]), ops[1..]))
  }

  /** A room has an owner at the end of a run exactly when no owner gave the role up on the way; once lost,
      the role never comes back. */
  lemma {:induction false} OwnerRemains(r: Room, ops: seq<Op>)
    requires OwnerIsCreator(r)
    ensures HasOwner(After(r, ops)) <==> HasOwner(r) && !SomeoneGaveUp(r, ops)
    decreases |ops|
  {
    if ops != [] {
      StepKeepsOwner(r, ops[0]);
      OwnerRemains(Apply(r, ops[0]), ops[1..]);
    }
  }

  /** A room whose creator steps down has no owner, and nobody can transfer or dissolve it any more. */
  lemma OwnerCanBeLost(creator: string, other: string)
    requires creator != other && creator != ""
    ensures var r := After(Created(creator), [Join(other, true), SetRole(creator, creator, Normal)]);
      && !HasOwner(r) && creator in r.members && other in r.members
      && forall u, v :: !Accepted(r, Transfer(u, v)) && !Accepted(r, Dissolve(u))
  {
    var r1 := Apply(Created(creator), Join(other, true));
    var r2 := Apply(r1, SetRole(creator, creator, Normal));
    var ops := [Join(other, true), SetRole(creator, creator, Normal)];
    assert ops[1..] == [SetRole(creator, creator, Normal)];
    assert After(r2, []) == r2;
    assert After(r1, ops[1..]) == r2;
  }

  // ---------- Who may do what ----------

  /** Only members of higher rank remove a member. */
  lemma KickNeedsRank(r: Room, operator: string, target: string)
    ensures Accepted(r, Kick(operator, target)) <==>
            && !r.dissolved && target != "" && operator in r.members && target in r.members && operator != target
            && Rank(r.members[operator]) > Rank(r.members[target])
  {
  }

  /** A user becomes a member exactly by an admitted join of their own to a room that is not dissolved, with the normal
      role. */
  lemma MemberAppears(r: Room, op: Op, u: string)
    requires u !in r.members
    ensures u in Apply(r, op).members <==> op == Join(u, true) && !r.dissolved
    ensures u in Apply(r, op).members ==> Apply(r, op).members[u] == Normal
  {
  }

  /** A member ceases to be one exactly by their own leaving, unless they are owner, or when somebody of higher rank
      removes them; never once the room is dissolved. */
  lemma MemberVanishes(r: Room, op: Op, u: string)
    requires u in r.members
    ensures u !in Apply(r, op).members <==>
            && !r.dissolved
            && ((op == Leave(u) && r.members[u] != Owner) ||
                (op.Kick? && op.target == u && u != "" && op.operator != u && op.operator in r.members
                 && Rank(r.members[op.operator]) > Rank(r.members[u])))
  {
  }

  /** The role that a member has after a request. */
  lemma RoleAfter(r: Room, op: Op, u: string)
    requires u in r.members && u in Apply(r, op).members
    ensures var role := Apply(r, op).members[u];
      if !r.dissolved && op.SetRole? && op.target == u && u != "" && op.operator == r.creator && op.role != Owner
      then role == op.role
      else if !r.dissolved && op.Transfer? && (op.operator == u || op.target == u) && op.operator != op.target
              && op.operator != "" && op.target != "" && op.operator in r.members && op.target in r.members
              && r.members[op.operator] == Owner && r.members[op.target] != Owner
      then role == (if op.target == u then Owner else Normal)
      else role == r.members[u]
  {
  }

  /** The creator changes exactly when ownership is passed on, and to whom it is passed. */
  lemma CreatorAfter(r: Room, op: Op)
    ensures Apply(r, op).creator == if op.Transfer? && Accepted(r, op) then op.target else r.creator
    ensures Apply(r, op).dissolved <==>
            r.dissolved || (op.Dissolve? && op.operator in r.members && r.members[op.operator] == Owner)
  {
  }

  /** Leaving, and being removed by the owner, undoes joining. */
  lemma LeavingUndoesJoining(r: Room, u: string)
    requires !r.dissolved && u !in r.members
    ensures Apply(Apply(r, Join(u, true)), Leave(u)) == r
    ensures u != "" && HasOwner(r) ==> Apply(Apply(r, Join(u, true)), Kick(r.creator, u)) == r
  {
    assert r.members[u := Normal] - {u} == r.members;
  }

  /** A dissolved room accepts nothing any more. */
  lemma {:induction false} DissolvedStays(r: Room, ops: seq<Op>)
    requires r.dissolved
    ensures After(r, ops) == r
    decreases |ops|
  {
    if ops != [] {
      DissolvedStays(Apply(r, ops[0]), ops[1..]);
    }
  }
}
