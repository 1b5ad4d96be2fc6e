/** Membership of one group room over its tables and caches: the room row with its member count, the room_user and
    user_room_session rows, which are soft-deleted and revived, and the cached list of member ids. Each handler of
    http/handler/room/room.go is one step and is proved to do what the operation in Rooms does. */
module Membership {
  import opened Lists
  import opened Rooms
  import opened Options

  /** A room_user row; deleteTime 0 means active. */
  datatype RoomUser = RoomUser(role: Role, deleteTime: int)

  /** A user_room_session row. */
  datatype Session = Session(state: int, deleteTime: int, lastSeqId: int)

  /** How a request to join ends. */
  datatype JoinResult =
    | NoSuchRoom
    | WrongPassword
    | NotByInvite
    | AlreadyMember
    | ApprovalPending
    | ApprovalRequired
    | Joined

  predicate IsOpen(s: Session)
  {
    s.state == 1 && s.deleteTime == 0
  }

  /** InitialLastSeqIdOnRoomJoin */
  function InitialLastSeqId(joinSeqId: int): int
  {
    if joinSeqId < 0 then 0 else joinSeqId
  }

  /** The room_user rows say who is a member, with which role. */
  ghost predicate UserRows(users: map<string, RoomUser>, r: Room)
  {
    match r case Room(members, _, _) =>
      forall u :: (u in members <==> u in users && users[u].deleteTime == 0)
                  && (u in members ==> members[u] == users[u].role)
  }

  /** A user has an open session exactly when a member. */
  ghost predicate SessionRows(sessions: map<string, Session>, r: Room)
  {
    match r case Room(members, _, _) =>
      forall u :: u in members <==> u in sessions && IsOpen(sessions[u])
  }

  /** The cached list, if any, names every member once. */
  ghost predicate CachedIds(cache: Option<seq<string>>, r: Room)
  {
    match r case Room(members, _, _) =>
      cache.Some? ==> Distinct(cache.value) && Elements(cache.value) == members.Keys
  }

  lemma RemovedRows(users: map<string, RoomUser>, sessions: map<string, Session>, r: Room, uid: string, now: int)
    requires UserRows(users, r) && SessionRows(sessions, r) && uid in r.members && now > 0
    ensures var r' := r.(members := r.members - {uid});
      && UserRows(users[uid := users[uid].(deleteTime := now)], r')
      && SessionRows(sessions[uid := sessions[uid].(state := 0, deleteTime := now)], r')
      && |r'.members| == |r.members| - 1
  {
    assert r.members.Keys == (r.members - {uid}).Keys + {uid};
  }

  lemma AddedUser(users: map<string, RoomUser>, r: Room, r': Room, uid: string)
    requires UserRows(users, r) && r' == r.(members := r.members[uid := Normal])
    ensures UserRows(users[uid := RoomUser(Normal, 0)], r')
  {
  }

  lemma AddedSession(sessions: map<string, Session>, r: Room, r': Room, uid: string, lastSeqId: int)
    requires SessionRows(sessions, r) && r' == r.(members := r.members[uid := Normal])
    ensures SessionRows(sessions[uid := Session(1, 0, lastSeqId)], r')
  {
  }

  lemma AddedRows(users: map<string, RoomUser>, sessions: map<string, Session>, r: Room, uid: string, lastSeqId: int)
    requires UserRows(users, r) && SessionRows(sessions, r) && uid !in r.members
    ensures var r' := r.(members := r.members[uid := Normal]);
      && UserRows(users[uid := RoomUser(Normal, 0)], r') && SessionRows(sessions[uid := Session(1, 0, lastSeqId)], r')
      && |r'.members| == |r.members| + 1
  {
    var r' := r.(members := r.members[uid := Normal]);
    AddedUser(users, r, r', uid);
    AddedSession(sessions, r, r', uid, lastSeqId);
    assert r'.members.Keys == r.members.Keys + {uid};
  }

  class RoomStore {
    var users: map<string, RoomUser>
    var sessions: map<string, Session>
    var memberCount: int
    var createUid: string
    var active: bool // room.state
    const password: string // a hash, or empty
    const approvalRequired: bool
    const matches: (string, string) -> bool // whether a hash is that of a password
    var cache: Option<seq<string>>
    ghost var room: Room // what the tables mean

    ghost predicate Valid()
      reads this
    {
      && UserRows(users, room) && SessionRows(sessions, room) && CachedIds(cache, room)
      && memberCount == |room.members|
      && createUid == room.creator && active == !room.dissolved
    }

    /** RoomCreate */
    constructor (uid: string, seqId: int, password: string, approvalRequired: bool, matches: (string, string) -> bool)
      ensures Valid() && room == Created(uid)
      ensures this.password == password && this.approvalRequired == approvalRequired && this.matches == matches
    {
      this.password, this.approvalRequired, this.matches := password, approvalRequired, matches;
      users := map[uid := RoomUser(Owner, 0)];
      memberCount := 1;
      sessions := map[uid := Session(1, 0, InitialLastSeqId(seqId))];
      createUid := uid;
      active := true;
      cache := Some([uid]);
      room := Created(uid);
    }

    /** The member ids in whatever order the database returns them. */
    method QueryUserIds() returns (ids: seq<string>)
      requires UserRows(users, room)
      ensures Distinct(ids) && Elements(ids) == room.members.Keys
    {
      ids := [];
      var left := set u | u in users && users[u].deleteTime == 0;
      assert left == room.members.Keys;
      while left != {}
        invariant Distinct(ids) && Elements(ids) + left == room.members.Keys && Elements(ids) !! left
        decreases |left|
      {
        var u :| u in left;
        assert forall i :: 0 <= i < |ids| ==> ids[i] in Elements(ids);
        assert Elements(ids + [u]) == Elements(ids) + {u};
        ids := ids + [u];
        left := left - {u};
      }
    }

    /** SetRoomUserIdsCache */
    method RefreshCache()
      requires UserRows(users, room)
      modifies `cache
      ensures CachedIds(cache, room) && cache.Some?
    {
      var ids := QueryUserIds();
      cache := Some(ids);
    }

    /** GetRoomUserIdsCache */
    method UserIds() returns (ids: seq<string>)
      requires Valid()
      modifies `cache
      ensures Valid() && cache == Some(ids) && Distinct(ids) && Elements(ids) == room.members.Keys
    {
      if cache.None? {
        RefreshCache();
      }
      ids := cache.value;
    }

    /** The cache entry is evicted. */
    method LoseCache()
      requires Valid()
      modifies `cache
      ensures Valid() && cache == None
    {
      cache := None;
    }

    method HasRoomUser(uid: string) returns (r: bool)
      requires Valid()
      modifies `cache
      ensures Valid() && (r <==> uid in room.members)
    {
      var ids := UserIds();
      assert uid in ids <==> uid in Elements(ids);
      r := uid in ids;
    }

    /** GetRoomUser: the active row of a user. */
    method GetRoomUser(uid: string) returns (r: Option<Role>)
      requires Valid()
      ensures r == if uid in room.members then Some(room.members[uid]) else None
    {
      if uid in users && users[uid].deleteTime == 0 {
        return Some(users[uid].role);
      }
      return None;
    }

    /** UpsertActiveRoomUserTx: revives the row of a former member, else creates one. */
    method UpsertActiveRoomUser(uid: string)
      modifies `users
      ensures users == old(users)[uid := RoomUser(Normal, 0)]
    {
      if uid in users {
        users := users[uid := users[uid].(deleteTime := 0, role := Normal)];
      } else {
        users := users[uid := RoomUser(Normal, 0)];
      }
    }

    /** UpsertActiveUserRoomSessionTx */
    method UpsertActiveSession(uid: string, lastSeqId: int)
      modifies `sessions
      ensures sessions == old(sessions)[uid := Session(1, 0, lastSeqId)]
    {
      if uid in sessions {
        sessions := sessions[uid := sessions[uid].(deleteTime := 0, state := 1, lastSeqId := lastSeqId)];
      } else {
        sessions := sessions[uid := Session(1, 0, lastSeqId)];
      }
    }

    /** joinRoomCommittedAfterValidation, for whoever was admitted by password, invitation or administrator. */
    method JoinCommitted(uid: string, seqId: int)
      requires Valid() && active && uid !in room.members
      modifies this
      ensures Valid() && room == Apply(old(room), Join(uid, true))
      ensures uid in room.members && room.members[uid] == Normal && memberCount == old(memberCount) + 1
      ensures uid in sessions && sessions[uid].lastSeqId == (if seqId < 0 then 0 else seqId)
    {
      AddedRows(users, sessions, room, uid, InitialLastSeqId(seqId));
      UpsertActiveRoomUser(uid);
      memberCount := memberCount + 1;
      UpsertActiveSession(uid, InitialLastSeqId(seqId));
      room := Apply(room, Join(uid, true));
      RefreshCache();
    }

    predicate PasswordOk(given: string)
    {
      password == "" || matches(password, given)
    }

    /** pending tells whether the user has an open request to join. */
    method RoomJoin(uid: string, given: string, pending: bool, seqId: int) returns (r: JoinResult)
      requires Valid()
      modifies this
      ensures Valid() && room == Apply(old(room), Join(uid, PasswordOk(given) && !approvalRequired))
      ensures r == Joined <==> Accepted(old(room), Join(uid, PasswordOk(given) && !approvalRequired))
      ensures r == Joined ==> uid in sessions && sessions[uid].lastSeqId == (if seqId < 0 then 0 else seqId)
      ensures r == NoSuchRoom <==> old(room).dissolved
      ensures r == WrongPassword <==> !old(room).dissolved && !PasswordOk(given)
      ensures r == AlreadyMember <==> !old(room).dissolved && PasswordOk(given) && uid in old(room).members
      ensures r == ApprovalPending ==> pending
      ensures r == ApprovalRequired ==> !pending
    {
      if !active {
        return NoSuchRoom;
      }
      if password != "" && !matches(password, given) {
        return WrongPassword;
      }
      var present := HasRoomUser(uid);
      if present {
        return AlreadyMember;
      }
      if approvalRequired {
        return if pending then ApprovalPending else ApprovalRequired;
      }
      JoinCommitted(uid, seqId);
      return Joined;
    }

    /** A valid invitation may stand in for the password, but not for the approval. */
    method RoomJoinInvite(uid: string, bypassPassword: bool, pending: bool, seqId: int) returns (r: JoinResult)
      requires Valid()
      modifies this
      ensures Valid() && room == Apply(old(room), Join(uid, (password == "" || bypassPassword) && !approvalRequired))
      ensures r == Joined <==> Accepted(old(room), Join(uid, (password == "" || bypassPassword) && !approvalRequired))
      ensures r == NoSuchRoom <==> old(room).dissolved
      ensures r == NotByInvite <==> !old(room).dissolved && password != "" && !bypassPassword
      ensures r == AlreadyMember <==>
              !old(room).dissolved && (password == "" || bypassPassword) && uid in old(room).members
      ensures r == ApprovalPending ==> pending
      ensures r == ApprovalRequired ==> !pending
    {
      if !active {
        return NoSuchRoom;
      }
      if password != "" && !bypassPassword {
        return NotByInvite;
      }
      var present := HasRoomUser(uid);
      if present {
        return AlreadyMember;
      }
      if approvalRequired {
        return if pending then ApprovalPending else ApprovalRequired;
      }
      JoinCommitted(uid, seqId);
      return Joined;
    }

    /** The transaction shared by RoomMemberKick and RoomLeave; GREATEST never has to clamp the count. */
    method RemoveMember(uid: string, now: int)
      requires Valid() && uid in room.members && now > 0
      modifies this
      ensures Valid() && room == old(room).(members := old(room).members - {uid})
      ensures memberCount == old(memberCount) - 1
      ensures users == old(users)[uid := old(users)[uid].(deleteTime := now)]
      ensures sessions == old(sessions)[uid := old(sessions)[uid].(state := 0, deleteTime := now)]
    {
      RemovedRows(users, sessions, room, uid, now);
      if uid in users && users[uid].deleteTime == 0 {
        users := users[uid := users[uid].(deleteTime := now)];
      }
      memberCount := if memberCount - 1 > 0 then memberCount - 1 else 0;
      if uid in sessions && sessions[uid].deleteTime == 0 {
        sessions := sessions[uid := sessions[uid].(state := 0, deleteTime := now)];
      }
      room := room.(members := room.members - {uid});
      RefreshCache();
    }

    method RoomMemberKick(operator: string, target: string, now: int) returns (ok: bool)
      requires Valid() && now > 0
      modifies this
      ensures Valid() && room == Apply(old(room), Kick(operator, target))
      ensures ok <==> Accepted(old(room), Kick(operator, target))
    {
      if !active || target == "" {
        return false;
      }
      var allowed := CanKickMember(operator, target);
      if !allowed {
        return false;
      }
      RemoveMember(target, now);
      return true;
    }

    /** CanKickMemberInRoom */
    method CanKickMember(operator: string, target: string) returns (ok: bool)
      requires Valid()
      ensures ok <==> CanKick(room, operator, target)
      ensures ok <==> operator in room.members && target in room.members && operator != target &&
                      Rank(room.members[operator]) > Rank(room.members[target])
    {
      if operator == target {
        return false;
      }
      var operatorRole := GetRoomUser(operator);
      if operatorRole.None? || (operatorRole.value != Admin && operatorRole.value != Owner) {
        return false;
      }
      var targetRole := GetRoomUser(target);
      if targetRole.None? || targetRole.value == Owner {
        return false;
      }
      if targetRole.value == Admin && operatorRole.value != Owner {
        return false;
      }
      return true;
    }

    method RoomLeave(uid: string, now: int) returns (ok: bool)
      requires Valid() && now > 0
      modifies this
      ensures Valid() && room == Apply(old(room), Leave(uid))
      ensures ok <==> Accepted(old(room), Leave(uid))
    {
      if !active {
        return false;
      }
      var present := HasRoomUser(uid);
      var role := GetRoomUser(uid);
      if !present || role.None? || role.value == Owner {
        return false;
      }
      RemoveMember(uid, now);
      return true;
    }

    /** An UPDATE of the role of an active row. */
    method UpdateRole(uid: string, role: Role)
      requires UserRows(users, room) && uid in room.members
      modifies `users, `room
      ensures room == old(room).(members := old(room).members[uid := role])
      ensures UserRows(users, room) && room.members.Keys == old(room).members.Keys
    {
      users := users[uid := users[uid].(role := role)];
      room := room.(members := room.members[uid := role]);
    }

    method RoomUserRoleUpdate(operator: string, target: string, role: Role) returns (ok: bool)
      requires Valid()
      modifies this
      ensures Valid() && room == Apply(old(room), SetRole(operator, target, role))
      ensures ok <==> Accepted(old(room), SetRole(operator, target, role))
    {
      if !active || target == "" || createUid != operator || role == Owner {
        return false;
      }
      var present := HasRoomUser(target);
      var current := GetRoomUser(target);
      if !present || current.None? || current.value == role {
        return false;
      }
      UpdateRole(target, role);
      return true;
    }

    /** The transaction of TransferRoomOwner. */
    method MoveOwnership(operator: string, target: string)
      requires Valid() && operator in room.members && target in room.members
      modifies this
      ensures Valid()
      ensures room == old(room).(members := old(room).members[operator := Normal][target := Owner], creator := target)
    {
      createUid := target;
      UpdateRole(operator, Normal);
      UpdateRole(target, Owner);
      room := room.(creator := target);
    }

    method RoomOwnerTransfer(operator: string, target: string) returns (ok: bool)
      requires Valid()
      modifies this
      ensures Valid() && room == Apply(old(room), Transfer(operator, target))
      ensures ok <==> Accepted(old(room), Transfer(operator, target))
    {
      if !active || operator == "" || target == "" || operator == target {
        return false;
      }
      var present := HasRoomUser(target);
      var operatorRole := GetRoomUser(operator);
      var targetRole := GetRoomUser(target);
      if !present || operatorRole != Some(Owner) || targetRole.None? || targetRole.value == Owner {
        return false;
      }
      MoveOwnership(operator, target);
      return true;
    }

    method RoomDissolve(operator: string) returns (ok: bool)
      requires Valid()
      modifies this
      ensures Valid() && room == Apply(old(room), Dissolve(operator))
      ensures ok <==> Accepted(old(room), Dissolve(operator))
    {
      var role := GetRoomUser(operator);
      if !active || role != Some(Owner) {
        return false;
      }
      active := false;
      room := room.(dissolved := true);
      return true;
    }
  }
}
