/** What each operation on calls does, and when: which calls it ends and how that is recorded, who takes part and who
    has rejected afterwards, and which calls and pointers appear. */
module CallLaws {
  import opened Lists
  import opened Calls
  import opened Options

  // ---------- Which calls end ----------

  /** A live call ends by an operation exactly in these cases. */
  ghost predicate Ends(cs: Calls, op: Op, id: string)
    requires id in cs.live && Enabled(cs, op)
  {
    var c := cs.live[id];
    match op
    case OpCreate(created, call, now) => call.rid == c.rid && c.active == []
    case OpJoin(uid, other) => false
    case OpLeave(uid, other, now) =>
      other == id && (uid == c.inviter || uid in c.invitees) && forall u :: u in c.active ==> u == uid
    case OpReject(uid, other, now) =>
      other == id && uid in c.invitees && Distinct(c.invitees) &&
      forall u :: u in c.invitees ==> u == uid || u in c.rejected
    case OpHangUp(uid, other, now) =>
      other == id && (uid == c.inviter || (uid in c.invitees && c.scene == Friend))
    case OpRoomEmpty(rid, operator, now) =>
      rid == c.rid && forall u :: u in c.active ==> !(u in cs.pointer && cs.pointer[u] == id)
    case OpOffline(uid, now) =>
      uid in cs.pointer && cs.pointer[uid] == id && forall u :: u in c.active ==> u == uid
  }

  lemma EmptyIffNone(s: seq<string>, banned: set<string>)
    ensures Without(s, banned) == [] <==> forall u :: u in s ==> u in banned
  {
    if Without(s, banned) != [] {
      assert Without(s, banned)[0] in Without(s, banned);
    }
  }

  lemma RoomIs(cs: Calls, id: string)
    requires Inv(cs) && id in cs.live
    ensures CallOf(cs, cs.live[id].rid) == Some(id)
  {
    assert IsCallOf(cs, cs.live[id].rid, id);
  }

  lemma CreateEnds(cs: Calls, created: string, call: Call, now: int, id: string)
    requires Inv(cs) && Creatable(cs, created, call) && id in cs.live
    ensures id !in Create(cs, created, call, now).live <==> call.rid == cs.live[id].rid && cs.live[id].active == []
  {
    FreshIsNotLive(cs, created);
    RoomIs(cs, id);
  }

  lemma LeaveEnds(cs: Calls, uid: string, other: string, now: int, id: string)
    requires Inv(cs) && id in cs.live
    ensures var c := cs.live[id];
      id !in Leave(cs, uid, other, now).live <==>
        other == id && (uid == c.inviter || uid in c.invitees) && forall u :: u in c.active ==> u == uid
  {
    assert CallOk(cs.live[id]);
    EmptyIffNone(cs.live[id].active, {uid});
  }

  lemma RoomEmptyEnds(cs: Calls, rid: string, operator: string, now: int, id: string)
    requires Inv(cs) && id in cs.live
    ensures id !in RoomEmpty(cs, rid, operator, now).live <==>
            rid == cs.live[id].rid && forall u :: u in cs.live[id].active ==> !(u in cs.pointer && cs.pointer[u] == id)
  {
    RoomIs(cs, id);
    EmptyIffNone(cs.live[id].active, Strays(cs, id));
  }

  /** In every state, an operation ends a live call if and only if it is one of the cases. */
  lemma EndsExactly(cs: Calls, op: Op, id: string)
    requires Inv(cs) && Enabled(cs, op) && id in cs.live
    ensures id !in Apply(cs, op).live <==> Ends(cs, op, id)
  {
    match op
    case OpCreate(created, call, now) => CreateEnds(cs, created, call, now, id);
    case OpJoin(uid, other) =>
    case OpLeave(uid, other, now) => LeaveEnds(cs, uid, other, now, id);
    case OpReject(uid, other, now) => RejectEnds(cs, uid, other, now, id);
    case OpHangUp(uid, other, now) =>
    case OpRoomEmpty(rid, operator, now) => RoomEmptyEnds(cs, rid, operator, now, id);
    case OpOffline(uid, now) =>
      if uid in cs.pointer {
        LeaveEnds(cs, uid, cs.pointer[uid], now, id);
      }
  }

  lemma RejectEnds(cs: Calls, uid: string, other: string, now: int, id: string)
    requires Inv(cs) && id in cs.live
    ensures var c := cs.live[id];
      id !in Reject(cs, uid, other, now).live <==>
        other == id && uid in c.invitees && Distinct(c.invitees) &&
        forall u :: u in c.invitees ==> u == uid || u in c.rejected
  {
    if other == id && uid in cs.live[id].invitees {
      RejectEndsWhenAllRejected(cs, uid, id, now);
    }
  }

  // ---------- How an end is recorded ----------

  /** Whole seconds since the call was created, 0 for a creation time that is unknown or in the future. */
  predicate IsDuration(seconds: int, createTime: int, now: int)
  {
    if createTime <= 0 || now < createTime then seconds == 0
    else seconds * 1000 <= now - createTime < (seconds + 1) * 1000
  }

  /** One record was added: it tells the call, its members, when it began and ended, and who ended it and why. */
  predicate Recorded(before: seq<Record>, after: seq<Record>, id: string, c: Call, endedAt: int, reason: EndReason,
                     operator: string)
  {
    && |after| == |before| + 1 && after[..|before|] == before
    && var r := after[|before|];
       && r.callID == id && r.rid == c.rid && r.inviter == c.inviter && r.invitees == c.invitees
       && r.startedAt == c.createTime && r.endedAt == endedAt && IsDuration(r.durationSec, c.createTime, endedAt)
       && r.reason == reason && r.operator == operator
  }

  lemma EndRecords(cs: Calls, id: string, reason: EndReason, operator: string, now: int)
    requires id in cs.live
    ensures Recorded(cs.records, End(cs, id, reason, operator, now).records, id, cs.live[id], now, reason, operator)
  {
  }

  lemma CreateRecords(cs: Calls, created: string, call: Call, now: int, id: string)
    requires Inv(cs) && Creatable(cs, created, call) && id in cs.live && id !in Create(cs, created, call, now).live
    ensures var rs := Create(cs, created, call, now).records;
      Recorded(cs.records, rs, id, cs.live[id], now, Ended, call.inviter)
  {
    CreateEnds(cs, created, call, now, id);
    RoomIs(cs, id);
    EndRecords(cs, id, Ended, call.inviter, now);
  }

  lemma LeaveRecords(cs: Calls, uid: string, other: string, now: int, id: string)
    requires Inv(cs) && id in cs.live && id !in Leave(cs, uid, other, now).live
    ensures Recorded(cs.records, Leave(cs, uid, other, now).records, id, cs.live[id], now, Ended, uid)
  {
    LeaveEnds(cs, uid, other, now, id);
    EndRecords(Left(cs, uid, id), id, Ended, uid, now);
  }

  lemma RejectRecords(cs: Calls, uid: string, other: string, now: int, id: string)
    requires id in cs.live && id !in Reject(cs, uid, other, now).live
    ensures Recorded(cs.records, Reject(cs, uid, other, now).records, id, cs.live[id], now, AllRejected, uid)
  {
    EndRecords(Told(cs, uid, id), id, AllRejected, uid, now);
  }

  lemma HangUpRecords(cs: Calls, uid: string, other: string, now: int, id: string)
    requires id in cs.live && id !in HangUp(cs, uid, other, now).live
    ensures var reason := if cs.live[id].scene == Friend then Hangup else Ended;
      Recorded(cs.records, HangUp(cs, uid, other, now).records, id, cs.live[id], now, reason, uid)
  {
    EndRecords(cs, id, if cs.live[id].scene == Friend then Hangup else Ended, uid, now);
  }

  lemma RoomEmptyRecords(cs: Calls, rid: string, operator: string, now: int, id: string)
    requires Inv(cs) && id in cs.live && id !in RoomEmpty(cs, rid, operator, now).live
    ensures Recorded(cs.records, RoomEmpty(cs, rid, operator, now).records, id, cs.live[id], now, Ended, operator)
  {
    RoomEmptyEnds(cs, rid, operator, now, id);
    RoomIs(cs, id);
    EndRecords(Pruned(cs, id), id, Ended, operator, now);
  }

  /** What the record of an end says, by the operation that ended the call. */
  ghost predicate RecordedBy(cs: Calls, op: Op, id: string, after: seq<Record>)
    requires id in cs.live
  {
    var c := cs.live[id];
    match op
    case OpCreate(created, call, now) => Recorded(cs.records, after, id, c, now, Ended, call.inviter)
    case OpJoin(uid, other) => false
    case OpLeave(uid, other, now) => Recorded(cs.records, after, id, c, now, Ended, uid)
    case OpReject(uid, other, now) => Recorded(cs.records, after, id, c, now, AllRejected, uid)
    case OpHangUp(uid, other, now) =>
      Recorded(cs.records, after, id, c, now, if c.scene == Friend then Hangup else Ended, uid)
    case OpRoomEmpty(rid, operator, now) => Recorded(cs.records, after, id, c, now, Ended, operator)
    case OpOffline(uid, now) => Recorded(cs.records, after, id, c, now, Ended, uid)
  }

  /** Every end adds exactly one record, with the reason and the user that the operation stands for. */
  lemma EveryEndIsRecorded(cs: Calls, op: Op, id: string)
    requires Inv(cs) && Enabled(cs, op) && id in cs.live && id !in Apply(cs, op).live
    ensures RecordedBy(cs, op, id, Apply(cs, op).records)
  {
    match op
    case OpCreate(created, call, now) => CreateRecords(cs, created, call, now, id);
    case OpJoin(uid, other) =>
    case OpLeave(uid, other, now) => LeaveRecords(cs, uid, other, now, id);
    case OpReject(uid, other, now) => RejectRecords(cs, uid, other, now, id);
    case OpHangUp(uid, other, now) => HangUpRecords(cs, uid, other, now, id);
    case OpRoomEmpty(rid, operator, now) => RoomEmptyRecords(cs, rid, operator, now, id);
    case OpOffline(uid, now) => LeaveRecords(cs, uid, cs.pointer[uid], now, id);
  }

  // ---------- Who takes part, and who has rejected ----------

  /** Who takes part in a call that goes on. */
  ghost predicate StillTakesPart(cs: Calls, op: Op, id: string, u: string)
    requires id in cs.live && Enabled(cs, op)
  {
    var c := cs.live[id];
    match op
    case OpJoin(uid, other) => u in c.active || (other == id && u == uid && (uid == c.inviter || uid in c.invitees))
    case OpLeave(uid, other, now) => u in c.active && !(other == id && u == uid)
    case OpHangUp(uid, other, now) => u in c.active && !(other == id && u == uid)
    case OpRoomEmpty(rid, operator, now) =>
      u in c.active && (rid == c.rid ==> u in cs.pointer && cs.pointer[u] == id)
    case OpOffline(uid, now) => u in c.active && !(u == uid && uid in cs.pointer && cs.pointer[uid] == id)
    case _ => u in c.active
  }

  /** Who has rejected a call that goes on. */
  predicate HasRejected(c: Call, op: Op, id: string, u: string)
  {
    || u in c.rejected
    || (u in c.invitees && (op.OpReject? || op.OpHangUp?) && op.id == id && op.uid == u)
  }

  lemma Appended(s: seq<string>, x: string)
    ensures forall u :: u in AppendUnique(s, x) <==> u in s || u == x
  {
    assert forall u :: u in AppendUnique(s, x) <==> u in Elements(AppendUnique(s, x));
    assert forall u :: u in s <==> u in Elements(s);
  }

  /** Two versions of a call that differ at most in who takes part and who has rejected. */
  predicate SameCall(c: Call, c': Call)
  {
    && c'.rid == c.rid && c'.scene == c.scene && c'.inviter == c.inviter && c'.invitees == c.invitees
    && c'.createTime == c.createTime
  }

  ghost predicate GoesOn(cs: Calls, c': Call, op: Op, id: string)
    requires id in cs.live && Enabled(cs, op)
  {
    && SameCall(cs.live[id], c')
    && (forall u :: u in c'.active <==> StillTakesPart(cs, op, id, u))
    && (forall u :: u in c'.rejected <==> HasRejected(cs.live[id], op, id, u))
  }

  lemma JoinGoesOn(cs: Calls, uid: string, other: string, id: string)
    requires id in cs.live
    ensures GoesOn(cs, Join(cs, uid, other).live[id], OpJoin(uid, other), id)
  {
    Appended(cs.live[id].active, uid);
  }

  /** What leaving does to a call that goes on. */
  lemma LeftCall(cs: Calls, uid: string, other: string, now: int, id: string)
    requires Inv(cs) && id in cs.live && id in Leave(cs, uid, other, now).live
    ensures Leave(cs, uid, other, now).live[id] ==
            if other == id && uid in cs.live[id].active then cs.live[id].(active := Without(cs.live[id].active, {uid}))
            else cs.live[id]
  {
    assert CallOk(cs.live[id]);
    if other == id && uid !in cs.live[id].active {
      NothingWithout(cs.live[id].active, uid);
    }
  }

  lemma {:induction false} NothingWithout(s: seq<string>, uid: string)
    requires uid !in s
    ensures Without(s, {uid}) == s
  {
    if s != [] {
      NothingWithout(s[..|s| - 1], uid);
    }
  }

  lemma LeaveGoesOn(cs: Calls, uid: string, other: string, now: int, id: string)
    requires Inv(cs) && id in cs.live && id in Leave(cs, uid, other, now).live
    ensures GoesOn(cs, Leave(cs, uid, other, now).live[id], OpLeave(uid, other, now), id)
  {
    LeftCall(cs, uid, other, now, id);
  }

  lemma RejectGoesOn(cs: Calls, uid: string, other: string, now: int, id: string)
    requires id in cs.live && id in Reject(cs, uid, other, now).live
    ensures GoesOn(cs, Reject(cs, uid, other, now).live[id], OpReject(uid, other, now), id)
  {
    Appended(cs.live[id].rejected, uid);
  }

  /** What hanging up does to a call that goes on. */
  lemma HungUpCall(cs: Calls, uid: string, other: string, now: int, id: string)
    requires id in cs.live && id in HangUp(cs, uid, other, now).live
    ensures var c := cs.live[id];
      HangUp(cs, uid, other, now).live[id] ==
        if other == id && uid in c.invitees
        then c.(active := Without(c.active, {uid}), rejected := AppendUnique(c.rejected, uid)) else c
  {
  }

  lemma HangUpGoesOn(cs: Calls, uid: string, other: string, now: int, id: string)
    requires Inv(cs) && id in cs.live && id in HangUp(cs, uid, other, now).live
    ensures GoesOn(cs, HangUp(cs, uid, other, now).live[id], OpHangUp(uid, other, now), id)
  {
    HungUpCall(cs, uid, other, now, id);
    HangUpMembers(cs, uid, other, now, id);
    Appended(cs.live[id].rejected, uid);
  }

  lemma HangUpMembers(cs: Calls, uid: string, other: string, now: int, id: string)
    requires Inv(cs) && id in cs.live && id in HangUp(cs, uid, other, now).live
    ensures other == id && uid in cs.live[id].active ==> uid in cs.live[id].invitees
  {
    assert CallOk(cs.live[id]);
  }

  /** What the emptied media room does to a call that goes on. */
  lemma EmptiedCall(cs: Calls, rid: string, operator: string, now: int, id: string)
    requires Inv(cs) && id in cs.live && id in RoomEmpty(cs, rid, operator, now).live
    ensures var c := cs.live[id];
      RoomEmpty(cs, rid, operator, now).live[id] ==
        if rid == c.rid then c.(active := Without(c.active, Strays(cs, id))) else c
  {
    RoomIs(cs, id);
  }

  lemma RoomEmptyGoesOn(cs: Calls, rid: string, operator: string, now: int, id: string)
    requires Inv(cs) && id in cs.live && id in RoomEmpty(cs, rid, operator, now).live
    ensures GoesOn(cs, RoomEmpty(cs, rid, operator, now).live[id], OpRoomEmpty(rid, operator, now), id)
  {
    EmptiedCall(cs, rid, operator, now, id);
  }

  lemma OfflineGoesOn(cs: Calls, uid: string, now: int, id: string, c': Call)
    requires Inv(cs) && id in cs.live
    requires var c := cs.live[id];
      c' == if PointsTo(cs, uid, id) then c.(active := Without(c.active, {uid})) else c
    ensures GoesOn(cs, c', OpOffline(uid, now), id)
  {
  }

  /** What going offline does to a call that goes on. */
  lemma OfflineCall(cs: Calls, uid: string, now: int, id: string)
    requires Inv(cs) && id in cs.live && id in Offline(cs, uid, now).live
    ensures Offline(cs, uid, now).live[id] ==
            if PointsTo(cs, uid, id) then cs.live[id].(active := Without(cs.live[id].active, {uid})) else cs.live[id]
  {
    if uid in cs.pointer {
      LeftCall(cs, uid, cs.pointer[uid], now, id);
    }
  }

  /** A call that goes on has the participants and rejections that the operation says, and everything else as it was. */
  lemma CallGoesOn(cs: Calls, op: Op, id: string)
    requires Inv(cs) && Enabled(cs, op) && id in cs.live && id in Apply(cs, op).live
    ensures GoesOn(cs, Apply(cs, op).live[id], op, id)
  {
    match op
    case OpCreate(created, call, now) => FreshIsNotLive(cs, created);
    case OpJoin(uid, other) => JoinGoesOn(cs, uid, other, id);
    case OpLeave(uid, other, now) => LeaveGoesOn(cs, uid, other, now, id);
    case OpReject(uid, other, now) => RejectGoesOn(cs, uid, other, now, id);
    case OpHangUp(uid, other, now) => HangUpGoesOn(cs, uid, other, now, id);
    case OpRoomEmpty(rid, operator, now) => RoomEmptyGoesOn(cs, rid, operator, now, id);
    case OpOffline(uid, now) =>
      OfflineCall(cs, uid, now, id);
      OfflineGoesOn(cs, uid, now, id, Offline(cs, uid, now).live[id]);
  }

  // ---------- What appears ----------

  /** A call appears exactly when it is created in a room without participants, as it was asked for. */
  lemma CallAppears(cs: Calls, op: Op, id: string)
    requires Inv(cs) && Enabled(cs, op) && id !in cs.live
    ensures id in Apply(cs, op).live <==>
            op.OpCreate? && op.id == id &&
            forall a :: a in cs.live && cs.live[a].rid == op.call.rid ==> cs.live[a].active == []
    ensures id in Apply(cs, op).live ==> Apply(cs, op).live[id] == op.call
  {
    if op.OpCreate? {
      if exists a :: a in cs.live && cs.live[a].rid == op.call.rid && cs.live[a].active != [] {
        var a :| a in cs.live && cs.live[a].rid == op.call.rid && cs.live[a].active != [];
        RoomIs(cs, a);
      } else if CallOf(cs, op.call.rid).Some? {
        var a := CallOf(cs, op.call.rid).value;
        assert IsCallOf(cs, op.call.rid, a);
      }
    }
  }

  /** A pointer appears only by the user's own join. */
  lemma PointerAppears(cs: Calls, op: Op, uid: string, id: string)
    requires Inv(cs) && Enabled(cs, op) && !PointsTo(cs, uid, id)
    ensures PointsTo(Apply(cs, op), uid, id) <==>
            op == OpJoin(uid, id) && id in cs.live && (uid == cs.live[id].inviter || uid in cs.live[id].invitees)
  {
  }
}
