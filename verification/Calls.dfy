/** Media calls as a maintainer would describe them: the live calls, which call each user is in,
    and the end records. The handlers of http/handler/media/stream.go, which spread this over four
    families of Redis keys, are proved against these operations in MediaCalls. */
module Calls {
  import opened Lists
  import opened Options

  datatype Scene = Friend | Group

  datatype Call = Call(
    rid: string,
    scene: Scene,
    inviter: string,
    invitees: seq<string>,
    createTime: int,
    active: seq<string>,
    rejected: seq<string>)

  datatype EndReason = Ended | Hangup | AllRejected

  /** A row of media_call_record. */
  datatype Record = Record(
    callID: string,
    rid: string,
    inviter: string,
    invitees: seq<string>,
    startedAt: int,
    endedAt: int,
    durationSec: int,
    reason: EndReason,
    operator: string)

  /** pointer maps a user to the call that the offline fallback would leave. created is history. */
  datatype Calls = Calls(
    live: map<string, Call>,
    pointer: map<string, string>,
    records: seq<Record>,
    created: set<string>)

  const NO_CALLS := Calls(map[], map[], [], {})

  datatype Outcome = Rejected400 | Unauthorized | Done | Stale

  predicate IsMember(c: Call, uid: string)
  {
    uid == c.inviter || uid in c.invitees
  }

  predicate TakesPart(cs: Calls, uid: string, id: string)
  {
    id in cs.live && uid in cs.live[id].active
  }

  function Members(c: Call): set<string>
  {
    {c.inviter} + Elements(c.invitees)
  }

  /** Whole seconds from the creation of the call, 0 when that lies in the future or is unknown. */
  function DurationSeconds(createTime: int, now: int): int
  {
    if createTime <= 0 || now < createTime then 0 else (now - createTime) / 1000
  }

  // ---------- Operations ----------

  function EndRecord(id: string, c: Call, reason: EndReason, operator: string, now: int): Record
  {
    Record(id, c.rid, c.inviter, c.invitees, c.createTime, now, DurationSeconds(c.createTime, now), reason, operator)
  }

  /** The call is over: its members are in no call any more, and one record is written. */
  function End(cs: Calls, id: string, reason: EndReason, operator: string, now: int): Calls
    requires id in cs.live
  {
    cs.(live := cs.live - {id},
        pointer := cs.pointer - Members(cs.live[id]),
        records := cs.records + [EndRecord(id, cs.live[id], reason, operator, now)])
  }

  ghost predicate IsCallOf(cs: Calls, rid: string, id: string)
  {
    id in cs.live && cs.live[id].rid == rid
  }

  /** The live call of a room. */
  ghost function CallOf(cs: Calls, rid: string): (r: Option<string>)
    ensures r.Some? ==> IsCallOf(cs, rid, r.value)
    ensures r.None? ==> forall id :: !IsCallOf(cs, rid, id)
  {
    if exists id :: IsCallOf(cs, rid, id) then
      var id :| IsCallOf(cs, rid, id);
      Some(id)
    else None
  }

  ghost predicate RoomBusy(cs: Calls, rid: string)
  {
    CallOf(cs, rid).Some? && cs.live[CallOf(cs, rid).value].active != []
  }

  /** A room with participants refuses a new call; an abandoned call is ended first. */
  ghost function Create(cs: Calls, id: string, call: Call, now: int): Calls
    requires call.active == [] && call.rejected == []
  {
    var room := CallOf(cs, call.rid);
    if RoomBusy(cs, call.rid) then cs
    else
      var cleared := if room.Some? then End(cs, room.value, Ended, call.inviter, now) else cs;
      cleared.(live := cleared.live[id := call], created := cleared.created + {id})
  }

  /** A live call with new lists of participants and rejections. */
  function WithLists(cs: Calls, id: string, active: seq<string>, rejected: seq<string>): Calls
    requires id in cs.live
  {
    cs.(live := cs.live[id := cs.live[id].(active := active, rejected := rejected)])
  }

  function Join(cs: Calls, uid: string, id: string): Calls
  {
    if id !in cs.live || !IsMember(cs.live[id], uid) then cs
    else
      var c := cs.live[id];
      WithLists(cs, id, AppendUnique(c.active, uid), c.rejected).(pointer := cs.pointer[uid := id])
  }

  function LeaveOutcome(cs: Calls, uid: string, id: string): Outcome
  {
    if uid == "" || id == "" || id !in cs.live then Stale
    else if !IsMember(cs.live[id], uid) then Unauthorized
    else Done
  }

  /** The user is out of the call, which is not ended yet. */
  function Left(cs: Calls, uid: string, id: string): Calls
    requires id in cs.live
  {
    var c := cs.live[id];
    WithLists(cs, id, Without(c.active, {uid}), c.rejected).(pointer := cs.pointer - {uid})
  }

  /** The call ends with its last participant. */
  function Leave(cs: Calls, uid: string, id: string, now: int): Calls
  {
    if uid == "" || id == "" then cs
    else if id !in cs.live then cs.(pointer := cs.pointer - {uid})
    else if !IsMember(cs.live[id], uid) then cs
    else
      var left := Left(cs, uid, id);
      if left.live[id].active == [] then End(left, id, Ended, uid, now) else left
  }

  function Told(cs: Calls, uid: string, id: string): Calls
    requires id in cs.live
  {
    var c := cs.live[id];
    WithLists(cs, id, c.active, AppendUnique(c.rejected, uid))
  }

  function Reject(cs: Calls, uid: string, id: string, now: int): Calls
  {
    if id !in cs.live || uid !in cs.live[id].invitees then cs
    else
      var told := Told(cs, uid, id);
      if |told.live[id].rejected| >= |told.live[id].invitees| then End(told, id, AllRejected, uid, now) else told
  }

  /** Either side ends a friend call and the inviter ends a room call; another member only leaves. */
  function HangUp(cs: Calls, uid: string, id: string, now: int): Calls
  {
    if id !in cs.live || !IsMember(cs.live[id], uid) then cs
    else
      var c := cs.live[id];
      if c.scene == Friend then End(cs, id, Hangup, uid, now)
      else if uid == c.inviter then End(cs, id, Ended, uid, now)
      else WithLists(cs, id, Without(c.active, {uid}), AppendUnique(c.rejected, uid)).(pointer := cs.pointer - {uid})
  }

  /** The participants whose pointer names another call, or none. */
  function Strays(cs: Calls, id: string): set<string>
    requires id in cs.live
  {
    set u | u in cs.live[id].active && !(u in cs.pointer && cs.pointer[u] == id)
  }

  function Pruned(cs: Calls, id: string): Calls
    requires id in cs.live
  {
    var c := cs.live[id];
    WithLists(cs, id, Without(c.active, Strays(cs, id)), c.rejected).(pointer := cs.pointer - Strays(cs, id))
  }

  /** The media room emptied: participants that are no longer in this call are dropped, and the call
      ends when none remains. */
  ghost function RoomEmpty(cs: Calls, rid: string, operator: string, now: int): Calls
  {
    var room := CallOf(cs, rid);
    if room.None? then cs
    else
      var id := room.value;
      var pruned := Pruned(cs, id);
      if pruned.live[id].active == [] then End(pruned, id, Ended, operator, now) else pruned
  }

  function Offline(cs: Calls, uid: string, now: int): Calls
  {
    if uid !in cs.pointer then cs else Leave(cs, uid, cs.pointer[uid], now)
  }

  // ---------- The invariant ----------

  ghost predicate CallOk(c: Call)
  {
    && c.rid != "" && c.inviter != "" && "" !in c.invitees && c.inviter !in c.invitees && c.invitees != []
    && Distinct(c.active) && (forall u :: u in c.active ==> IsMember(c, u))
    && Distinct(c.rejected) && (forall u :: u in c.rejected ==> u in c.invitees)
  }

  function Ids(records: seq<Record>): (ids: seq<string>)
    ensures |ids| == |records| && forall i :: 0 <= i < |ids| ==> ids[i] == records[i].callID
  {
    seq(|records|, i requires 0 <= i < |records| => records[i].callID)
  }

  /** Every call ever created is either live or has one end record. */
  ghost predicate Accounted(cs: Calls)
  {
    && Distinct(Ids(cs.records))
    && cs.live.Keys !! Elements(Ids(cs.records))
    && cs.created == cs.live.Keys + Elements(Ids(cs.records))
  }

  ghost predicate OnePerRoom(cs: Calls)
  {
    forall a, b :: a in cs.live && b in cs.live && cs.live[a].rid == cs.live[b].rid ==> a == b
  }

  ghost predicate CallsOk(cs: Calls)
  {
    forall id :: id in cs.live ==> id != "" && CallOk(cs.live[id])
  }

  /** A pointer names a live call that the user takes part in. */
  ghost predicate PointersOk(cs: Calls)
  {
    match cs case Calls(live, pointer, _, _) =>
      forall u :: u in pointer ==> u != "" && pointer[u] in live && u in live[pointer[u]].active
  }

  ghost predicate Inv(cs: Calls)
  {
    CallsOk(cs) && OnePerRoom(cs) && PointersOk(cs) && Accounted(cs)
  }

  // ---------- Runs ----------

  datatype Op =
    | OpCreate(id: string, call: Call, now: int)
    | OpJoin(uid: string, id: string)
    | OpLeave(uid: string, id: string, now: int)
    | OpReject(uid: string, id: string, now: int)
    | OpHangUp(uid: string, id: string, now: int)
    | OpRoomEmpty(rid: string, operator: string, now: int)
    | OpOffline(uid: string, now: int)

  /** The call a handler creates: a fresh id, an authenticated inviter, everyone else in the room. */
  ghost predicate Creatable(cs: Calls, id: string, call: Call)
  {
    id != "" && id !in cs.created && CallOk(call) && call.active == [] && call.rejected == []
  }

  ghost predicate Enabled(cs: Calls, op: Op)
  {
    op.OpCreate? ==> Creatable(cs, op.id, op.call)
  }

  ghost function Apply(cs: Calls, op: Op): Calls
    requires Enabled(cs, op)
  {
    match op
    case OpCreate(id, call, now) => Create(cs, id, call, now)
    case OpJoin(uid, id) => Join(cs, uid, id)
    case OpLeave(uid, id, now) => Leave(cs, uid, id, now)
    case OpReject(uid, id, now) => Reject(cs, uid, id, now)
    case OpHangUp(uid, id, now) => HangUp(cs, uid, id, now)
    case OpRoomEmpty(rid, operator, now) => RoomEmpty(cs, rid, operator, now)
    case OpOffline(uid, now) => Offline(cs, uid, now)
  }

  ghost predicate IsRun(cs: Calls, ops: seq<Op>)
    decreases |ops|
  {
    ops == [] || (Enabled(cs, ops[0]) && IsRun(Apply(cs, ops[0]), ops[1..]))
  }

  ghost function After(cs: Calls, ops: seq<Op>): Calls
    requires IsRun(cs, ops)
    decreases |ops|
  {
    if ops == [] then cs else After(Apply(cs, ops[0]), ops[1..])
  }

  // ---------- What the operations keep ----------

  lemma EndKeeps(cs: Calls, id: string, reason: EndReason, operator: string, now: int)
    requires Inv(cs) && id in cs.live
    ensures Inv(End(cs, id, reason, operator, now))
  {
    var cs' := End(cs, id, reason, operator, now);
    assert Ids(cs'.records) == Ids(cs.records) + [id];
    forall i | 0 <= i < |cs.records| ensures Ids(cs.records)[i] != id {
      assert Ids(cs.records)[i] in Elements(Ids(cs.records));
    }
  }

  /** Members join and leave a live call. */
  lemma UpdateKeeps(cs: Calls, cs': Calls, id: string, c: Call)
    requires Inv(cs) && id in cs.live && CallOk(c) && c.rid == cs.live[id].rid
    requires cs'.live == cs.live[id := c] && cs'.records == cs.records && cs'.created == cs.created
    requires forall u :: u in cs'.pointer ==>
               || (cs'.pointer[u] == id && u in c.active && u != "")
               || (u in cs.pointer && cs'.pointer[u] == cs.pointer[u] && cs.pointer[u] != id)
    ensures Inv(cs')
  {
    assert cs'.live.Keys == cs.live.Keys;
    UpdateKeepsRooms(cs, cs');
    UpdateKeepsPointers(cs, cs', id, c);
  }

  lemma UpdateKeepsPointers(cs: Calls, cs': Calls, id: string, c: Call)
    requires PointersOk(cs) && id in cs.live && cs'.live == cs.live[id := c]
    requires forall u :: u in cs'.pointer ==>
               || (cs'.pointer[u] == id && u in c.active && u != "")
               || (u in cs.pointer && cs'.pointer[u] == cs.pointer[u] && cs.pointer[u] != id)
    ensures PointersOk(cs')
  {
  }

  lemma UpdateKeepsRooms(cs: Calls, cs': Calls)
    requires OnePerRoom(cs) && cs'.live.Keys == cs.live.Keys
    requires forall a :: a in cs.live ==> cs'.live[a].rid == cs.live[a].rid
    ensures OnePerRoom(cs')
  {
  }

  lemma CreateKeeps(cs: Calls, id: string, call: Call, now: int)
    requires Inv(cs) && Creatable(cs, id, call)
    ensures Inv(Create(cs, id, call, now))
  {
    var room := CallOf(cs, call.rid);
    if !RoomBusy(cs, call.rid) {
      if room.Some? {
        var cleared := End(cs, room.value, Ended, call.inviter, now);
        EndKeeps(cs, room.value, Ended, call.inviter, now);
        assert IsCallOf(cs, call.rid, room.value);
        AddKeeps(cleared, id, call);
      } else {
        assert forall a :: a in cs.live ==> !IsCallOf(cs, call.rid, a);
        AddKeeps(cs, id, call);
      }
    }
  }

  lemma AddKeeps(cs: Calls, id: string, call: Call)
    requires Inv(cs) && Creatable(cs, id, call)
    requires forall a :: a in cs.live ==> cs.live[a].rid != call.rid
    ensures Inv(cs.(live := cs.live[id := call], created := cs.created + {id}))
  {
    assert id !in cs.live && id !in Elements(Ids(cs.records));
  }

  /** An id that was never used is not the id of a live call. */
  lemma FreshIsNotLive(cs: Calls, id: string)
    requires Accounted(cs) && id !in cs.created
    ensures id !in cs.live
  {
  }

  lemma LeftKeeps(cs: Calls, uid: string, id: string)
    requires Inv(cs) && id in cs.live
    ensures Inv(Left(cs, uid, id))
  {
    WithoutDistinct(cs.live[id].active, {uid});
    UpdateKeeps(cs, Left(cs, uid, id), id, Left(cs, uid, id).live[id]);
  }

  lemma LeaveKeeps(cs: Calls, uid: string, id: string, now: int)
    requires Inv(cs)
    ensures Inv(Leave(cs, uid, id, now))
  {
    if uid != "" && id in cs.live && IsMember(cs.live[id], uid) {
      var left := Left(cs, uid, id);
      LeftKeeps(cs, uid, id);
      if left.live[id].active == [] {
        EndKeeps(left, id, Ended, uid, now);
      }
    }
  }

  lemma ToldKeeps(cs: Calls, uid: string, id: string)
    requires Inv(cs) && id in cs.live && uid in cs.live[id].invitees
    ensures Inv(Told(cs, uid, id))
  {
    UpdateKeeps(cs, Told(cs, uid, id), id, Told(cs, uid, id).live[id]);
  }

  lemma RejectKeeps(cs: Calls, uid: string, id: string, now: int)
    requires Inv(cs)
    ensures Inv(Reject(cs, uid, id, now))
  {
    if id in cs.live && uid in cs.live[id].invitees {
      var told := Told(cs, uid, id);
      ToldKeeps(cs, uid, id);
      if |told.live[id].rejected| >= |told.live[id].invitees| {
        EndKeeps(told, id, AllRejected, uid, now);
      }
    }
  }

  lemma HangUpKeeps(cs: Calls, uid: string, id: string, now: int)
    requires Inv(cs)
    ensures Inv(HangUp(cs, uid, id, now))
  {
    if id in cs.live && IsMember(cs.live[id], uid) {
      var c := cs.live[id];
      if c.scene == Friend {
        EndKeeps(cs, id, Hangup, uid, now);
      } else if uid == c.inviter {
        EndKeeps(cs, id, Ended, uid, now);
      } else {
        var c' := c.(active := Without(c.active, {uid}), rejected := AppendUnique(c.rejected, uid));
        WithoutDistinct(c.active, {uid});
        UpdateKeeps(cs, HangUp(cs, uid, id, now), id, c');
      }
    }
  }

  lemma PrunedKeeps(cs: Calls, id: string)
    requires Inv(cs) && id in cs.live
    ensures Inv(Pruned(cs, id))
  {
    WithoutDistinct(cs.live[id].active, Strays(cs, id));
    UpdateKeeps(cs, Pruned(cs, id), id, Pruned(cs, id).live[id]);
  }

  lemma RoomEmptyKeeps(cs: Calls, rid: string, operator: string, now: int)
    requires Inv(cs)
    ensures Inv(RoomEmpty(cs, rid, operator, now))
  {
    var room := CallOf(cs, rid);
    if room.Some? {
      var pruned := Pruned(cs, room.value);
      PrunedKeeps(cs, room.value);
      if pruned.live[room.value].active == [] {
        EndKeeps(pruned, room.value, Ended, operator, now);
      }
    }
  }

  lemma JoinKeeps(cs: Calls, uid: string, id: string)
    requires Inv(cs)
    ensures Inv(Join(cs, uid, id))
    ensures id in cs.live && IsMember(cs.live[id], uid) ==> TakesPart(Join(cs, uid, id), uid, id)
  {
    if id in cs.live && IsMember(cs.live[id], uid) {
      var c := cs.live[id];
      assert uid in Elements(AppendUnique(c.active, uid));
      UpdateKeeps(cs, Join(cs, uid, id), id, c.(active := AppendUnique(c.active, uid)));
    }
  }

  lemma StepKeeps(cs: Calls, op: Op)
    requires Inv(cs) && Enabled(cs, op)
    ensures Inv(Apply(cs, op))
  {
    match op
    case OpCreate(id, call, now) => CreateKeeps(cs, id, call, now);
    case OpJoin(uid, id) => JoinKeeps(cs, uid, id);
    case OpLeave(uid, id, now) => LeaveKeeps(cs, uid, id, now);
    case OpReject(uid, id, now) => RejectKeeps(cs, uid, id, now);
    case OpHangUp(uid, id, now) => HangUpKeeps(cs, uid, id, now);
    case OpRoomEmpty(rid, operator, now) => RoomEmptyKeeps(cs, rid, operator, now);
    case OpOffline(uid, now) =>
      if uid in cs.pointer {
        LeaveKeeps(cs, uid, cs.pointer[uid], now);
      }
  }

  // ---------- Main results ----------

  lemma {:induction false} RunKeepsInvariant(cs: Calls, ops: seq<Op>)
    requires Inv(cs) && IsRun(cs, ops)
    ensures Inv(After(cs, ops))
    decreases |ops|
  {
    if ops != [] {
      StepKeeps(cs, ops[0]);
      RunKeepsInvariant(Apply(cs, ops[0]), ops[1..]);
    }
  }

  function RecordsOf(records: seq<Record>, id: string): (r: seq<Record>)
  {
    if records == [] then []
    else
      var r := RecordsOf(records[..|records| - 1], id);
      if records[|records| - 1].callID == id then r + [records[|records| - 1]] else r
  }

  lemma {:induction false} RecordCount(records: seq<Record>, id: string)
    requires Distinct(Ids(records))
    ensures |RecordsOf(records, id)| == if id in Ids(records) then 1 else 0
  {
    if records != [] {
      var rest := records[..|records| - 1];
      assert Ids(records) == Ids(rest) + [records[|records| - 1].callID];
      RecordCount(rest, id);
    }
  }

  /** In every run, each call ever created is live, or it has exactly one end record; never both. */
  lemma EveryCallIsLiveOrRecordedOnce(ops: seq<Op>, id: string)
    requires IsRun(NO_CALLS, ops) && id in After(NO_CALLS, ops).created
    ensures |RecordsOf(After(NO_CALLS, ops).records, id)| == if id in After(NO_CALLS, ops).live then 0 else 1
  {
    RunKeepsInvariant(NO_CALLS, ops);
    var cs := After(NO_CALLS, ops);
    RecordCount(cs.records, id);
    assert id in cs.live || id in Elements(Ids(cs.records));
  }

  /** In every run, a user whose pointer names a call is a participant of that live call, and going
      offline takes the normal way out of it. */
  lemma OfflineAlwaysLeaves(ops: seq<Op>, uid: string, now: int)
    requires IsRun(NO_CALLS, ops) && uid in After(NO_CALLS, ops).pointer
    ensures var cs := After(NO_CALLS, ops);
      var id := cs.pointer[uid];
      && id in cs.live && uid in cs.live[id].active && IsMember(cs.live[id], uid)
      && LeaveOutcome(cs, uid, id) == Done
      && uid !in Offline(cs, uid, now).pointer
      && (id in Offline(cs, uid, now).live ==> uid !in Offline(cs, uid, now).live[id].active)
  {
    RunKeepsInvariant(NO_CALLS, ops);
  }

  predicate PointsTo(cs: Calls, uid: string, id: string)
  {
    uid in cs.pointer && cs.pointer[uid] == id
  }

  /** The converse of the pointer invariant fails: a user who takes part in two calls and leaves the first of them has
      no pointer to the second, and going offline changes nothing. */
  lemma OfflineCanMiss(cs: Calls, uid: string, a: string, b: string, now: int)
    requires Inv(cs) && a in cs.live && b in cs.live && a != b
    requires IsMember(cs.live[a], uid) && IsMember(cs.live[b], uid)
    ensures var s := Leave(Join(Join(cs, uid, a), uid, b), uid, a, now);
      Inv(s) && TakesPart(s, uid, b) && uid !in s.pointer && Offline(s, uid, now) == s
  {
    var s1 := Join(cs, uid, a);
    JoinKeeps(cs, uid, a);
    var s2 := Join(s1, uid, b);
    JoinKeeps(s1, uid, b);
    LeaveKeeps(s2, uid, a, now);
    assert uid != "" && a != "" by {
      assert CallOk(cs.live[a]);
    }
    LeaveTakesPointer(s2, uid, a, b, now);
  }

  lemma LeaveTakesPointer(cs: Calls, uid: string, a: string, b: string, now: int)
    requires uid != "" && a != "" && a in cs.live && a != b && IsMember(cs.live[a], uid) && TakesPart(cs, uid, b)
    ensures TakesPart(Leave(cs, uid, a, now), uid, b) && uid !in Leave(cs, uid, a, now).pointer
  {
  }

  /** Another live call that the user is a member of ends. */
  ghost predicate EndsAnother(cs: Calls, cs': Calls, uid: string, id: string)
  {
    exists other :: other in cs.live && other != id && other !in cs'.live && uid in Members(cs.live[other])
  }

  /** The user joins, leaves or hangs up another call, another call of theirs ends, or they are dropped as a stray when
      the room of another call empties. */
  ghost predicate Disturbs(cs: Calls, op: Op, uid: string, id: string)
    requires Enabled(cs, op)
  {
    || EndsAnother(cs, Apply(cs, op), uid, id)
    || match op
       case OpJoin(v, other) => v == uid && other != id && other in cs.live && IsMember(cs.live[other], uid)
       case OpLeave(v, other, _) =>
         v == uid && other != id && other != "" && (other in cs.live ==> IsMember(cs.live[other], uid))
       case OpHangUp(v, other, _) => v == uid && other != id && other in cs.live && IsMember(cs.live[other], uid)
       case OpRoomEmpty(rid, _, _) =>
         CallOf(cs, rid).Some? && CallOf(cs, rid).value != id && uid in cs.live[CallOf(cs, rid).value].active
       case _ => false
  }

  lemma NoneEnds(cs: Calls, cs': Calls, uid: string, id: string)
    requires cs.live.Keys <= cs'.live.Keys
    ensures !EndsAnother(cs, cs', uid, id)
  {
  }

  lemma OneEnds(cs: Calls, cs': Calls, other: string, uid: string, id: string)
    requires other in cs.live && cs'.live.Keys == cs.live.Keys - {other} && id in cs'.live
    ensures EndsAnother(cs, cs', uid, id) <==> uid in Members(cs.live[other])
  {
  }

  lemma CreateTakesPointers(cs: Calls, created: string, call: Call, now: int, uid: string, id: string)
    requires call.active == [] && call.rejected == [] && created !in cs.live && PointsTo(cs, uid, id)
    requires TakesPart(Create(cs, created, call, now), uid, id)
    ensures PointsTo(Create(cs, created, call, now), uid, id) <==>
            !EndsAnother(cs, Create(cs, created, call, now), uid, id)
  {
  }

  lemma LeaveTakesPointers(cs: Calls, v: string, other: string, now: int, uid: string, id: string)
    requires Inv(cs) && PointsTo(cs, uid, id) && TakesPart(Leave(cs, v, other, now), uid, id)
    ensures PointsTo(Leave(cs, v, other, now), uid, id) <==>
            !EndsAnother(cs, Leave(cs, v, other, now), uid, id) &&
            !(v == uid && other != id && other != "" && (other in cs.live ==> IsMember(cs.live[other], uid)))
  {
    assert uid != "" && id in cs.live;
    if v == "" || other == "" || other !in cs.live || !IsMember(cs.live[other], v) {
      NoneEnds(cs, Leave(cs, v, other, now), uid, id);
    } else {
      LiveLeaveTakesPointers(cs, v, other, now, uid, id);
    }
  }

  lemma LiveLeaveTakesPointers(cs: Calls, v: string, other: string, now: int, uid: string, id: string)
    requires v != "" && other != "" && other in cs.live && IsMember(cs.live[other], v)
    requires PointsTo(cs, uid, id) && TakesPart(Leave(cs, v, other, now), uid, id)
    ensures PointsTo(Leave(cs, v, other, now), uid, id) <==>
            !EndsAnother(cs, Leave(cs, v, other, now), uid, id) && !(v == uid && other != id)
  {
    var left := Left(cs, v, other);
    assert left.live.Keys == cs.live.Keys;
    if left.live[other].active == [] {
      OneEnds(cs, Leave(cs, v, other, now), other, uid, id);
    } else {
      NoneEnds(cs, left, uid, id);
    }
  }

  lemma RejectTakesPointers(cs: Calls, v: string, other: string, now: int, uid: string, id: string)
    requires PointsTo(cs, uid, id) && TakesPart(Reject(cs, v, other, now), uid, id)
    ensures PointsTo(Reject(cs, v, other, now), uid, id) <==> !EndsAnother(cs, Reject(cs, v, other, now), uid, id)
  {
  }

  lemma HangUpTakesPointers(cs: Calls, v: string, other: string, now: int, uid: string, id: string)
    requires PointsTo(cs, uid, id) && TakesPart(HangUp(cs, v, other, now), uid, id)
    ensures PointsTo(HangUp(cs, v, other, now), uid, id) <==>
            !EndsAnother(cs, HangUp(cs, v, other, now), uid, id) &&
            !(v == uid && other != id && other in cs.live && IsMember(cs.live[other], uid))
  {
  }

  lemma RoomEmptyTakesPointers(cs: Calls, rid: string, operator: string, now: int, uid: string, id: string)
    requires Inv(cs) && PointsTo(cs, uid, id) && TakesPart(RoomEmpty(cs, rid, operator, now), uid, id)
    ensures PointsTo(RoomEmpty(cs, rid, operator, now), uid, id) <==>
            !EndsAnother(cs, RoomEmpty(cs, rid, operator, now), uid, id) &&
            !(CallOf(cs, rid).Some? && CallOf(cs, rid).value != id && uid in cs.live[CallOf(cs, rid).value].active)
  {
    var room := CallOf(cs, rid);
    if room.None? {
      NoneEnds(cs, cs, uid, id);
    } else {
      assert CallOk(cs.live[room.value]);
      var pruned := Pruned(cs, room.value);
      assert pruned.live.Keys == cs.live.Keys;
      if pruned.live[room.value].active == [] {
        OneEnds(cs, RoomEmpty(cs, rid, operator, now), room.value, uid, id);
      } else {
        NoneEnds(cs, pruned, uid, id);
      }
    }
  }

  lemma JoinTakesPointers(cs: Calls, v: string, other: string, uid: string, id: string)
    requires PointsTo(cs, uid, id)
    ensures PointsTo(Join(cs, v, other), uid, id) <==>
            !EndsAnother(cs, Join(cs, v, other), uid, id) &&
            !(v == uid && other != id && other in cs.live && IsMember(cs.live[other], uid))
  {
    NoneEnds(cs, Join(cs, v, other), uid, id);
  }

  lemma OfflineTakesPointers(cs: Calls, v: string, now: int, uid: string, id: string)
    requires Inv(cs) && PointsTo(cs, uid, id) && TakesPart(Offline(cs, v, now), uid, id)
    ensures PointsTo(Offline(cs, v, now), uid, id) <==> !EndsAnother(cs, Offline(cs, v, now), uid, id)
  {
    if v in cs.pointer {
      LeaveTakesPointers(cs, v, cs.pointer[v], now, uid, id);
    } else {
      NoneEnds(cs, cs, uid, id);
    }
  }

  lemma EndingTakesPointers(cs: Calls, op: Op, uid: string, id: string)
    requires op.OpReject? || op.OpHangUp?
    requires Inv(cs) && PointsTo(cs, uid, id) && TakesPart(Apply(cs, op), uid, id)
    ensures PointsTo(Apply(cs, op), uid, id) <==> !Disturbs(cs, op, uid, id)
  {
    match op
    case OpReject(v, other, now) => RejectTakesPointers(cs, v, other, now, uid, id);
    case OpHangUp(v, other, now) => HangUpTakesPointers(cs, v, other, now, uid, id);
  }

  lemma EmptyingTakesPointers(cs: Calls, op: Op, uid: string, id: string)
    requires op.OpLeave? || op.OpRoomEmpty? || op.OpOffline?
    requires Inv(cs) && PointsTo(cs, uid, id) && TakesPart(Apply(cs, op), uid, id)
    ensures PointsTo(Apply(cs, op), uid, id) <==> !Disturbs(cs, op, uid, id)
  {
    match op
    case OpLeave(v, other, now) =>
      assert Apply(cs, op) == Leave(cs, v, other, now);
      LeaveTakesPointers(cs, v, other, now, uid, id);
    case OpRoomEmpty(rid, operator, now) =>
      assert Apply(cs, op) == RoomEmpty(cs, rid, operator, now);
      RoomEmptyTakesPointers(cs, rid, operator, now, uid, id);
    case OpOffline(v, now) =>
      assert Apply(cs, op) == Offline(cs, v, now);
      OfflineTakesPointers(cs, v, now, uid, id);
  }

  /** A participant whose pointer names their call, and who still takes part after a step, keeps the pointer exactly
      when the step does not disturb it. */
  lemma PointerIsKept(cs: Calls, op: Op, uid: string, id: string)
    requires Inv(cs) && Enabled(cs, op) && PointsTo(cs, uid, id) && TakesPart(Apply(cs, op), uid, id)
    ensures PointsTo(Apply(cs, op), uid, id) <==> !Disturbs(cs, op, uid, id)
  {
    match op
    case OpCreate(created, call, now) =>
      FreshIsNotLive(cs, created);
      CreateTakesPointers(cs, created, call, now, uid, id);
    case OpJoin(v, other) => JoinTakesPointers(cs, v, other, uid, id);
    case OpReject(v, other, now) => EndingTakesPointers(cs, op, uid, id);
    case OpHangUp(v, other, now) => EndingTakesPointers(cs, op, uid, id);
    case _ => EmptyingTakesPointers(cs, op, uid, id);
  }

  lemma NobodyEnters(cs: Calls, op: Op, uid: string, id: string)
    requires Enabled(cs, op) && !op.OpJoin? && TakesPart(Apply(cs, op), uid, id)
    ensures TakesPart(cs, uid, id)
    decreases op.OpOffline?
  {
    match op
    case OpCreate(created, call, now) =>
    case OpLeave(v, other, now) =>
    case OpReject(v, other, now) =>
    case OpHangUp(v, other, now) =>
    case OpRoomEmpty(rid, operator, now) =>
    case OpOffline(v, now) =>
      if v in cs.pointer {
        NobodyEnters(cs, OpLeave(v, cs.pointer[v], now), uid, id);
      }
  }

  /** Only joining makes a user take part, and it sets the pointer. */
  lemma PartBegins(cs: Calls, op: Op, uid: string, id: string)
    requires Enabled(cs, op) && !TakesPart(cs, uid, id) && TakesPart(Apply(cs, op), uid, id)
    ensures op == OpJoin(uid, id) && PointsTo(Apply(cs, op), uid, id)
  {
    if op.OpJoin? {
      JoinOnlyAdds(cs, op.uid, op.id, uid, id);
    } else {
      NobodyEnters(cs, op, uid, id);
    }
  }

  lemma JoinOnlyAdds(cs: Calls, v: string, other: string, uid: string, id: string)
    requires !TakesPart(cs, uid, id) && TakesPart(Join(cs, v, other), uid, id)
    ensures v == uid && other == id && PointsTo(Join(cs, v, other), uid, id)
  {
  }

  ghost predicate Undisturbed(cs: Calls, ops: seq<Op>, uid: string, id: string)
    requires IsRun(cs, ops)
    decreases |ops|
  {
    ops == [] || (!Disturbs(cs, ops[0], uid, id) && Undisturbed(Apply(cs, ops[0]), ops[1..], uid, id))
  }

  lemma {:induction false} UndisturbedKeeps(cs: Calls, ops: seq<Op>, uid: string, id: string)
    requires Inv(cs) && IsRun(cs, ops) && Undisturbed(cs, ops, uid, id)
    requires TakesPart(cs, uid, id) ==> PointsTo(cs, uid, id)
    ensures Inv(After(cs, ops)) && (TakesPart(After(cs, ops), uid, id) ==> PointsTo(After(cs, ops), uid, id))
    decreases |ops|
  {
    if ops != [] {
      var next := Apply(cs, ops[0]);
      StepKeeps(cs, ops[0]);
      if TakesPart(next, uid, id) {
        if TakesPart(cs, uid, id) {
          PointerIsKept(cs, ops[0], uid, id);
        } else {
          PartBegins(cs, ops[0], uid, id);
        }
      }
      UndisturbedKeeps(next, ops[1..], uid, id);
    }
  }

  /** In every run in which nothing disturbs a user's pointer to a call, the user is taken out of the call when they go
      offline, if they take part in it. */
  lemma UndisturbedOfflineLeaves(ops: seq<Op>, uid: string, id: string, now: int)
    requires IsRun(NO_CALLS, ops) && Undisturbed(NO_CALLS, ops, uid, id) && TakesPart(After(NO_CALLS, ops), uid, id)
    ensures PointsTo(After(NO_CALLS, ops), uid, id) && !TakesPart(Offline(After(NO_CALLS, ops), uid, now), uid, id)
  {
    UndisturbedKeeps(NO_CALLS, ops, uid, id);
    OfflineAlwaysLeaves(ops, uid, now);
  }

  /** A reject of a live call ends it exactly when no invitee is listed twice and all have now rejected. */
  lemma RejectEndsWhenAllRejected(cs: Calls, uid: string, id: string, now: int)
    requires Inv(cs) && id in cs.live && uid in cs.live[id].invitees
    ensures var c := cs.live[id];
      id !in Reject(cs, uid, id, now).live <==>
      Distinct(c.invitees) && forall u :: u in c.invitees ==> u == uid || u in c.rejected
  {
    var c := cs.live[id];
    var rejected := AppendUnique(c.rejected, uid);
    DistinctSize(rejected);
    DistinctSize(c.invitees);
    SubsetSize(Elements(rejected), Elements(c.invitees));
    assert Elements(rejected) == Elements(c.rejected) + {uid};
    if Elements(rejected) == Elements(c.invitees) {
      forall u | u in c.invitees ensures u == uid || u in c.rejected {
        assert u in Elements(rejected);
      }
    } else if forall u :: u in c.invitees ==> u == uid || u in c.rejected {
      assert Elements(c.invitees) <= Elements(rejected);
    }
  }

  /** However many members hang up, they are fewer than all members: the inviter is not among them. */
  lemma HungUpAreNeverAll(c: Call, uid: string)
    requires CallOk(c) && uid in c.invitees
    ensures |AppendUnique(c.rejected, uid)| < |Members(c)|
  {
    var rejected := AppendUnique(c.rejected, uid);
    DistinctSize(rejected);
    SubsetSize(Elements(rejected), Elements(c.invitees));
    assert Members(c) == Elements(c.invitees) + {c.inviter};
  }
}
