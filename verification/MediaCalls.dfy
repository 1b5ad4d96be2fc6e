/** The call handlers of http/handler/media/stream.go over their four families of Redis keys: invite and
    state by call id, the current call by room, the current call by user; and the record table. Each handler
    is one step and is proved to do what the operation of the same name in Calls does. */
module MediaCalls {
  import opened Lists
  import opened Calls
  import opened Options

  /** mediaCallInviteData */
  datatype Invite = Invite(
    callID: string,
    rid: string,
    scene: Scene,
    inviter: string,
    invitees: seq<string>,
    createTime: int,
    expireAt: int)

  /** mediaCallStateData */
  datatype CallState = CallState(
    callID: string,
    rid: string,
    scene: Scene,
    inviter: string,
    invitees: seq<string>,
    active: seq<string>,
    rejected: seq<string>,
    ended: bool,
    createTime: int,
    expireAt: int)

  /** The body of a create request, with its publisher media reduced to whether it is valid, and what the handler
      looks up for it: the type of the room if there is one, its members, and whether the two of a private room are
      friends. */
  datatype CreateRequest = CreateRequest(
    rid: string,
    callType: string,
    ttlSeconds: int,
    mediaValid: bool,
    roomType: Option<RoomType>,
    roomUserIds: seq<string>,
    areFriends: bool)

  datatype CreateResult = Refused | RoomOccupied | Created

  datatype RoomType = PrivateRoom | GroupRoom | GroupPrivateRoom | SelfChatRoom

  function IsExpired(expireAt: int, now: int): bool
  {
    expireAt > 0 && now > expireAt
  }

  function AllowMember(inv: Invite, uid: string): bool
  {
    uid == inv.inviter || uid in inv.invitees
  }

  function FreshState(inv: Invite): CallState
  {
    CallState(inv.callID, inv.rid, inv.scene, inv.inviter, inv.invitees, [], [], false, inv.createTime, inv.expireAt)
  }

  // ---------- The list helpers ----------

  method AppendUniqueUid(list: seq<string>, uid: string) returns (out: seq<string>)
    ensures out == AppendUnique(list, uid)
    ensures if uid in list then out == list else out == list + [uid]
  {
    for i := 0 to |list|
      invariant uid !in list[..i]
    {
      if list[i] == uid {
        return list;
      }
    }
    return list + [uid];
  }

  method RemoveUid(list: seq<string>, uid: string) returns (out: seq<string>)
    ensures out == Without(list, {uid})
  {
    out := [];
    for i := 0 to |list|
      invariant out == Without(list[..i], {uid})
    {
      WithoutStep(list, i, {uid});
      if list[i] != uid {
        out := out + [list[i]];
      }
    }
    assert list[..|list|] == list;
  }

  method UniqueUids(list: seq<string>) returns (out: seq<string>)
    ensures out == Dedup(list)
  {
    var seen: set<string> := {};
    out := [];
    for i := 0 to |list|
      invariant out == Dedup(list[..i]) && seen == Elements(out)
    {
      assert list[..i + 1][..i] == list[..i];
      if list[i] != "" && list[i] !in seen {
        seen := seen + {list[i]};
        out := out + [list[i]];
      }
    }
    assert list[..|list|] == list;
  }

  // ---------- The keys of a set of calls ----------

  function InviteOf(id: string, c: Call): Invite
  {
    Invite(id, c.rid, c.scene, c.inviter, c.invitees, c.createTime, 0)
  }

  function StateOf(id: string, c: Call): CallState
  {
    CallState(id, c.rid, c.scene, c.inviter, c.invitees, c.active, c.rejected, false, c.createTime, 0)
  }

  /** A live call has both its invite and its state, neither ended nor expiring; an ended call has neither. */
  ghost predicate SessionKeys(invites: map<string, Invite>, states: map<string, CallState>, calls: Calls)
  {
    match calls case Calls(live, _, _, _) =>
      && invites.Keys == live.Keys && states.Keys == live.Keys
      && (forall id :: id in live ==> invites[id] == InviteOf(id, live[id]) && states[id] == StateOf(id, live[id]))
  }

  /** Exactly the rooms with a live call have a pointer, to that call. */
  ghost predicate RoomKeys(roomActive: map<string, string>, calls: Calls)
  {
    match calls case Calls(live, _, _, _) =>
      && (forall rid :: rid in roomActive ==> roomActive[rid] in live && live[roomActive[rid]].rid == rid)
      && (forall id :: id in live ==> live[id].rid in roomActive && roomActive[live[id].rid] == id)
  }

  /** The two predicates in the words of the keys alone. */
  lemma KeysMeaning(invites: map<string, Invite>, states: map<string, CallState>, roomActive: map<string, string>,
                    calls: Calls)
    requires SessionKeys(invites, states, calls) && RoomKeys(roomActive, calls) && Inv(calls)
    ensures forall id :: id in invites <==> id in states && !states[id].ended
    ensures forall rid, id :: (rid in roomActive && roomActive[rid] == id) <==>
            (id in invites && invites[id].rid == rid)
    ensures forall id, u :: id in states && u in states[id].rejected ==> u in invites[id].invitees
  {
  }

  lemma EndedKeys(invites: map<string, Invite>, states: map<string, CallState>, roomActive: map<string, string>,
                  calls: Calls, calls': Calls, id: string, ended: CallState)
    requires SessionKeys(invites, states, calls) && RoomKeys(roomActive, calls) && id in calls.live
    requires calls'.live == calls.live - {id}
    ensures SessionKeys(invites - {id}, states[id := ended] - {id}, calls')
    ensures RoomKeys(roomActive - {calls.live[id].rid}, calls')
  {
  }

  lemma UpdatedKeys(invites: map<string, Invite>, states: map<string, CallState>, states': map<string, CallState>,
                    roomActive: map<string, string>, calls: Calls, calls': Calls, state: CallState)
    requires SessionKeys(invites, states, calls) && RoomKeys(roomActive, calls) && state.callID in calls.live
    requires state == states[state.callID].(active := state.active, rejected := state.rejected)
    requires states' == states[state.callID := state]
    requires calls' == WithLists(calls, state.callID, state.active, state.rejected)
    ensures SessionKeys(invites, states', calls') && RoomKeys(roomActive, calls')
  {
    assert states'.Keys == states.Keys && calls'.live.Keys == calls.live.Keys;
    UpdatedRoomKeys(roomActive, calls, calls');
  }

  lemma UpdatedRoomKeys(roomActive: map<string, string>, calls: Calls, calls': Calls)
    requires RoomKeys(roomActive, calls) && calls'.live.Keys == calls.live.Keys
    requires forall id :: id in calls.live ==> calls'.live[id].rid == calls.live[id].rid
    ensures RoomKeys(roomActive, calls')
  {
  }

  lemma StoredKeys(invites: map<string, Invite>, states: map<string, CallState>, roomActive: map<string, string>,
                   calls: Calls, inv: Invite, call: Call)
    requires SessionKeys(invites, states, calls) && RoomKeys(roomActive, calls)
    requires inv == InviteOf(inv.callID, call) && inv.callID !in calls.live && call.rid !in roomActive
    requires call.active == [] && call.rejected == []
    ensures var calls' := calls.(live := calls.live[inv.callID := call], created := calls.created + {inv.callID});
      && SessionKeys(invites[inv.callID := inv], states[inv.callID := FreshState(inv)], calls')
      && RoomKeys(roomActive[inv.rid := inv.callID], calls')
  {
  }

  /** What makes ending a call reach all its keys. */
  ghost predicate Tidy(id: string, c: Call)
  {
    && id != "" && c.rid != ""
    && ({c.inviter} + Elements(c.invitees) + Elements(c.active) + Elements(c.rejected)) - {""} == Members(c)
  }

  lemma LiveIsTidy(calls: Calls, id: string)
    requires Inv(calls) && id in calls.live
    ensures Tidy(id, calls.live[id])
  {
    assert CallOk(calls.live[id]);
  }

  lemma RoomKey(roomActive: map<string, string>, calls: Calls, rid: string)
    requires RoomKeys(roomActive, calls)
    ensures CallOf(calls, rid) == if rid in roomActive then Some(roomActive[rid]) else None
  {
    if rid in roomActive {
      assert IsCallOf(calls, rid, roomActive[rid]);
    }
  }

  /** The strays among the first i participants. */
  ghost function StraysBefore(active: seq<string>, i: nat, strays: set<string>): set<string>
    requires i <= |active|
  {
    set u | u in active[..i] && u in strays
  }

  /** Participant i has not been looked at yet, and counts as one more stray or as one more who stays. */
  lemma StraysStep(active: seq<string>, i: nat, strays: set<string>, pointer: map<string, string>)
    requires i < |active| && Distinct(active)
    ensures active[i] !in StraysBefore(active, i, strays)
    ensures StraysBefore(active, i + 1, strays) ==
            StraysBefore(active, i, strays) + if active[i] in strays then {active[i]} else {}
    ensures pointer - StraysBefore(active, i, strays) - {active[i]} ==
            pointer - (StraysBefore(active, i, strays) + {active[i]})
    ensures Without(active[..i + 1], strays) ==
            Without(active[..i], strays) + if active[i] in strays then [] else [active[i]]
  {
    WithoutStep(active, i, strays);
    assert active[..i + 1] == active[..i] + [active[i]];
  }

  lemma NothingToPrune(calls: Calls, id: string)
    requires id in calls.live && calls.live[id].active == []
    ensures Pruned(calls, id) == calls
  {
    assert Strays(calls, id) == {};
  }

  // ---------- The handlers ----------

  class CallStore {
    var invites: map<string, Invite>
    var states: map<string, CallState>
    var roomActive: map<string, string>
    var userActive: map<string, string>
    var records: seq<Record>
    ghost var calls: Calls // what the keys mean

    /** The four families of keys and the record table hold exactly the calls. */
    ghost predicate Holds()
      reads this
    {
      && SessionKeys(invites, states, calls)
      && RoomKeys(roomActive, calls)
      && userActive == calls.pointer && records == calls.records
    }

    ghost predicate Valid()
      reads this
    {
      Holds() && Inv(calls)
    }

    constructor ()
      ensures Valid() && calls == NO_CALLS
    {
      invites, states, roomActive, userActive, records := map[], map[], map[], map[], [];
      calls := NO_CALLS;
    }

    /** The stored state of a call, or a fresh one when there is none. */
    function LoadState(inv: Invite): CallState
      reads this
    {
      if inv.callID in states then states[inv.callID] else FreshState(inv)
    }

    /** clearAllUserActiveCallMappingsForCall */
    method ClearMappings(inv: Invite, state: CallState)
      modifies `userActive
      ensures userActive == old(userActive) -
        (({inv.inviter} + Elements(inv.invitees) + Elements(state.active) + Elements(state.rejected)) - {""})
    {
      var uids := UniqueUids([inv.inviter] + inv.invitees + state.active + state.rejected);
      for i := 0 to |uids|
        invariant userActive == old(userActive) - Elements(uids[..i])
      {
        assert uids[..i + 1] == uids[..i] + [uids[i]];
        userActive := userActive - {uids[i]};
      }
      assert uids[..|uids|] == uids;
      assert Elements(uids) ==
        ({inv.inviter} + Elements(inv.invitees) + Elements(state.active) + Elements(state.rejected)) - {""};
    }

    /** destroyMediaCallSessionKeys */
    method DestroyKeys(callID: string, rid: string)
      modifies `invites, `states, `roomActive
      ensures invites == if callID != "" then old(invites) - {callID} else old(invites)
      ensures states == if callID != "" then old(states) - {callID} else old(states)
      ensures roomActive == if rid != "" then old(roomActive) - {rid} else old(roomActive)
    {
      if callID != "" {
        invites := invites - {callID};
        states := states - {callID};
      }
      if rid != "" {
        roomActive := roomActive - {rid};
      }
    }

    /** Marks the call ended, clears its members' pointers, writes the record and destroys the keys: the
        common tail of finalizeMediaCallSessionNoActive, RejectCallInvite and HangupCall. */
    method EndSession(inv: Invite, state: CallState, reason: EndReason, operator: string, now: int)
      requires Holds() && inv.callID in invites && inv == invites[inv.callID] && state == states[inv.callID]
      requires Tidy(inv.callID, calls.live[inv.callID])
      modifies this
      ensures Holds() && calls == End(old(calls), inv.callID, reason, operator, now)
    {
      EndedKeys(invites, states, roomActive, calls, End(calls, inv.callID, reason, operator, now), inv.callID,
                state.(ended := true));
      states := states[inv.callID := state.(ended := true)];
      ClearMappings(inv, state);
      records := records + [Record(inv.callID, inv.rid, inv.inviter, inv.invitees, inv.createTime, now,
                                   DurationSeconds(inv.createTime, now), reason, operator)];
      DestroyKeys(inv.callID, inv.rid);
      calls := End(calls, inv.callID, reason, operator, now);
    }

    /** finalizeMediaCallSessionNoActive */
    method Finalize(inv: Invite, state: CallState, operator: string, now: int)
      requires Holds() && inv.callID in invites && inv == invites[inv.callID] && state == states[inv.callID]
      requires Tidy(inv.callID, calls.live[inv.callID])
      modifies this
      ensures Holds() && calls == End(old(calls), inv.callID, Ended, operator, now)
    {
      if state.ended {
        assert false; // an ended call has no keys
      }
      EndSession(inv, state, Ended, operator, now);
    }

    /** Stores the participants and the rejections of a live call. */
    method SaveState(state: CallState)
      requires Holds() && state.callID in states
      requires state == states[state.callID].(active := state.active, rejected := state.rejected)
      modifies `states, `calls
      ensures Holds() && calls == WithLists(old(calls), state.callID, state.active, state.rejected)
      ensures states == old(states)[state.callID := state]
    {
      states := states[state.callID := state];
      calls := WithLists(calls, state.callID, state.active, state.rejected);
      UpdatedKeys(invites, old(states), states, roomActive, old(calls), calls, state);
    }

    method SetMapping(uid: string, callID: string)
      requires Holds()
      modifies `userActive, `calls
      ensures Holds() && calls == old(calls).(pointer := userActive)
      ensures userActive == if uid != "" && callID != "" then old(userActive)[uid := callID] else old(userActive)
    {
      if uid != "" && callID != "" {
        userActive := userActive[uid := callID];
      }
      calls := calls.(pointer := userActive);
    }

    method ClearMapping(uid: string)
      requires Holds()
      modifies `userActive, `calls
      ensures Holds() && calls == old(calls).(pointer := userActive)
      ensures userActive == if uid != "" then old(userActive) - {uid} else old(userActive)
    {
      if uid != "" {
        userActive := userActive - {uid};
      }
      calls := calls.(pointer := userActive);
    }

    method MarkCallMemberJoined(uid: string, callID: string, now: int) returns (r: Outcome)
      requires Valid()
      modifies this
      ensures Valid() && calls == Join(old(calls), uid, callID)
      ensures r == Done <==> callID in old(calls).live && IsMember(old(calls).live[callID], uid)
      ensures r == Unauthorized <==> callID in old(calls).live && !IsMember(old(calls).live[callID], uid)
      ensures r == Rejected400 <==> callID !in old(calls).live
    {
      StepKeeps(calls, OpJoin(uid, callID));
      if callID == "" || callID !in invites || IsExpired(invites[callID].expireAt, now) {
        return Rejected400;
      }
      var inv := invites[callID];
      assert inv == InviteOf(callID, calls.live[callID]);
      assert AllowMember(inv, uid) <==> IsMember(calls.live[callID], uid);
      if !AllowMember(inv, uid) {
        return Unauthorized;
      }
      var state := LoadState(inv);
      var active := AppendUniqueUid(state.active, uid);
      SaveState(state.(active := active));
      SetMapping(uid, inv.callID);
      return Done;
    }

    method LeaveCallByUID(uid: string, callID: string, now: int) returns (r: Outcome)
      requires Valid()
      modifies this
      ensures Valid() && calls == Leave(old(calls), uid, callID, now)
      ensures r == LeaveOutcome(old(calls), uid, callID)
      ensures r == Stale <==> uid == "" || callID !in old(calls).live
      ensures r == Unauthorized <==>
                uid != "" && callID in old(calls).live && uid != old(calls).live[callID].inviter
                && uid !in old(calls).live[callID].invitees
      ensures r != Rejected400
    {
      LeaveKeeps(calls, uid, callID, now);
      if uid == "" || callID == "" {
        return Stale;
      }
      if callID !in invites || IsExpired(invites[callID].expireAt, now) {
        ClearMapping(uid);
        return Stale;
      }
      var inv := invites[callID];
      assert inv == InviteOf(callID, calls.live[callID]);
      assert AllowMember(inv, uid) <==> IsMember(calls.live[callID], uid);
      if !AllowMember(inv, uid) {
        return Unauthorized;
      }
      DropParticipant(inv, uid, now);
      return Done;
    }

    /** The part of leaveCallByUID after its checks. */
    method DropParticipant(inv: Invite, uid: string, now: int)
      requires Valid() && inv.callID in invites && inv == invites[inv.callID]
      requires uid != "" && IsMember(calls.live[inv.callID], uid)
      modifies this
      ensures Holds() && calls == Leave(old(calls), uid, inv.callID, now)
    {
      LeftKeeps(calls, uid, inv.callID);
      LiveIsTidy(Left(calls, uid, inv.callID), inv.callID);
      LiveIsTidy(calls, inv.callID);
      var state := LoadState(inv);
      var active := RemoveUid(state.active, uid);
      state := state.(active := active);
      SaveState(state);
      ClearMapping(uid);
      assert calls == Left(old(calls), uid, inv.callID);
      if |state.active| == 0 && !state.ended {
        Finalize(inv, state, uid, now);
      }
    }

    method OnUserMessageQuicOffline(uid: string, now: int) returns (r: Outcome)
      requires Valid()
      modifies this
      ensures Valid() && calls == Offline(old(calls), uid, now)
      ensures uid in old(calls).pointer ==> r == Done
    {
      if uid == "" || uid !in userActive || userActive[uid] == "" {
        return Stale;
      }
      r := LeaveCallByUID(uid, userActive[uid], now);
    }

    method RejectCallInvite(uid: string, callID: string, now: int) returns (r: Outcome, allRejected: bool)
      requires Valid()
      modifies this
      ensures Valid() && calls == Reject(old(calls), uid, callID, now)
      ensures r == Done <==> callID in old(calls).live && uid in old(calls).live[callID].invitees
      ensures r == Unauthorized <==> callID in old(calls).live && uid !in old(calls).live[callID].invitees
      ensures r == Rejected400 <==> callID !in old(calls).live
      ensures allRejected <==> callID in old(calls).live && callID !in calls.live
    {
      RejectKeeps(calls, uid, callID, now);
      allRejected := false;
      if callID == "" || callID !in invites || IsExpired(invites[callID].expireAt, now) {
        return Rejected400, false;
      }
      var inv := invites[callID];
      if uid !in inv.invitees {
        return Unauthorized, false;
      }
      ToldKeeps(calls, uid, callID);
      LiveIsTidy(Told(calls, uid, callID), callID);
      var state := LoadState(inv);
      if state.ended {
        assert false; // an ended call has no keys
      }
      var rejected := AppendUniqueUid(state.rejected, uid);
      state := state.(rejected := rejected);
      SaveState(state);
      assert calls == Told(old(calls), uid, callID);
      allRejected := |state.rejected| >= |inv.invitees|;
      if allRejected {
        EndSession(inv, state, AllRejected, uid, now);
      }
      r := Done;
    }

    /** ended tells whether the call is over. For a member other than the inviter of a room call it never is:
        RejectedUIDs cannot reach the number of all members, whatever the comment there says. */
    method HangupCall(uid: string, callID: string, now: int) returns (r: Outcome, ended: bool)
      requires Valid()
      modifies this
      ensures Valid() && calls == HangUp(old(calls), uid, callID, now)
      ensures r == Unauthorized <==> callID in old(calls).live && !IsMember(old(calls).live[callID], uid)
      ensures r == Rejected400 <==> callID == ""
      ensures ended <==> callID in old(calls).live && callID !in calls.live
      ensures ended <==> callID in old(calls).live && IsMember(old(calls).live[callID], uid) &&
                         (old(calls).live[callID].scene == Friend || uid == old(calls).live[callID].inviter)
    {
      HangUpKeeps(calls, uid, callID, now);
      if callID == "" {
        return Rejected400, false;
      }
      if callID !in invites {
        return Done, false;
      }
      var inv := invites[callID];
      assert inv == InviteOf(callID, calls.live[callID]);
      if !AllowMember(inv, uid) {
        return Unauthorized, false;
      }
      var state := LoadState(inv);
      if state.ended {
        assert false; // an ended call has no keys
      }
      if inv.scene == Friend {
        LiveIsTidy(calls, callID);
        EndSession(inv, state, Hangup, uid, now);
        return Done, true;
      }
      if uid == inv.inviter {
        LiveIsTidy(calls, callID);
        EndSession(inv, state, Ended, uid, now);
        return Done, true;
      }
      HangUpAlone(inv, state, uid);
      return Done, false;
    }

    method AllMembers(inv: Invite) returns (uids: seq<string>)
      requires inv.inviter != "" && "" !in inv.invitees
      ensures |uids| == |{inv.inviter} + Elements(inv.invitees)|
    {
      uids := UniqueUids([inv.inviter] + inv.invitees);
      DistinctSize(uids);
      assert Elements(uids) == {inv.inviter} + Elements(inv.invitees);
    }

    /** The last part of HangupCall: a member other than the inviter leaves a room call. */
    method HangUpAlone(inv: Invite, state: CallState, uid: string)
      requires Valid() && inv.callID in invites && inv == invites[inv.callID] && state == states[inv.callID]
      requires uid in inv.invitees
      modifies this
      ensures Holds()
      ensures var c := old(calls).live[inv.callID];
        calls == WithLists(old(calls), inv.callID, Without(c.active, {uid}), AppendUnique(c.rejected, uid))
                   .(pointer := old(calls).pointer - {uid})
    {
      ghost var c := calls.live[inv.callID];
      assert CallOk(c);
      HungUpAreNeverAll(c, uid);
      var active := RemoveUid(state.active, uid);
      var rejected := AppendUniqueUid(state.rejected, uid);
      ClearMapping(uid);
      var allMembers := AllMembers(inv);
      if |rejected| >= |allMembers| {
        assert false; // the "all hung up" branch
      }
      SaveState(state.(active := active, rejected := rejected));
    }

    /** The in-memory room emptied: participants without a pointer to this call are dropped from it. */
    method OnMediaRoomEmpty(rid: string, operator: string, now: int)
      requires Valid()
      modifies this
      ensures Valid() && calls == RoomEmpty(old(calls), rid, operator, now)
    {
      RoomEmptyKeeps(calls, rid, operator, now);
      RoomKey(roomActive, calls, rid);
      if rid == "" || rid !in roomActive {
        if rid in roomActive {
          LiveIsTidy(calls, roomActive[rid]);
          assert false; // no call lives in a room without id
        }
        return;
      }
      var callID := roomActive[rid];
      LiveIsTidy(calls, callID);
      if callID == "" || callID !in invites {
        assert false; // no stale room pointer
      }
      var inv := invites[callID];
      if IsExpired(inv.expireAt, now) {
        assert false; // invites do not expire
      }
      PruneAndEnd(inv, operator, now);
    }

    /** The part of OnMediaRoomEmpty after its checks. */
    method PruneAndEnd(inv: Invite, operator: string, now: int)
      requires Valid() && inv.callID in invites && inv == invites[inv.callID]
      modifies this
      ensures Holds()
      ensures var pruned := Pruned(old(calls), inv.callID);
        calls == if pruned.live[inv.callID].active == [] then End(pruned, inv.callID, Ended, operator, now) else pruned
    {
      PrunedKeeps(calls, inv.callID);
      LiveIsTidy(Pruned(calls, inv.callID), inv.callID);
      var state := LoadState(inv);
      if state.ended {
        assert false; // an ended call has no keys
      }
      if |state.active| > 0 {
        state := Prune(state);
        if |state.active| > 0 {
          return;
        }
      } else {
        NothingToPrune(calls, inv.callID);
      }
      Finalize(inv, state, operator, now);
    }

    /** Drops the strays from the participants of a live call and from the pointers. */
    method Prune(state: CallState) returns (pruned: CallState)
      requires Valid() && state.callID in states && state == states[state.callID]
      modifies `states, `userActive, `calls
      ensures Holds() && calls == Pruned(old(calls), state.callID)
      ensures states == old(states)[state.callID := pruned] && pruned == state.(active := pruned.active)
      ensures pruned.active == calls.live[state.callID].active
    {
      assert CallOk(calls.live[state.callID]);
      var alive := StillInCall(state.callID, state.active);
      pruned := state.(active := alive);
      SaveState(pruned);
    }

    /** Keeps the participants whose pointer names the call and clears the pointers of the others. */
    method StillInCall(callID: string, active: seq<string>) returns (alive: seq<string>)
      requires Holds() && callID in calls.live && active == calls.live[callID].active
      requires Distinct(active) && "" !in active
      modifies `userActive, `calls
      ensures Holds() && calls == old(calls).(pointer := userActive)
      ensures alive == Without(active, Strays(old(calls), callID))
      ensures userActive == old(userActive) - Strays(old(calls), callID)
    {
      alive := DropStrays(callID, active, Strays(calls, callID));
      assert userActive == old(userActive) - Strays(old(calls), callID);
      calls := calls.(pointer := userActive);
    }

    method DropStrays(callID: string, active: seq<string>, ghost strays: set<string>) returns (alive: seq<string>)
      requires Distinct(active)
      requires forall u :: u in strays <==> u in active && !(u in userActive && userActive[u] == callID)
      modifies `userActive
      ensures alive == Without(active, strays) && userActive == old(userActive) - strays
    {
      ghost var before := userActive;
      alive := [];
      for i := 0 to |active|
        modifies `userActive
        invariant alive == Without(active[..i], strays)
        invariant userActive == before - StraysBefore(active, i, strays)
      {
        StraysStep(active, i, strays, before);
        var uid := active[i];
        if uid in userActive && userActive[uid] == callID {
          alive := alive + [uid];
        } else {
          userActive := userActive - {uid};
        }
      }
      assert active[..|active|] == active;
      assert StraysBefore(active, |active|, strays) == strays;
    }

    /** Everyone in the room but the inviter. */
    method Invitees(roomUserIds: seq<string>, user: string) returns (invitees: seq<string>)
      ensures invitees == Without(roomUserIds, {"", user})
    {
      invitees := [];
      for i := 0 to |roomUserIds|
        invariant invitees == Without(roomUserIds[..i], {"", user})
      {
        WithoutStep(roomUserIds, i, {"", user});
        if roomUserIds[i] != "" && roomUserIds[i] != user {
          invitees := invitees + [roomUserIds[i]];
        }
      }
      assert roomUserIds[..|roomUserIds|] == roomUserIds;
    }

    method CheckCreate(req: CreateRequest, user: string, sid: string) returns (ok: bool, invitees: seq<string>)
      ensures ok <==> Admissible(req, user, sid)
      ensures ok <==>
                && sid != "" && req.rid != "" && (req.callType == "audio" || req.callType == "video")
                && req.ttlSeconds > 0 && req.mediaValid
                && (exists u :: u in req.roomUserIds && u != "" && u != user)
                && (req.roomType == Some(GroupRoom) ||
                    (req.roomType == Some(PrivateRoom) && req.areFriends &&
                     |Without(req.roomUserIds, {"", user})| == 1))
      ensures ok ==> invitees == Without(req.roomUserIds, {"", user})
    {
      if sid == "" || req.rid == "" {
        return false, [];
      }
      if req.callType != "audio" && req.callType != "video" {
        return false, [];
      }
      if req.ttlSeconds <= 0 || !req.mediaValid || req.roomType.None? || |req.roomUserIds| == 0 {
        return false, [];
      }
      invitees := Invitees(req.roomUserIds, user);
      assert invitees != [] ==> invitees[0] in invitees;
      if |invitees| == 0 {
        return false, [];
      }
      if req.roomType.value == PrivateRoom {
        if |invitees| != 1 || !req.areFriends {
          return false, [];
        }
      } else if req.roomType.value != GroupRoom {
        return false, [];
      }
      return true, invitees;
    }

    /** callID is the fresh id the handler draws. */
    method CreateCallInvite(req: CreateRequest, user: string, sid: string, callID: string, now: int)
      returns (r: CreateResult)
      requires Valid() && user != "" && callID != "" && callID !in calls.created
      modifies this
      ensures Valid()
      ensures r == Refused <==> !Admissible(req, user, sid)
      ensures r == Refused ==> calls == old(calls)
      ensures r != Refused ==>
                calls == Create(old(calls), callID, NewCall(req, user, now), now) &&
                (r == RoomOccupied <==> RoomBusy(old(calls), req.rid))
      ensures r == Created <==> callID in calls.live
      ensures r == Created ==>
                var c := calls.live[callID];
                && c.rid == req.rid && c.inviter == user && c.createTime == now && c.active == [] && c.rejected == []
                && (c.scene == Friend <==> req.roomType == Some(PrivateRoom))
                && forall u :: u in c.invitees <==> u in req.roomUserIds && u != "" && u != user
    {
      var ok, invitees := CheckCreate(req, user, sid);
      if !ok {
        return Refused;
      }
      var scene := if req.roomType.value == PrivateRoom then Friend else Group;
      NewCallIsAsAsked(req, user, sid, now);
      FreshIsNotLive(calls, callID);
      var created := PlaceCall(Invite(callID, req.rid, scene, user, invitees, now, 0), NewCall(req, user, now), now);
      r := if created then Created else RoomOccupied;
    }

    /** The part of CreateCallInvite after its checks. */
    method PlaceCall(inv: Invite, ghost call: Call, now: int) returns (created: bool)
      requires Valid() && Creatable(calls, inv.callID, call) && inv == InviteOf(inv.callID, call)
      modifies this
      ensures Valid() && calls == Create(old(calls), inv.callID, call, now)
      ensures created <==> !RoomBusy(old(calls), call.rid)
      ensures created <==> inv.callID in calls.live
      ensures created ==> calls.live[inv.callID] == call
    {
      CreateKeeps(calls, inv.callID, call, now);
      FreshIsNotLive(calls, inv.callID);
      created := FreeRoom(inv.rid, inv.inviter, now);
      if created {
        StoreCall(inv, call);
      }
    }

    /** A room has one call at a time: ends the call of the room if nobody takes part in it. */
    method FreeRoom(rid: string, user: string, now: int) returns (free: bool)
      requires Valid()
      modifies this
      ensures free <==> !RoomBusy(old(calls), rid)
      ensures Holds() && (free ==> rid !in roomActive)
      ensures calls == if free && CallOf(old(calls), rid).Some?
                       then End(old(calls), CallOf(old(calls), rid).value, Ended, user, now) else old(calls)
    {
      RoomKey(roomActive, calls, rid);
      if rid !in roomActive {
        return true;
      }
      var activeID := roomActive[rid];
      LiveIsTidy(calls, activeID);
      if activeID == "" {
        assert false; // no call has the empty id
      }
      if activeID in states && !states[activeID].ended && |states[activeID].active| > 0 {
        return false;
      }
      if activeID !in invites {
        assert false; // no stale room pointer
      }
      Finalize(invites[activeID], states[activeID], user, now);
      return true;
    }

    /** Writes the three keys of a new call. */
    method StoreCall(inv: Invite, ghost call: Call)
      requires Holds() && inv == InviteOf(inv.callID, call) && inv.callID !in calls.live && call.rid !in roomActive
      requires call.active == [] && call.rejected == []
      modifies `invites, `states, `roomActive, `calls
      ensures Holds()
      ensures calls == old(calls).(live := old(calls).live[inv.callID := call],
                                   created := old(calls).created + {inv.callID})
    {
      StoredKeys(invites, states, roomActive, calls, inv, call);
      calls := calls.(live := calls.live[inv.callID := call], created := calls.created + {inv.callID});
      invites := invites[inv.callID := inv];
      states := states[inv.callID := FreshState(inv)];
      roomActive := roomActive[inv.rid := inv.callID];
    }

    method CurrentCall(rid: string, now: int) returns (found: Option<Invite>, activeCount: nat)
      requires Valid()
      ensures found.Some? <==> CallOf(calls, rid).Some?
      ensures found.Some? ==> found.value == InviteOf(CallOf(calls, rid).value, calls.live[CallOf(calls, rid).value])
      ensures found.Some? ==> activeCount == |calls.live[CallOf(calls, rid).value].active|
    {
      RoomKey(roomActive, calls, rid);
      if rid !in roomActive {
        return None, 0;
      }
      var callID := roomActive[rid];
      LiveIsTidy(calls, callID);
      if callID == "" || callID !in invites || IsExpired(invites[callID].expireAt, now) || states[callID].ended {
        assert false; // a room pointer leads to a live call
      }
      return Some(invites[callID]), |states[callID].active|;
    }

    /** Whether an invitee may get a join signature. */
    method AcceptCallInvite(uid: string, callID: string, now: int) returns (r: Outcome)
      requires Valid()
      ensures r == Done <==> callID in calls.live && uid in calls.live[callID].invitees
      ensures r == Unauthorized <==> callID in calls.live && uid !in calls.live[callID].invitees
      ensures r == Rejected400 <==> callID !in calls.live
    {
      if callID in invites {
        LiveIsTidy(calls, callID);
      }
      if callID == "" || callID !in invites || IsExpired(invites[callID].expireAt, now) {
        return Rejected400;
      }
      var inv := invites[callID];
      if uid !in inv.invitees {
        return Unauthorized;
      }
      if states[callID].ended || inv.rid !in roomActive || roomActive[inv.rid] != inv.callID {
        assert false; // the room of a live call points to it
      }
      return Done;
    }
  }

  lemma NewCallIsAsAsked(req: CreateRequest, user: string, sid: string, now: int)
    requires Admissible(req, user, sid) && user != ""
    ensures var c := NewCall(req, user, now);
      && CallOk(c) && c.rid == req.rid && c.inviter == user && c.createTime == now && c.active == [] && c.rejected == []
      && (c.scene == Friend <==> req.roomType == Some(PrivateRoom))
      && forall u :: u in c.invitees <==> u in req.roomUserIds && u != "" && u != user
  {
  }

  /** A call as it was asked for, and a hang-up of one of its members: an invitee ends the call exactly in a private
      room, and the inviter always does. */
  method HangUpAfterCreate(store: CallStore, req: CreateRequest, user: string, sid: string, callID: string, now: int,
                           uid: string, later: int)
    returns (r: CreateResult, ended: bool)
    requires store.Valid() && user != "" && callID != "" && callID !in store.calls.created
    modifies store
    ensures store.Valid()
    ensures r == Created && uid in req.roomUserIds && uid != "" && uid != user ==>
              (ended <==> req.roomType == Some(PrivateRoom)) && (ended <==> callID !in store.calls.live)
    ensures r == Created && uid == user ==> ended && callID !in store.calls.live
  {
    r := store.CreateCallInvite(req, user, sid, callID, now);
    ended := false;
    if r == Created {
      var outcome;
      outcome, ended := store.HangupCall(uid, callID, later);
    }
  }

  predicate Admissible(req: CreateRequest, user: string, sid: string)
  {
    var invitees := Without(req.roomUserIds, {"", user});
    && sid != "" && req.rid != "" && req.callType in {"audio", "video"} && req.ttlSeconds > 0 && req.mediaValid
    && invitees != []
    && (req.roomType == Some(GroupRoom) ||
        (req.roomType == Some(PrivateRoom) && |invitees| == 1 && req.areFriends))
  }

  function NewCall(req: CreateRequest, user: string, now: int): Call
  {
    Call(req.rid, if req.roomType == Some(PrivateRoom) then Friend else Group, user,
         Without(req.roomUserIds, {"", user}), now, [], [])
  }
}
