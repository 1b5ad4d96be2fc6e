/** Who is told about a room message: the recipients and acknowledgement rows of notifycoord/room.go, the grouping by
    node of push/presence.go and the per-node deliveries of push/fanout.go. Presence is a read-only map. */
module Fanout {
  import opened Lists
  import opened Options

  datatype Message = Message(rid: string, mid: string, seqId: int, sender: string)

  /** room_message_ack, as created */
  datatype Ack = Ack(rid: string, uid: string, mid: string, seqId: int, isOffline: bool)

  datatype Delivery = Delivery(node: string, mid: string, targets: seq<string>)

  type Presence = map<string, string>

  /** The node of a user, "" when there is none. */
  function Node(presence: Presence, uid: string): string
  {
    if uid != "" && uid in presence then presence[uid] else ""
  }

  // ---------- Recipients ----------

  /** An empty include list includes everyone. */
  predicate Passes(uid: string, included: set<string>, excluded: set<string>)
  {
    uid != "" && uid !in excluded && (included == {} || uid in included)
  }

  function Filtered(uids: seq<string>, included: set<string>, excluded: set<string>): seq<string>
  {
    if uids == [] then []
    else
      var rest := Filtered(uids[..|uids| - 1], included, excluded);
      if Passes(uids[|uids| - 1], included, excluded) then rest + [uids[|uids| - 1]] else rest
  }

  method NonEmptySet(uids: seq<string>) returns (s: set<string>)
    ensures s == Elements(uids) - {""}
  {
    s := {};
    for i := 0 to |uids|
      invariant s == Elements(uids[..i]) - {""}
    {
      assert uids[..i + 1] == uids[..i] + [uids[i]];
      if uids[i] != "" {
        s := s + {uids[i]};
      }
    }
    assert uids[..|uids|] == uids;
  }

  method FilterRoomRecipients(roomUserIds: seq<string>, included: seq<string>, excluded: seq<string>)
    returns (recipients: seq<string>)
    ensures recipients == Filtered(roomUserIds, Elements(included) - {""}, Elements(excluded) - {""})
  {
    var includeSet := NonEmptySet(included);
    var excludeSet := NonEmptySet(excluded);
    var useInclude := |includeSet| > 0;
    recipients := [];
    for i := 0 to |roomUserIds|
      invariant recipients == Filtered(roomUserIds[..i], includeSet, excludeSet)
    {
      assert roomUserIds[..i + 1][..i] == roomUserIds[..i];
      var uid := roomUserIds[i];
      if uid == "" || uid in excludeSet {
        continue;
      }
      if useInclude && uid !in includeSet {
        continue;
      }
      recipients := recipients + [uid];
    }
    assert roomUserIds[..|roomUserIds|] == roomUserIds;
  }

  /** The second filter overwrites the front of the array it reads from. */
  method DropInPlace(a: array<string>, blocked: set<string>) returns (n: nat)
    modifies a
    ensures n <= a.Length && a[..n] == Without(old(a[..]), blocked)
  {
    n := 0;
    ghost var before := a[..];
    for i := 0 to a.Length
      invariant n <= i && a[i..] == before[i..]
      invariant a[..n] == Without(before[..i], blocked)
    {
      WithoutStep(before, i, blocked);
      assert a[i] == a[i..][0] == before[i];
      assert a[i + 1..] == a[i..][1..] == before[i + 1..];
      if a[i] !in blocked {
        a[n] := a[i];
        n := n + 1;
        assert a[..n] == a[..n - 1] + [before[i]];
      }
    }
    assert before[..a.Length] == before;
  }

  lemma {:induction false} WithoutNothing(s: seq<string>)
    ensures Without(s, {}) == s
  {
    if s != [] {
      WithoutNothing(s[..|s| - 1]);
    }
  }

  /** Who is told: the members that pass the lists, except the sender, those who blocked the room and those who
      blocked the sender. */
  function Recipients(m: Message, members: seq<string>, included: seq<string>, excluded: seq<string>,
                      roomBlockers: seq<string>, senderBlockers: seq<string>): seq<string>
  {
    Without(Filtered(members, Elements(included) - {""}, Elements(excluded + roomBlockers + [m.sender]) - {""}),
            Elements(senderBlockers))
  }

  function AckOf(m: Message, uid: string, presence: Presence): Ack
  {
    Ack(m.rid, uid, m.mid, m.seqId, uid !in presence)
  }

  /** cached and refreshed are the member list before and after a refresh of the cache. */
  method PrepareRoomMessageNotify(message: Option<Message>, cached: seq<string>, refreshed: seq<string>,
                                  included: seq<string>, excluded: seq<string>, roomBlockers: seq<string>,
                                  senderBlockers: seq<string>, presence: Presence)
    returns (recipients: seq<string>, acks: seq<Ack>)
    ensures message.None? ==> recipients == []
    ensures message.Some? ==>
              recipients == Recipients(message.value, if cached == [] then refreshed else cached, included, excluded,
                                       roomBlockers, senderBlockers)
    ensures |acks| == |recipients|
    ensures message.Some? ==> forall i :: 0 <= i < |acks| ==> acks[i] == AckOf(message.value, recipients[i], presence)
    ensures message.Some? ==> forall i :: 0 <= i < |acks| ==>
              && acks[i].uid == recipients[i] && acks[i].mid == message.value.mid && acks[i].rid == message.value.rid
              && acks[i].seqId == message.value.seqId && (acks[i].isOffline <==> recipients[i] !in presence)
  {
    if message.None? {
      return [], [];
    }
    var m := message.value;
    var roomUserIds := if |cached| == 0 then refreshed else cached;
    if |roomUserIds| == 0 {
      return [], [];
    }
    var excludes := excluded + roomBlockers;
    if m.sender != "" {
      excludes := excludes + [m.sender];
    }
    assert Elements(excludes) - {""} == Elements(excluded + roomBlockers + [m.sender]) - {""};
    recipients := FilterRoomRecipients(roomUserIds, included, excludes);
    recipients := DropBlockers(recipients, senderBlockers);
    acks := MakeAcks(m, recipients, presence);
  }

  method DropBlockers(recipients: seq<string>, senderBlockers: seq<string>) returns (kept: seq<string>)
    ensures kept == Without(recipients, Elements(senderBlockers))
  {
    if |senderBlockers| == 0 {
      WithoutNothing(recipients);
      assert Elements(senderBlockers) == {};
      return recipients;
    }
    var a := new string[|recipients|](i requires 0 <= i < |recipients| => recipients[i]);
    assert a[..] == recipients;
    var n := DropInPlace(a, Elements(senderBlockers));
    return a[..n];
  }

  method MakeAcks(m: Message, recipients: seq<string>, presence: Presence) returns (acks: seq<Ack>)
    ensures |acks| == |recipients|
    ensures forall i :: 0 <= i < |acks| ==> acks[i] == AckOf(m, recipients[i], presence)
    ensures forall i :: 0 <= i < |acks| ==>
              && acks[i].uid == recipients[i] && acks[i].mid == m.mid && acks[i].rid == m.rid
              && acks[i].seqId == m.seqId && (acks[i].isOffline <==> recipients[i] !in presence)
  {
    acks := [];
    for i := 0 to |recipients|
      invariant |acks| == i
      invariant forall k :: 0 <= k < i ==> acks[k] == AckOf(m, recipients[k], presence)
    {
      acks := acks + [AckOf(m, recipients[i], presence)];
    }
  }

  /** Each member passes or not on their own, and the order stays. */
  lemma {:induction false} FilteredAppend(a: seq<string>, b: seq<string>, u: string, included: set<string>,
                                          excluded: set<string>)
    ensures Filtered(a + b, included, excluded) == Filtered(a, included, excluded) + Filtered(b, included, excluded)
    ensures Filtered([u], included, excluded) ==
            if u != "" && u !in excluded && (included == {} || u in included) then [u] else []
  {
    if b == [] {
      assert a + b == a;
    } else {
      assert (a + b)[..|a + b| - 1] == a + b[..|b| - 1];
      FilteredAppend(a, b[..|b| - 1], u, included, excluded);
    }
  }

  // ---------- Grouping and delivery ----------

  function OnNode(uids: seq<string>, presence: Presence, node: string): (r: seq<string>)
    ensures forall u :: u in r <==> u in uids && Node(presence, u) == node
  {
    if uids == [] then []
    else
      var rest := OnNode(uids[..|uids| - 1], presence, node);
      if Node(presence, uids[|uids| - 1]) == node then rest + [uids[|uids| - 1]] else rest
  }

  /** The groups by node of some distinct users. */
  ghost predicate IsGrouping(uids: seq<string>, presence: Presence, groups: map<string, seq<string>>)
  {
    && (forall node :: node in groups <==> node != "" && OnNode(uids, presence, node) != [])
    && (forall node :: node in groups ==> groups[node] == OnNode(uids, presence, node))
  }

  /** The groups after one more user. */
  function Grouped(groups: map<string, seq<string>>, node: string, uid: string): map<string, seq<string>>
  {
    if node == "" then groups else groups[node := (if node in groups then groups[node] else []) + [uid]]
  }

  method GroupUidsByNode(uids: seq<string>, presence: Presence) returns (out: map<string, seq<string>>)
    ensures IsGrouping(Dedup(uids), presence, out)
  {
    var seen: set<string> := {};
    out := map[];
    for i := 0 to |uids|
      invariant seen == Elements(Dedup(uids[..i]))
      invariant IsGrouping(Dedup(uids[..i]), presence, out)
    {
      var uid := uids[i];
      DedupStep(uids, i);
      if uid == "" || uid in seen {
        continue;
      }
      seen := seen + {uid};
      var node := Node(presence, uid);
      GroupOneMore(Dedup(uids[..i]), presence, out, uid);
      if node == "" {
        continue;
      }
      out := Grouped(out, node, uid);
    }
    assert uids[..|uids|] == uids;
  }

  lemma DedupStep(uids: seq<string>, i: nat)
    requires i < |uids|
    ensures var before := Dedup(uids[..i]);
      Dedup(uids[..i + 1]) == if uids[i] == "" || uids[i] in Elements(before) then before else before + [uids[i]]
    ensures Elements(Dedup(uids[..i]) + [uids[i]]) == Elements(Dedup(uids[..i])) + {uids[i]}
  {
    assert uids[..i + 1][..i] == uids[..i];
  }

  /** A group holds exactly the users of its node, each once, and no group is empty. */
  lemma GroupsAre(uids: seq<string>, presence: Presence, groups: map<string, seq<string>>, node: string)
    requires IsGrouping(Dedup(uids), presence, groups)
    ensures node in groups <==> node != "" && exists u :: u in uids && u != "" && u in presence && presence[u] == node
    ensures node in groups ==> Distinct(groups[node])
    ensures node in groups ==>
              forall u :: u in groups[node] <==> u in uids && u != "" && u in presence && presence[u] == node
  {
    OnNodeDistinct(Dedup(uids), presence, node);
    var group := OnNode(Dedup(uids), presence, node);
    assert forall u :: node != "" && u in uids && u != "" && u in presence && presence[u] == node ==> u in group;
    if group != [] {
      assert group[0] in group;
    }
  }

  lemma GroupOneMore(uids: seq<string>, presence: Presence, groups: map<string, seq<string>>, uid: string)
    requires IsGrouping(uids, presence, groups)
    ensures IsGrouping(uids + [uid], presence, Grouped(groups, Node(presence, uid), uid))
  {
    assert (uids + [uid])[..|uids|] == uids;
  }

  predicate Serves(deliveries: seq<Delivery>, node: string)
  {
    exists d :: 0 <= d < |deliveries| && deliveries[d].node == node
  }

  /** No node is served twice, and each delivery carries exactly the recipients of its node. */
  ghost predicate AreDeliveries(uids: seq<string>, presence: Presence, mid: string, deliveries: seq<Delivery>)
  {
    && (forall d, e :: 0 <= d < e < |deliveries| ==> deliveries[d].node != deliveries[e].node)
    && (forall d :: 0 <= d < |deliveries| ==>
          && deliveries[d].node != "" && deliveries[d].mid == mid
          && deliveries[d].targets == OnNode(uids, presence, deliveries[d].node))
  }

  predicate HasRecipients(uids: seq<string>, presence: Presence, node: string)
  {
    node != "" && OnNode(uids, presence, node) != []
  }

  /** Deliveries to every node with recipients. */
  ghost predicate IsFanout(uids: seq<string>, presence: Presence, mid: string, deliveries: seq<Delivery>)
  {
    && AreDeliveries(uids, presence, mid, deliveries)
    && (forall node :: HasRecipients(uids, presence, node) ==> Serves(deliveries, node))
  }

  lemma ServesMore(deliveries: seq<Delivery>, d: Delivery)
    ensures forall node :: Serves(deliveries, node) ==> Serves(deliveries + [d], node)
  {
    forall node | Serves(deliveries, node) ensures Serves(deliveries + [d], node) {
      var k :| 0 <= k < |deliveries| && deliveries[k].node == node;
      assert (deliveries + [d])[k].node == node;
    }
  }

  /** down are the nodes to which publishing fails; the first such node ends the loop. The fan-out is complete exactly
      when no node with recipients is down, and otherwise what was delivered is still right. */
  method FanoutRoomMessageDelivery(mid: string, recipientUids: seq<string>, presence: Presence, down: set<string>)
    returns (deliveries: seq<Delivery>, ok: bool)
    ensures mid == "" ==> deliveries == [] && ok
    ensures mid != "" ==> AreDeliveries(Dedup(recipientUids), presence, mid, deliveries)
    ensures forall node :: node in down ==> !Serves(deliveries, node)
    ensures mid != "" ==> (ok <==> forall node :: node in down ==> !HasRecipients(Dedup(recipientUids), presence, node))
    ensures mid != "" ==> (ok <==> IsFanout(Dedup(recipientUids), presence, mid, deliveries))
  {
    deliveries := [];
    if mid == "" {
      return deliveries, true;
    }
    var groups := GroupUidsByNode(recipientUids, presence);
    var nodes := groups.Keys;
    while nodes != {}
      invariant nodes <= groups.Keys
      invariant Delivered(deliveries, mid, groups, groups.Keys - nodes)
      invariant down !! (groups.Keys - nodes)
    {
      var node :| node in nodes;
      if |groups[node]| > 0 {
        if node in down {
          assert HasRecipients(Dedup(recipientUids), presence, node);
          return deliveries, false;
        }
        DeliveredMore(deliveries, mid, groups, groups.Keys - nodes, node);
        deliveries := deliveries + [Delivery(node, mid, groups[node])];
      }
      nodes := nodes - {node};
      assert groups.Keys - nodes == groups.Keys - (nodes + {node}) + {node};
    }
    return deliveries, true;
  }

  /** The nodes that were served so far, each with its group. */
  ghost predicate Delivered(deliveries: seq<Delivery>, mid: string, groups: map<string, seq<string>>,
                            served: set<string>)
  {
    && (forall d, e :: 0 <= d < e < |deliveries| ==> deliveries[d].node != deliveries[e].node)
    && (forall d :: 0 <= d < |deliveries| ==>
          && deliveries[d].node in served && deliveries[d].node in groups
          && deliveries[d].mid == mid && deliveries[d].targets == groups[deliveries[d].node])
    && (forall node :: node in served ==> Serves(deliveries, node))
  }

  lemma DeliveredMore(deliveries: seq<Delivery>, mid: string, groups: map<string, seq<string>>, served: set<string>,
                      node: string)
    requires Delivered(deliveries, mid, groups, served) && node in groups && node !in served
    ensures Delivered(deliveries + [Delivery(node, mid, groups[node])], mid, groups, served + {node})
  {
    var d := Delivery(node, mid, groups[node]);
    ServesMore(deliveries, d);
    assert (deliveries + [d])[|deliveries|].node == node;
  }

  // ---------- Main results ----------

  predicate Eligible(m: Message, uid: string, included: seq<string>, excluded: seq<string>,
                     roomBlockers: seq<string>, senderBlockers: seq<string>)
  {
    && uid != "" && uid != m.sender
    && ((forall u :: u in included ==> u == "") || uid in included)
    && uid !in excluded && uid !in roomBlockers && uid !in senderBlockers
  }

  lemma {:induction false} FilteredCount(uids: seq<string>, included: set<string>, excluded: set<string>, u: string)
    ensures multiset(Filtered(uids, included, excluded))[u] ==
            if Passes(u, included, excluded) then multiset(uids)[u] else 0
  {
    if uids != [] {
      assert uids == uids[..|uids| - 1] + [uids[|uids| - 1]];
      FilteredCount(uids[..|uids| - 1], included, excluded, u);
    }
  }

  lemma {:induction false} WithoutCount(uids: seq<string>, banned: set<string>, u: string)
    ensures multiset(Without(uids, banned))[u] == if u in banned then 0 else multiset(uids)[u]
  {
    if uids != [] {
      assert uids == uids[..|uids| - 1] + [uids[|uids| - 1]];
      WithoutCount(uids[..|uids| - 1], banned, u);
    }
  }

  /** Every eligible user is told as often as the member list names them, so a member is told once; nobody else is. */
  lemma EachEligibleMemberOnce(m: Message, members: seq<string>, included: seq<string>, excluded: seq<string>,
                               roomBlockers: seq<string>, senderBlockers: seq<string>, u: string)
    ensures multiset(Recipients(m, members, included, excluded, roomBlockers, senderBlockers))[u] ==
              if Eligible(m, u, included, excluded, roomBlockers, senderBlockers) then multiset(members)[u] else 0
  {
    var inc := Elements(included) - {""};
    var exc := Elements(excluded + roomBlockers + [m.sender]) - {""};
    FilteredCount(members, inc, exc, u);
    WithoutCount(Filtered(members, inc, exc), Elements(senderBlockers), u);
    if inc != {} {
      var x :| x in inc;
      assert x in included && x != "";
    } else {
      forall x | x in included ensures x == "" {
        assert x in inc || x == "";
      }
    }
    assert u in exc <==> u != "" && (u in excluded || u in roomBlockers || u == m.sender);
  }

  lemma {:induction false} OnNodeDistinct(uids: seq<string>, presence: Presence, node: string)
    requires Distinct(uids)
    ensures Distinct(OnNode(uids, presence, node))
  {
    if uids != [] {
      OnNodeDistinct(uids[..|uids| - 1], presence, node);
    }
  }

  predicate Targets(deliveries: seq<Delivery>, d: nat, i: nat, u: string)
  {
    d < |deliveries| && i < |deliveries[d].targets| && deliveries[d].targets[i] == u
  }

  lemma TargetIsRecipient(recipients: seq<string>, presence: Presence, mid: string, deliveries: seq<Delivery>,
                          d: nat, i: nat, u: string)
    requires AreDeliveries(Dedup(recipients), presence, mid, deliveries) && Targets(deliveries, d, i, u)
    ensures u in recipients && Node(presence, u) == deliveries[d].node != ""
    ensures u != "" && u in presence && presence[u] == deliveries[d].node
  {
    assert u in OnNode(Dedup(recipients), presence, deliveries[d].node);
  }

  /** A recipient with a node is a target, in the delivery of that node; nobody else is a target. */
  lemma RecipientsAreTargeted(recipients: seq<string>, presence: Presence, mid: string, deliveries: seq<Delivery>,
                              u: string)
    requires IsFanout(Dedup(recipients), presence, mid, deliveries)
    ensures (exists d: nat, i: nat :: Targets(deliveries, d, i, u)) <==>
            u in recipients && u != "" && u in presence && presence[u] != ""
  {
    forall d: nat, i: nat | Targets(deliveries, d, i, u) ensures u in recipients && Node(presence, u) != "" {
      TargetIsRecipient(recipients, presence, mid, deliveries, d, i, u);
    }
    if u in recipients && Node(presence, u) != "" {
      assert HasRecipients(Dedup(recipients), presence, Node(presence, u));
      var node := Node(presence, u);
      var targets := OnNode(Dedup(recipients), presence, node);
      assert u in targets;
      assert Serves(deliveries, node);
      var d :| 0 <= d < |deliveries| && deliveries[d].node == node;
      assert deliveries[d].targets == targets;
      var i :| 0 <= i < |targets| && targets[i] == u;
      assert Targets(deliveries, d, i, u);
    }
  }

  /** No one is a target twice, in one delivery or in two. */
  lemma TargetedOnce(recipients: seq<string>, presence: Presence, mid: string, deliveries: seq<Delivery>,
                     d: nat, i: nat, e: nat, j: nat, u: string)
    requires AreDeliveries(Dedup(recipients), presence, mid, deliveries)
    requires Targets(deliveries, d, i, u) && Targets(deliveries, e, j, u)
    ensures d == e && i == j
  {
    TargetIsRecipient(recipients, presence, mid, deliveries, d, i, u);
    TargetIsRecipient(recipients, presence, mid, deliveries, e, j, u);
    OnNodeDistinct(Dedup(recipients), presence, deliveries[d].node);
  }
}
