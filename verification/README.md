# Verified model of the chat and call server

The server accepts QUIC connections, watches them by heartbeats, stores and distributes room messages and runs
media calls whose state lives in Redis. This project models the parts of it that keep state over time and proves what
holds over every run, every interleaving or every input. `dafny verify dfyconfig.toml` checks all of it.

| file | component | main result |
|---|---|---|
| `Heartbeat.dfy` | indexed min-heap of heartbeats, mirrored by a map | a sweep evicts exactly overdue clients, oldest first; the monitoring count is exact only when the overdue clients fill the first slots |
| `HeartbeatKey.dfy` | `uid\|sid\|connID` keys | printing and parsing a key is a round trip exactly when both ids are non-empty and free of the separator |
| `ClientRegistry.dfy`, `Connections.dfy`, `ConnectionRuns.dfy` | live connections under late, out-of-order events | a registered connection is never unmonitored; a connection dropped by timeout had not been heard of for more than the timeout; connects, closes and timeouts are carried out; a connection that left never comes back and late events of it change nothing; it leaves no heartbeat entry unless a racing registration overwrote it or a heartbeat of it comes late |
| `Calls.dfy`, `CallLaws.dfy`, `MediaCalls.dfy` | media calls, and the Redis keys that hold them | the keys always mean a consistent set of calls; exactly which operations end a call, and how that is recorded; every call is live or recorded exactly once; one branch of the hang-up handler cannot be reached |
| `Framing.dfy` | length-prefixed AEAD frames | every chunking of a stream, corrupt frames included, yields one packet for each frame in order, if and only if none opens to an empty plaintext |
| `RoomSeq.dfy` | room sequence numbers | numbers drawn by any interleaving of callers are consecutive and newer than everything stored before |
| `MessageInsert.dfy` | idempotent message creation | at most one row and one event per client message id, in every interleaving, and every row is announced |
| `RateLimit.dfy` | fixed-window frequency limit | with at most k messages of the user under way at a time, a window holds at most maximum + k - 1 messages and a span of one window length twice that, and both are reached; the maximum itself is kept if and only if it is at least 1 and k is 1 |
| `Fanout.dfy` | recipients, acknowledgement rows, per-node deliveries | every eligible member once, in the delivery of their node; nobody else |
| `SessionList.dfy`, `LastMessage.dfy` | keyset pagination; cached last messages; unread counts | the pages list every session once in sorted order; the unread counts on all pages, cached or not, add up to the uncached total |
| `Rooms.dfy`, `Membership.dfy` | membership of a group room | count, cache, sessions and roles always agree with the members; who may change what, by rank and creator; the owner role can be lost in exactly one way |

Code that changes state step by step is modelled by classes and methods (`Heartbeat`, `ClientRegistry.Registry`,
`MediaCalls.CallStore`, `Framing.FourByteProtocol`, `RateLimit.FrequencyLimiter`, `Membership.RoomStore`,
`LastMessage.MessageStore`, loops in `Fanout` and `SessionList`). Each method is proved against a function on values,
and what the server promises is proved about those functions over whole runs. Where several goroutines interleave between Redis,
database or registry calls (`Connections`, `RoomSeq`, `MessageInsert`), every such call is one step of a state machine,
and an invariant is proved for all sequences of steps.

Where the code does not do what it says or seems to do:

- quic/heartbeat/manager.go:222-224 takes the heap array to be sorted. It is not: after the calls of
  `Heartbeat.ScanMissesOverdueClient` one of two overdue clients is counted, and `Heartbeat.Manager.GetTimeoutCount` says exactly when the count is right.
- http/handler/media/stream.go:823-825 and 854 say that a room call ends when all members have hung up. It does not: the
  inviter is never in the list that is counted, so the branch at 862-883 is dead (`MediaCalls.CallStore.HangUpAlone`).
- quic/handler/protocol/four-yte_protocol.go:40-67 returns a nil slice for a frame with an empty payload, which its caller
  takes for an incomplete frame; `Framing.AnyChunkingYields` has non-empty plaintexts as its exact condition.
- quic/server/server.go:450-482 looks for an earlier connection and registers the new one in two steps. When two connections of
  one user race, the overwritten one keeps its heartbeat entry (`Connections.OverwrittenKeepsEntry`); apart from
  late heartbeats that is the only way (`Connections.LeftLeavesNoEntry`).
- http/handler/room/room.go:915-938 lets a creator change their own role, after which a room has no owner for good
  (`Rooms.OwnerRemains`, `Rooms.OwnerCanBeLost`).
- quic/handler/message_handler.go:139 handles every message in a goroutine of its own, and a message is checked at 531 but credited
  only at 633. Messages that are checked together all pass: no number of messages bounds a window unless the number under way
  is bounded (`RateLimit.WindowBoundIsReached`, for every k).
- db/query/room_mute.go:64-86 accepts fractions and cuts them off. An interval below 1 then limits nothing
  (`RateLimit.ParsedRule`), and a maximum below 1 still admits a message. A rule keeps every window within its maximum if and
  only if the maximum is at least 1 and messages are handled one at a time (`RateLimit.MaximumIsKept`).
- http/handler/media/stream.go:260-273 leaves the call that a user's pointer names. A user in two calls has one pointer: after leaving the
  first call there is none, and going offline leaves them in the second (`Calls.OfflineCanMiss`). `Calls.PointerIsKept` says exactly
  which steps take a pointer.
- quic/handler/message_handler.go:99-102 looks at the error of a read before the bytes it returned. Bytes that come together
  with the end of the stream are dropped; `Framing.FailedReadLosesFrames` says exactly when that loses packets.
- db/query/room_session.go:701-821 fills the cache of last messages some time after it looked them up. When a newer message is stored in
  between, the old one comes back (`LastMessage.LateFillIsStale`).

## Model

| member | source | states |
|---|---|---|
| Heartbeat.HeartbeatHeap.Swap | quic/heartbeat/manager.go:23-27 | exchanges two slots so that every entry, also the two moved ones, still stores its own slot and none is lost |
| Heartbeat.HeartbeatHeap.Push | quic/heartbeat/manager.go:29-34 | adding an entry keeps heap order and slot numbers and loses no entry (container/heap Push) |
| Heartbeat.HeartbeatHeap.Up | quic/heartbeat/manager.go:18-34 | sifting up repairs a heap that is out of order only above one slot, touching nothing beyond the heap part |
| Heartbeat.HeartbeatHeap.Down | quic/heartbeat/manager.go:18-44 | sifting down repairs the heap if the entry moved, and otherwise leaves at most the edge above the slot out of order |
| Heartbeat.HeartbeatHeap.DropLast | quic/heartbeat/manager.go:36-44 | the slice's own Pop takes the last slot, and what remains is a heap without that entry |
| Heartbeat.HeartbeatHeap.Pop | quic/heartbeat/manager.go:36-44 | removes exactly the root entry and leaves a heap |
| Heartbeat.HeartbeatHeap.Fix | quic/heartbeat/manager.go:72-93 | one changed time anywhere in the heap is repaired, with the same entries |
| Heartbeat.HeartbeatHeap.Remove | quic/heartbeat/manager.go:96-108 | removes exactly the entry of one slot and leaves a heap |
| Heartbeat.Manager.constructor | quic/heartbeat/manager.go:59-69 | a new manager tracks nobody and sweeps at most 100 clients at a time |
| Heartbeat.Manager.UpdateHeartbeat | quic/heartbeat/manager.go:72-93 | sets the last heartbeat of one client, new or known, leaves all others, and keeps map and heap one to one; under a clock that does not run backwards a new client takes the last slot |
| Heartbeat.Manager.RemoveClient | quic/heartbeat/manager.go:96-108 | forgets exactly one client, in the map and in the heap; an unknown client changes nothing |
| Heartbeat.Manager.GetLastHeartbeat | quic/heartbeat/manager.go:111-120 | finds a client exactly when it is tracked, with its last time |
| Heartbeat.Manager.CheckTimeouts | quic/heartbeat/manager.go:149-181 | evicts only strictly overdue clients, each once, oldest first, at most one batch, and nobody older stays; with fewer than a batch nobody overdue stays |
| Heartbeat.Manager.EvictOldest | quic/heartbeat/manager.go:166-173 | the client that leaves has the least time of all tracked clients |
| Heartbeat.Manager.GetStats | quic/heartbeat/manager.go:197-206 | the number of tracked clients and the least of their times |
| Heartbeat.Manager.GetTimeoutCount | quic/heartbeat/manager.go:209-229 | never more than the clients silent for longer than the threshold, zero only when there are none, and their number exactly when no other client's slot precedes theirs |
| Heartbeat.ScanMissesOverdueClient | quic/heartbeat/manager.go:209-229 | four heartbeats after which the manager counts one client as overdue where two are |
| Heartbeat.RootIsLeast | quic/heartbeat/manager.go:18-22 | heap order alone makes slot 0 the least of all times |
| Heartbeat.PrefixCount | quic/heartbeat/manager.go:218-228 | the length of the overdue prefix of a heap array is a lower bound of all overdue clients, with the exact condition for equality |
| Heartbeat.EvictOneMore | quic/heartbeat/manager.go:155-175 | evicting a further oldest overdue client extends a correct eviction list |
| HeartbeatKey.ParseKeyOfClientKey | quic/server/server.go:72-104 | for every 64-bit connection id, parsing a printed key gives the connection back if and only if uid and sid are non-empty and free of the separator |
| HeartbeatKey.ParseKeyOfPrintedParts | quic/server/server.go:91-104 | among separator-free ids the parser refuses exactly the keys with an empty uid or sid |
| HeartbeatKey.ParseHexOfHexPad | quic/server/server.go:72-76 | the 16-digit hexadecimal print of a 64-bit number parses back to it, without overflow |
| HeartbeatKey.HexDigits | quic/server/server.go:72-76 | every digit of the print has its place value, in lower case |
| HeartbeatKey.KeyLayout | quic/server/server.go:72-79 | a key is uid, sid and 16 digits in this order, separated by bars, and extends the legacy key |
| HeartbeatKey.ParseKeyOfLegacyKey | quic/server/server.go:77-104 | a legacy key parses to its uid and sid and names no connection |
| HeartbeatKey.KeysAreDistinct | quic/server/server.go:72-90 | different connections have different keys, and no connection's key is a legacy key |
| HeartbeatKey.SplitAtFirst | quic/server/server.go:91-92 | splitting at the separator cuts at its first occurrence and keeps the rest whole |
| HeartbeatKey.IndexOf | quic/server/server.go:91-92 | the position of the first separator, or the length of the string when there is none |
| HeartbeatKey.SplitCutsId | quic/server/server.go:91-92 | an id that contains the separator comes back shorter |
| ClientRegistry.Registry.Register | quic/server/client_registry.go:28-35 | the new connection becomes the user's only one, whatever was there before; other users are untouched |
| ClientRegistry.Registry.IsCurrentConn | quic/server/client_registry.go:39-50 | true exactly when uid, sid and a non-zero connection id all match the registered connection |
| ClientRegistry.Registry.RemoveIfMatch | quic/server/client_registry.go:53-65 | removes and returns the connection exactly when it is the current one under the same test, else changes nothing |
| Connections.RunKeeps | quic/server/server.go:224-365 | the next call of any goroutine, wherever it stands, keeps the invariant |
| Connections.StepKeeps | quic/server/server.go:202-365 | every step of every goroutine keeps the invariant over registry, heartbeat table, waiting events and log |
| Connections.RunKeepsInvariant | quic/server/server.go:202-365 | the invariant holds after any interleaving of connects, heartbeats, sweeps, closes and handler calls |
| Connections.ConnectKeeps | quic/server/server.go:450-482 | accepting a connection with a fresh id keeps the invariant |
| Connections.RegisterStepKeeps | quic/server/server.go:277-281 | registering keeps it, also when it overwrites a connection that registered in between |
| Connections.BeatStepKeeps | quic/server/server.go:285-288 | the first heartbeat of a registration keeps it |
| Connections.HeartbeatKeeps | quic/server/server.go:202-221 | a heartbeat event, however late, keeps it: it enters the time of its connection and changes nothing else |
| Connections.SweepKeeps | quic/heartbeat/manager.go:149-194 | a timeout sweep keeps it: every evicted key gets a timeout of its own |
| Connections.RemoveStepKeeps | quic/server/server.go:293-297 | removing a named connection keeps it, for a close, a timeout or a replacement |
| Connections.PurgeStepKeeps | quic/server/server.go:81-90 | removing the heartbeat keys of one connection never takes the entry of another registered one |
| Connections.TimeoutStepKeeps | quic/server/server.go:343-365 | turning a timed-out key into an event names exactly the connection that the key was printed for |
| Connections.EventStepKeeps | quic/server/server.go:224-261 | handling a close or timeout event keeps it |
| Connections.RegisteredIsMonitored | quic/server/server.go:277-290 | in every run, a registered connection is in the heartbeat table, is about to be entered, or has a timeout or close of exactly this connection on its way |
| ConnectionRuns.DroppedWasUnheard | quic/heartbeat/manager.go:149-181 | in every run, a connection dropped by timeout was evicted by a sweep of the run when its last heartbeat event or registration step was strictly more than the timeout ago |
| ConnectionRuns.SweepEvictsUnheard | quic/heartbeat/manager.go:149-181 | in every run, a sweep evicts only connections whose last heartbeat event or registration step is strictly more than the timeout ago |
| ConnectionRuns.SweepFindsUnheard | quic/heartbeat/manager.go:162-181 | in every run, a sweep below the batch size evicts every entry whose connection was last heard of more than the timeout ago |
| ConnectionRuns.BeatsAreHeard | quic/server/server.go:202-221 | in every run, an entry of the heartbeat table is the time of the last heartbeat event or registration step of its connection |
| ConnectionRuns.HeardIsEntered | quic/heartbeat/manager.go:72-93 | a heartbeat event and the end of a registration enter their time, and no other step changes the entry of a connection |
| ConnectionRuns.CloseIsCarriedOut | quic/server/server.go:224-236 | in every run, after a close event of a registered connection and once all goroutines have finished, the connection is not in the registry |
| ConnectionRuns.TimeoutIsCarriedOut | quic/server/server.go:250-261 | in every run, after a sweep that evicts a registered connection and once all goroutines have finished, the connection is not in the registry, later heartbeats or not |
| ConnectionRuns.ConnectIsCarriedOut | quic/server/server.go:450-503 | in every run, after a connection was accepted and once all goroutines have finished, it is in the registry or the log says how it left |
| ConnectionRuns.ReplacementIsCarriedOut | quic/server/server.go:308-340 | without a race, a newcomer's earlier connection is removed and its heartbeat keys are gone before the newcomer registers |
| ConnectionRuns.CallAdvances | quic/server/server.go:277-365 | every call brings its goroutine closer to its end and leaves all others where they are |
| ConnectionRuns.CanFinish | quic/server/server.go:277-365 | from every state all goroutines can finish |
| ConnectionRuns.LegacyTimeout | quic/server/server.go:349-357 | a timed-out key without connection id names the user's current connection if the session is the same, and otherwise is only cleared |
| ConnectionRuns.SweepTakesEvicted | quic/heartbeat/manager.go:162-181 | a sweep takes exactly the evicted entries out of the table |
| ConnectionRuns.SweepIsPossible | quic/heartbeat/manager.go:149-181 | in every state and at any time a sweep can happen, and evicts somebody if anybody is overdue |
| ConnectionRuns.PurgeTakesKeys | quic/server/server.go:81-90 | removing the keys of a connection takes its own key and its legacy key, and no other |
| Connections.LogExplainsRegistry | quic/server/client_registry.go:28-65 | in every run, replaying registrations and departures gives the registry, and every departure has a cause that justifies it |
| Connections.LeavesOnlyWhenNamed | quic/server/client_registry.go:53-65 | in every run, a connection leaves only in a step that carries its own uid, sid and connID, or for a newer connection of the same user |
| Connections.StepKeepsGone | quic/server/client_registry.go:28-65 | every step keeps that a connection that left had registered, is not current and left only once |
| Connections.LeftNeverReturns | quic/server/client_registry.go:28-65 | in every run, a connection that has left the registry, in whatever way, is never current again |
| Connections.LateEventChangesNothing | quic/server/server.go:224-306 | in every run, once a connection has left, a late close, timeout or unregister call that names it changes nothing but its own goroutine |
| Connections.LeavesAtMostOnce | quic/server/client_registry.go:53-65 | in every run, each connection leaves at most once |
| Connections.RemovedLeavesNoEntry | quic/server/server.go:293-306 | in every run, a removed and purged connection has no heartbeat entry left, unless a heartbeat of it arrived after its removal |
| Connections.LeftLeavesNoEntry | quic/server/server.go:277-306 | in every run, a connection that left in any way has no heartbeat entry, unless its keys are about to be removed, a heartbeat of it came later, or a registration overwrote it |
| Connections.OverwrittenKeepsEntry | quic/server/server.go:277-290 | for any two connections of one user there is a run in which both register at once, every goroutine finishes, and the entry of the overwritten one stays |
| Calls.StepKeeps | http/handler/media/stream.go:214-885 | every operation keeps the global invariant of the calls |
| Calls.RunKeepsInvariant | http/handler/media/stream.go:214-885 | in every run there is one live call per room, user pointers lead to live calls the user is in, participant and rejection lists have no repeats and only members |
| Calls.EveryCallIsLiveOrRecordedOnce | http/handler/media/stream.go:157-210 | in every run, each call ever created is live and unrecorded, or gone with exactly one end record |
| Calls.OfflineAlwaysLeaves | http/handler/media/stream.go:260-273 | in every run, a pointer names a live call its user takes part in, so the offline fallback ends in a normal leave and the user is out |
| Calls.OfflineCanMiss | http/handler/media/stream.go:114-129 | whenever a user is a member of two live calls, joining both and leaving the first makes them a participant whom going offline does not touch |
| Calls.PointerIsKept | http/handler/media/stream.go:114-141 | a participant keeps the pointer over a step if and only if the step neither ends another call of theirs, nor is their own join, leave or hang-up of another, nor drops them as a stray of another |
| Calls.UndisturbedOfflineLeaves | http/handler/media/stream.go:260-273 | in every run without such a step, a user who takes part in a call is taken out of it by going offline |
| Calls.PartBegins | http/handler/media/stream.go:652-654 | only a user's own join makes them take part in a call, and it sets the pointer |
| Calls.RejectEndsWhenAllRejected | http/handler/media/stream.go:729-750 | a reject ends a live call if and only if no invitee is listed twice and all of them have now rejected |
| Calls.HungUpAreNeverAll | http/handler/media/stream.go:855-862 | the members counted as hung up are always fewer than all members |
| Calls.EndKeeps | http/handler/media/stream.go:157-183 | ending a call keeps the invariant and adds the one record |
| Calls.UpdateKeeps | http/handler/media/stream.go:236-246 | joining and leaving keep it |
| Calls.CreateKeeps | http/handler/media/stream.go:514-568 | creating a call, with an abandoned one ended first, keeps it |
| Calls.LeaveKeeps | http/handler/media/stream.go:214-257 | leaving keeps it, also when the last participant leaves |
| Calls.RejectKeeps | http/handler/media/stream.go:680-752 | rejecting keeps it |
| Calls.HangUpKeeps | http/handler/media/stream.go:754-885 | hanging up keeps it, for either side of a friend call, the inviter and other members |
| Calls.RoomEmptyKeeps | http/handler/media/stream.go:280-359 | the emptied media room keeps it |
| Calls.RecordCount | http/handler/media/stream.go:186-210 | records with distinct call ids hold at most one record of a call |
| CallLaws.EndsExactly | http/handler/media/stream.go:214-885 | an operation ends a live call if and only if it is one of six cases told by the call's members, participants, rejections and pointers |
| CallLaws.EveryEndIsRecorded | http/handler/media/stream.go:186-210 | every end adds exactly one record with the call's room, members, creation time, end time and whole seconds, and the reason and user of the operation |
| CallLaws.CallGoesOn | http/handler/media/stream.go:214-885 | a call that goes on has exactly the participants and rejections that the operation leaves or adds, and is otherwise unchanged |
| CallLaws.CallAppears | http/handler/media/stream.go:514-568 | a call appears if and only if it is created in a room whose calls have no participants, and as it was asked for |
| CallLaws.PointerAppears | http/handler/media/stream.go:614-657 | a pointer appears if and only if its user joins that call as a member |
| MediaCalls.KeysMeaning | http/handler/media/stream.go:144-183 | of the keys alone: an invite exists if and only if its state exists and is not ended, a room points to a call if and only if that call's invite names the room, rejections come from invitees |
| MediaCalls.AppendUniqueUid | http/handler/media/stream.go:974-981 | adds a uid at the end unless it is there |
| MediaCalls.CallStore.ClearMappings | http/handler/media/stream.go:131-141 | removes the pointers of inviter, invitees, participants and rejecters, and no others |
| MediaCalls.CallStore.DestroyKeys | http/handler/media/stream.go:144-154 | removes invite, state and room pointer of the call, skipping empty ids |
| MediaCalls.CallStore.EndSession | http/handler/media/stream.go:157-183 | the keys after the common ending of a call are those of the set of calls without it, with one record more |
| MediaCalls.CallStore.Finalize | http/handler/media/stream.go:157-183 | ends a call without participants; the already-ended case cannot occur |
| MediaCalls.CallStore.SetMapping | http/handler/media/stream.go:114-121 | points a user to a call unless either id is empty |
| MediaCalls.CallStore.ClearMapping | http/handler/media/stream.go:123-129 | removes one user's pointer |
| MediaCalls.CallStore.MarkCallMemberJoined | http/handler/media/stream.go:614-657 | joins a member of a live call and points to it; refuses others, telling unknown calls from foreign ones |
| MediaCalls.CallStore.LeaveCallByUID | http/handler/media/stream.go:214-257 | the three outcomes of leaving, and the resulting calls: the last one out ends the call |
| MediaCalls.CallStore.OnUserMessageQuicOffline | http/handler/media/stream.go:260-273 | whenever a pointer exists, going offline leaves its call with the normal outcome |
| MediaCalls.CallStore.RejectCallInvite | http/handler/media/stream.go:680-752 | rejects for invitees of a live call only, and says truthfully whether this ended the call |
| MediaCalls.CallStore.HangupCall | http/handler/media/stream.go:754-885 | ends the call if and only if it is a friend call or the inviter hangs up; every other member only leaves |
| MediaCalls.CallStore.HangUpAlone | http/handler/media/stream.go:854-885 | a member's hang-up takes them out and marks them; the branch for "all hung up" is unreachable |
| MediaCalls.CallStore.AllMembers | http/handler/media/stream.go:855-861 | as many uids as the call has distinct members |
| MediaCalls.CallStore.OnMediaRoomEmpty | http/handler/media/stream.go:280-359 | drops the participants that point elsewhere and ends the call when none remains; stale-pointer branches cannot occur |
| MediaCalls.CallStore.Prune | http/handler/media/stream.go:331-351 | the stored participants and the pointers are those of the call without its strays |
| MediaCalls.CallStore.StillInCall | http/handler/media/stream.go:334-350 | keeps exactly the participants whose pointer names the call and clears the pointers of the others |
| MediaCalls.CallStore.CreateCallInvite | http/handler/media/stream.go:430-612 | refuses inadmissible requests without a change, refuses an occupied room, else stores a call with the requested room, the user as inviter, everybody else in the room as invitees, and the friend scene exactly for private rooms |
| MediaCalls.HangUpAfterCreate | http/handler/media/stream.go:507-513 | the hang-up of an invitee ends a created call if and only if its room is private, and that of the inviter always does |
| MediaCalls.CallStore.PlaceCall | http/handler/media/stream.go:514-568 | the new call is stored if and only if the room is not busy |
| MediaCalls.CallStore.CheckCreate | http/handler/media/stream.go:430-512 | admits exactly requests with a session, an audio or video type, a positive ttl and valid media, for group rooms with somebody to invite and private rooms with one invitee who is a friend |
| MediaCalls.CallStore.FreeRoom | http/handler/media/stream.go:514-534 | the room is free if and only if no live call with participants holds it; an abandoned one is ended and recorded |
| MediaCalls.CallStore.StoreCall | http/handler/media/stream.go:536-568 | the three keys written are those of the calls with one more |
| MediaCalls.CallStore.CurrentCall | http/handler/media/stream.go:887-932 | finds a call if and only if the room has a live one, with its number of participants |
| MediaCalls.CallStore.AcceptCallInvite | http/handler/media/stream.go:1018-1066 | accepts exactly the invitees of live calls; the later checks never refuse |
| MediaCalls.RemoveUid | http/handler/media/stream.go:983-991 | removes every occurrence of a uid and keeps the order |
| MediaCalls.UniqueUids | http/handler/media/stream.go:993-1007 | the first occurrences of the non-empty uids, in order |
| Framing.Uint32OfPut | quic/handler/protocol/four-yte_protocol.go:82-86 | the length field reads back as the length modulo 2^32 |
| Framing.BigEndian | quic/handler/protocol/four-yte_protocol.go:45-86 | the length is written and read with the most significant byte first |
| Framing.OpenBodyIs | quic/handler/protocol/four-yte_protocol.go:55-66 | a body is a 12-byte nonce and a ciphertext; short or unopenable ones yield an empty packet, one with an empty plaintext yields none |
| Framing.FourByteProtocol.AddData | quic/handler/protocol/four-yte_protocol.go:35-37 | appends the chunk to the buffer |
| Framing.FourByteProtocol.TryParse | quic/handler/protocol/four-yte_protocol.go:40-67 | takes one frame off the buffer when it is complete, with the packet that its body yields; otherwise changes nothing |
| Framing.FourByteProtocol.Encode | quic/handler/protocol/four-yte_protocol.go:69-90 | the bytes sent are the frame of the payload: the length, the drawn nonce, and the ciphertext under it |
| Framing.FourByteProtocol.Run | quic/handler/message_handler.go:94-142 | the nested read and parse loops hand on exactly the packets of the chunks before the first failed or empty read, whose own bytes are dropped |
| Framing.ReceivedUntilFailure | quic/handler/message_handler.go:99-105 | the loop takes the chunks before the first failed or empty read and nothing that comes later |
| Framing.FourByteProtocol.ParseAll | quic/handler/message_handler.go:109-114 | parses until no packet comes any more |
| Framing.ParseOfFrame | quic/handler/protocol/four-yte_protocol.go:40-67 | a buffer that starts with a frame yields that body and leaves exactly what follows |
| Framing.CorruptFrameIsSkipped | quic/handler/protocol/four-yte_protocol.go:57-66 | a body that cannot be opened costs its own bytes only: what follows is parsed as if alone |
| Framing.AnyChunkingYields | quic/handler/message_handler.go:99-141 | frames of any bodies, sealed, corrupt or too short, cut in any way, yield one packet each in order and nothing is left over, if and only if no body opens to an empty plaintext |
| Framing.LoneFrameIsConsumed | quic/handler/protocol/four-yte_protocol.go:69-90 | an encoded frame is parsed back whole if and only if its body fits the 32-bit length |
| Framing.DrainConsumes | quic/handler/message_handler.go:109-114 | the inner loop consumes a number of whole frames and delivers their payloads |
| Framing.FeedConsumes | quic/handler/message_handler.go:99-141 | so do any further chunks, from any point within a frame |
| Framing.AnyChunkingDelivers | quic/handler/message_handler.go:99-141 | however a stream of frames is cut, exactly its payloads are delivered in order, if and only if none is empty; then nothing is left over |
| Framing.LeftoverIsPartOfOneFrame | quic/handler/message_handler.go:99-141 | after every chunk the buffer is a proper prefix of the next frame and all frames before were handed on, corrupt ones included |
| Framing.FailedReadLosesFrames | quic/handler/message_handler.go:99-105 | the bytes that come with the error that ends the loop lose packets if and only if they complete the next frame |
| Framing.ClosedStreamDelivers | quic/handler/message_handler.go:99-105 | a peer that sends its frames and closes the stream has all of them handed on if and only if the end is reported without bytes |
| RoomSeq.StepKeeps | db/query/room.go:250-283 | every Redis or database call of every caller keeps the counter above all drawn and stored numbers and never lowers it |
| RoomSeq.RunKeepsInvariant | db/query/room.go:250-283 | so does every interleaving |
| RoomSeq.DrawsAreFresh | db/query/room.go:236-283 | in every interleaving the numbers handed out strictly increase and exceed every number stored before the draw |
| RoomSeq.DrawsAreConsecutive | db/query/room.go:250-283 | in every interleaving the numbers are handed out without gaps, from the counter or the database maximum on |
| RoomSeq.CommittedIsBelow | db/query/room.go:236-283 | in every interleaving the number of a committed message is below every number drawn after the commit |
| RoomSeq.CallerAdvances | db/query/room.go:250-283 | every call brings its caller closer to a number, which is the one drawn by that call |
| RoomSeq.CounterNeverRewinds | db/query/room.go:268-270 | nothing lowers an existing counter, a late SETNX included |
| RoomSeq.Max | db/query/room.go:236-248 | the greatest stored number, 0 for an empty room |
| RoomSeq.RoomCounter.GetRoomSeqId | db/query/room.go:250-283 | without interference: one more than the counter, or than the database maximum when there is none |
| MessageInsert.StepKeeps | quic/handler/message_handler.go:456-637 | every call of every submission keeps one row and one event per message key |
| MessageInsert.RunKeepsInvariant | quic/handler/message_handler.go:456-637 | so does every interleaving of submissions, lock expiries, lock failures and soft deletes |
| MessageInsert.AtMostOneRow | db/entity/entity.go:322-326 | in every interleaving each (room, sender, client_mid) has at most one row, deleted rows included |
| MessageInsert.AtMostOneEvent | quic/handler/message_handler.go:635-637 | in every interleaving each (room, sender, client_mid) is announced at most once, with the mid of its row |
| MessageInsert.EveryRowIsAnnounced | quic/handler/message_handler.go:610-637 | in every interleaving each stored row has been announced, or its submission is about to announce it |
| MessageInsert.SubmissionStores | quic/handler/message_handler.go:456-637 | from any state, an admitted submission that nobody interrupts stores and announces its message exactly once if it is new, and nothing if its key is stored, deleted or not; the locks are as before |
| MessageInsert.LockExcludes | quic/handler/message_handler.go:456-468 | in every interleaving without an expiry, at most one submission of a message holds its lock |
| MessageInsert.LockIsTaken | quic/handler/message_handler.go:456-468 | a submission gets the lock if and only if the server answers and nobody has it |
| MessageInsert.CommitKeeps | quic/handler/message_handler.go:610-618 | committing adds the only row of its key |
| MessageInsert.PublishKeeps | quic/handler/message_handler.go:635-637 | publishing announces a key that was not announced before |
| RateLimit.ParsedRule | db/query/room_mute.go:58-86 | a rule limits anything if and only if its interval is at least 1, and admits a message if and only if its maximum is |
| RateLimit.RuleOfConfig | db/query/room_mute.go:58-86 | which configurations make a rule, and its window in milliseconds for minutes, hours and days |
| RateLimit.FrequencyLimiter.IsOverLimit | db/query/room_mute.go:89-106 | over the limit exactly when the counter of the current version and window exists and has reached the maximum |
| RateLimit.FrequencyLimiter.GetMuteUntil | db/query/room_mute.go:109-126 | exactly when over the limit, the end of the current window, which lies within one window length after now |
| RateLimit.FrequencyLimiter.Increment | db/query/room_mute.go:129-148 | adds one to the counter of the current version and window, starting at 1 when there is none or it has expired, with an expiry one minute after a window length, and touches no other |
| RateLimit.FrequencyLimiter.Reset | db/query/room_mute.go:151-154 | after a reset nobody is over the limit, now or at any later time, until messages are credited again |
| RateLimit.WindowMonotone | db/query/room_mute.go:98-99 | later times never fall into earlier windows, and one window length later at most into the next |
| RateLimit.ReadIsExact | db/query/room_mute.go:145-147 | a counter cannot expire inside its window: it reads as the number of messages credited in it |
| RateLimit.RoomForCredit | quic/handler/message_handler.go:531-633 | when an admitted message is credited its window has room, however many wait, and even if the check was made in an earlier window |
| RateLimit.StepKeeps | db/query/room_mute.go:89-154 | checks, credits, failures and rule changes, with up to k messages under way, keep the invariant of counters and history |
| RateLimit.RunKeepsInvariant | db/query/room_mute.go:89-154 | so does every interleaving of one user's sends |
| RateLimit.WindowIsBounded | db/query/room_mute.go:89-148 | in every run with at most k messages under way, no aligned window is credited more than the maximum plus k - 1 (a maximum cut off to 0 counts as 1) |
| RateLimit.WindowBoundIsReached | quic/handler/message_handler.go:139 | for every limiting rule and every k there is a run that credits a window exactly that often |
| RateLimit.MaximumIsKept | db/query/room_mute.go:89-148 | a limiting rule keeps every window of every run within its maximum if and only if the maximum is at least 1 and k is 1 |
| RateLimit.StoreKeeps | db/query/room_mute.go:129-148 | crediting keeps every counter equal to the credits of its window and alive until its end |
| RateLimit.ResetFrees | db/query/room_mute.go:151-154 | in every state, after a change of the rule the user is free at any time |
| RateLimit.AbandonFrees | quic/handler/message_handler.go:541-618 | a message that fails after its check is not counted and leaves its place to another |
| RateLimit.SpanBoundIsReached | db/query/room_mute.go:98-99 | for every limiting rule and every k there is a run with a span of one window length that holds exactly twice the bound of a window |
| RateLimit.SpanIsBounded | db/query/room_mute.go:89-148 | in every run with at most k messages under way, any span of one window length holds at most twice the bound of a window |
| RateLimit.MutedUntilFree | db/query/room_mute.go:109-126 | in every run a muted user is told the first time after now at which they are free, which is within one window length; they are over the limit at every time before it |
| Fanout.NonEmptySet | notifycoord/room.go:18-29 | the non-empty uids of a list as a set |
| Fanout.FilterRoomRecipients | notifycoord/room.go:17-47 | the members that pass the include and exclude lists, in order; an empty include list admits all |
| Fanout.DropInPlace | notifycoord/room.go:113-119 | overwriting the slice while reading it loses nothing: the front is the list without the blockers |
| Fanout.DropBlockers | notifycoord/room.go:105-121 | removes exactly those who blocked the sender |
| Fanout.MakeAcks | notifycoord/room.go:126-138 | one acknowledgement row for each recipient, in order, with the message's ids, marked offline exactly without presence |
| Fanout.PrepareRoomMessageNotify | notifycoord/room.go:74-155 | recipients and acknowledgement rows of a message, with the fallback to a refreshed member list |
| Fanout.EachEligibleMemberOnce | notifycoord/room.go:97-121 | a user is told as often as the member list names them if eligible, and never otherwise |
| Fanout.FilteredCount | notifycoord/room.go:30-46 | the filter keeps the multiplicity of whoever passes and drops everyone else |
| Fanout.FilteredAppend | notifycoord/room.go:30-46 | each member passes or not on their own, and the order stays |
| Fanout.GroupUidsByNode | push/presence.go:53-71 | a group for exactly the nodes of some distinct uid, holding exactly the uids of that node |
| Fanout.GroupsAre | push/presence.go:53-71 | there is a group for exactly the nodes of some listed uid with presence, and it holds exactly those, each once |
| Fanout.FanoutRoomMessageDelivery | push/fanout.go:10-31 | no node twice, and each delivery carries exactly the recipients of its node; all nodes with recipients are served if and only if publishing fails for none of them, and the result says so |
| Fanout.RecipientsAreTargeted | push/fanout.go:10-31 | after a complete fan-out a user is a target if and only if a recipient whose presence names a node |
| Fanout.TargetIsRecipient | push/fanout.go:10-31 | every target is a recipient whose node is the one of the delivery |
| Fanout.TargetedOnce | push/presence.go:53-71 | nobody is a target twice, in one delivery or in two |
| SessionList.Find | db/query/room_session.go:288-293 | order and limit of the query: the first rows of the full sort |
| SessionList.TakenAreNewest | db/query/room_session.go:287-290 | the first rows of the sort are newer than all others, by update time, then last message time, then id |
| SessionList.PageInColumns | db/query/room_session.go:277-308 | a page holds at most 15 rows older than the cursor, newer than every other such row, column by column; has_more tells whether there are others, and the next cursor holds the columns of the last row |
| SessionList.GetUserRoomSessionPage | db/query/room_session.go:277-308 | a page, its next cursor and has_more, as a cut of the full sort of the rows after the cursor |
| SessionList.ListSessions | http/handler/session/session.go:28-67 | a bad request exactly when the parameters are neither all absent nor all numbers; absent ones or three zeros ask for the first page, others for what follows the cursor |
| SessionList.SortedIsSorted | db/query/room_session.go:287 | the full sort holds every row once, strictly descending in the columns update time, last message time and id |
| SessionList.SortedIsUnique | db/query/room_session.go:288 | it is the only such arrangement |
| SessionList.RestIsSorted | db/query/room_session.go:280-287 | the rows the keyset condition selects below a row are exactly those after it in the sort |
| SessionList.NextPageFollows | http/handler/session/session.go:41-67 | a next cursor is never taken for the first-page marker and selects exactly the rows after the page |
| SessionList.PagesFollowTheSort | db/query/room_session.go:277-308 | from any cursor on, the pages make up the rest of the sort; has_more is false exactly on the last, and all others are full |
| SessionList.PagesListEverySessionOnce | db/query/room_session.go:277-308 | following the cursors from the first page lists every session exactly once, strictly descending in the columns update time, last message time and id |
| LastMessage.DirectIs | db/query/room_session.go:718-727 | the direct query answers with the one visible message of a room that has the greatest seq_id |
| LastMessage.MessageStore.Invalidate | db/query/room_session.go:35-42 | removes the entry of one room |
| LastMessage.MessageStore.InsertAndBump | db/query/room_session.go:257-273 | a stored and bumped message leaves every cache entry right |
| LastMessage.MessageStore.Withdraw | quic/handler/message_handler.go:872-957 | a withdrawn message leaves every cache entry right |
| LastMessage.MessageStore.UpdateContent | quic/handler/message_handler.go:371-436 | a file status update leaves mid and seq_id of every cache entry right without invalidating |
| LastMessage.MessageStore.QueryLast | db/query/room_session.go:718-727 | the visible message with the greatest seq_id of a room |
| LastMessage.MessageStore.GetLastMessages | db/query/room_session.go:701-824 | cached or queried, every answer has the mid and seq_id of the direct query, no room with a session and a message is missed, every answer is cached afterwards, and the cache stays right |
| LastMessage.MessageStore.Fill | db/query/room_session.go:810-821 | a filled entry is right if and only if what was looked up is still the last message |
| LastMessage.LateFillIsStale | db/query/room_session.go:701-821 | when a newer message is stored between a reader's lookup and its fill, the cache holds the old one afterwards |
| LastMessage.InvalidatedKeeps | db/query/room_session.go:35-42 | any change to the messages of one room is covered by invalidating that room |
| LastMessage.ContentKeeps | quic/handler/message_handler.go:371-436 | a change of content moves no last message |
| LastMessage.ContentGoesStale | quic/handler/message_handler.go:371-436 | a cached content stays right if and only if the change was not to the last message, or changed nothing |
| LastMessage.UnreadCounts | db/query/room_session.go:846-856 | a session counts the seq_ids after its read position up to the last visible message of its room, and 0 without one |
| LastMessage.ComputeUserTotalUnread | db/query/room_session.go:867-884 | the sum, over all sessions, of the seq_ids after the read position up to the last visible message |
| LastMessage.PageTotalIsDirect | http/handler/session/session.go:80-85 | the counts on a page equal those of the direct query, whatever the cache held |
| LastMessage.PagesTotalIsDirect | http/handler/session/session.go:67-85 | so do the counts of several pages, each with its own cache state |
| LastMessage.TotalOfSameRows | db/query/room_session.go:867-903 | the total does not depend on the order of the rows |
| LastMessage.CountUnread | http/handler/session/session.go:67-85 | the last messages looked up for a page answer for every session on it, and each session counts the seq_ids after its read position up to the last visible message |
| LastMessage.PagesAddUpToTotal | db/query/room_session.go:846-903 | the counts on all pages, each built from its own cache state, add up to the uncached total |
| LastMessage.HiddenSessionsAddOn | db/query/room_session.go:208-252 | for arbitrary room rows, the total exceeds the counts on the pages by exactly the unread messages of sessions whose room the list does not join |
| LastMessage.ListedRooms | db/query/room_session.go:248-251 | the list shows exactly the sessions of undeleted rooms that are active or dissolved |
| Rooms.StepKeepsOwner | http/handler/room/room.go:915-938 | every request keeps the owner, if any, equal to the creator, and keeps having one unless the owner steps down |
| Rooms.OwnerIsAlwaysCreator | db/query/room_owner.go:18-62 | in every run at most one member is owner, and that is create_uid |
| Rooms.OwnerRemains | http/handler/room/room.go:897-941 | a room still has its owner at the end of a run if and only if no owner gave up the role on the way |
| Rooms.OwnerCanBeLost | http/handler/room/room.go:915-938 | two requests after which a room has members but no owner, and can be neither transferred nor dissolved |
| Rooms.KickNeedsRank | db/query/room_user_leave.go:31-53 | a member is removed exactly by members of higher rank |
| Rooms.MemberAppears | http/handler/room/room.go:259-386 | a user becomes a member exactly by their own admitted join to a room that is not dissolved, with the normal role |
| Rooms.MemberVanishes | http/handler/room/room.go:1952-2138 | a member ceases to be one exactly by leaving, unless owner, or when somebody of higher rank removes them |
| Rooms.RoleAfter | http/handler/room/room.go:897-1012 | a member's role changes only by the creator's request, to normal or admin, or by a transfer of ownership, and then how |
| Rooms.CreatorAfter | db/query/room_owner.go:39-76 | the creator changes exactly by a transfer, and a room dissolves exactly by its owner |
| Rooms.LeavingUndoesJoining | http/handler/room/room.go:2076-2138 | leaving, or being removed by the owner, undoes joining |
| Rooms.DissolvedStays | db/query/room_owner.go:64-76 | in every run nothing changes a dissolved room |
| Membership.RoomStore.constructor | http/handler/room/room.go:75-164 | a new room has its creator as owner and only member, counted, cached and with an open session |
| Membership.RoomStore.QueryUserIds | db/query/room.go:193-199 | the active members, each once |
| Membership.RoomStore.RefreshCache | db/query/room.go:201-211 | the cached list is then exactly the active members |
| Membership.RoomStore.UserIds | db/query/room.go:213-228 | the members, from the cache or after filling it |
| Membership.RoomStore.HasRoomUser | db/query/room.go:229-235 | membership, also when the cache was lost |
| Membership.RoomStore.GetRoomUser | db/query/room_mute.go:157-164 | the role of a user exactly when an active member |
| Membership.RoomStore.UpsertActiveRoomUser | db/query/room_user_rejoin.go:12-37 | whether revived or new, the row is active with the normal role |
| Membership.RoomStore.UpsertActiveSession | db/query/room_user_rejoin.go:40-65 | whether revived or new, the session is open and starts at the given seq_id |
| Membership.RoomStore.RoomJoin | http/handler/room/room.go:259-309 | admits exactly non-members with the right password to an active room without approval; each refusal has its reason, in the order of the checks |
| Membership.RoomStore.RoomJoinInvite | http/handler/room/invite.go:174-238 | a valid invitation may replace the password, but never the approval |
| Membership.RoomStore.JoinCommitted | http/handler/room/room.go:314-386 | a joining user is a normal member, counted, cached and with an open session that starts at the join message |
| Membership.RoomStore.RemoveMember | http/handler/room/room.go:1993-2021 | takes one member out of rows, sessions, cache and count, soft-deleting both rows at the given time; the clamp at 0 never takes effect |
| Membership.RoomStore.RoomMemberKick | http/handler/room/room.go:1952-2021 | removes the target exactly when the operator outranks them in an active room |
| Membership.RoomStore.CanKickMember | db/query/room_user_leave.go:31-53 | owners may remove everyone else and admins normal members, nobody an owner or themselves |
| Membership.RoomStore.RoomLeave | http/handler/room/room.go:2076-2138 | every member but the owner can leave an active room |
| Membership.RoomStore.RoomUserRoleUpdate | http/handler/room/room.go:897-941 | the creator changes a member's role to normal or admin, their own included |
| Membership.RoomStore.UpdateRole | db/query/room_user_profile.go:10-23 | changes the role of one active row |
| Membership.RoomStore.RoomOwnerTransfer | http/handler/room/room.go:970-1012 | passes ownership from the owner to another member of an active room, and nothing else |
| Membership.RoomStore.MoveOwnership | db/query/room_owner.go:41-61 | create_uid and both roles change together |
| Membership.RoomStore.RoomDissolve | http/handler/room/room.go:1043-1079 | the owner of an active room dissolves it; members and sessions stay |
| Membership.RemovedRows | http/handler/room/room.go:1993-2021 | soft-deleting the two rows of a member yields the room without them, with one member less |
| Membership.AddedRows | db/query/room_user_rejoin.go:12-65 | an active row and an open session, new or revived, yield the room with one member more |
| Lists.Dedup | http/handler/media/stream.go:993-1007 | the result has no repeats and exactly the non-empty elements |
| Lists.DedupAppend | http/handler/media/stream.go:993-1007 | a further element is added at the end exactly when it is new and not empty |
| Lists.WithoutAppend | http/handler/media/stream.go:983-991 | each element is kept or dropped on its own, and the order stays |
| Lists.DistinctSize | http/handler/media/stream.go:729-731 | a list has as many distinct elements as entries if and only if nothing repeats: the counting behind "all rejected" |

## Left out

- Failures of Redis, Postgres and the network, and panics: every such call succeeds, except for the dedupe lock, the commit of a message and the unique index, whose failures are steps of `MessageInsert`.
- SQL, JSON and msgpack text, and AES-GCM itself: tables are maps and sets, and the AEAD is a parameter with the law that opening a sealed plaintext returns it.
- Trimming of white space around ids, and integer overflow of 64-bit times, counts and sequence numbers.
- Interleavings inside the call handlers and the membership handlers: each handler is one step, although its Redis and database calls are not under one lock.
- Interleavings inside one removal of heartbeat keys: its two calls are one step; the legacy key it also removes is never in the table.
- The handlers of quic/server/server.go as methods on one object: they are goroutines of a state machine there, because their calls interleave; the two objects they call are classes.
- Heartbeat events without a connection id (quic/server/server.go:208-213): the only publisher fills it in (quic/client/client.go:164, quic/handler/heartbeat_handler.go:57-61). The fallback for timed-out legacy keys is modelled.
- Connection ids are fresh and non-zero and user and session ids are non-empty and free of the separator, as the token check and the id generator provide them; nothing is claimed about an address that is reused as a connection id.
- handleUserOnline, handleUserOffline, status broadcasts, presence registration and removal, address lookups, server shutdown, and pushing unread messages.
- The order in which two replacements of one user log out, and the delay before an old connection is closed.
- The timeouts of one sweep are handled one after the other in the source; here they interleave freely, which allows more runs.
- Start, Stop and the ticker of the heartbeat manager; a sweep may happen at any time.
- Media hub, publisher side, join signatures, call notifications and system messages of calls; MediaCalls covers the Redis keys and the record table.
- Expiry of call keys: calls are always stored with expireAt 0, so the keys do not expire; the expiry checks are in the model and never refuse.
- MediaCalls.CallStore.CheckCreate: the room type, member list and friendship that the handler looks up, and whether the publisher media is valid, are parameters.
- Token and version checks of the message read loop, and decoding of packets: the loop ends at the packets.
- RoomSeq.DrawsAreFresh: assumes that the counter key, once set, is not evicted, and that an existing key starts at or above the database maximum.
- RoomSeq.RoomCounter.GetRoomSeqId: is the call without interference; interleaved calls are the state machine of the same module.
- The checks between the two idempotency checks of a message (room state, friendship, mute) are one nondeterministic decision in MessageInsert.
- Individual mutes, mute-all, time windows of mute rules and admins' exemption (db/query/room_mute.go:192-267): the frequency rule is taken to be in force.
- RateLimit.WindowIsBounded: is for a clock that does not run backwards and for one rule version; a rule reset starts a new count. A check or a credit, with its clock reading and its Redis calls, is one step.
- Mentions, withdrawal fan-out, presence failures and the bulk presence lookup (push/presence.go:74-111).
- The remaining columns of session rows (names, avatars, mentions, online counts) and session search.
- SessionList.PagesListEverySessionOnce: the table does not change between the pages.
- LastMessage.MessageStore.GetLastMessages: is one step, and so are insert with bump and withdrawal with invalidation. In the source they interleave; LateFillIsStale is the case of a fill after an invalidation, and a fill between insert and bump is not modelled.
- LastMessage.MessageStore.InsertAndBump: guarantees a right cache only for a positive creation time, which the database layer always sets.
- Membership.RoomStore.RoomJoin: whether the user has an open join request is a parameter; the records of join requests, their approval, and the validity of invitations are not modelled. Everybody who is admitted joins through JoinCommitted.
- Private and self-chat rooms, nicknames, pinning and system messages of membership changes.
- Queue acknowledgement checks, files, themes, announcements, friends, desktop updates, routing and configuration.
