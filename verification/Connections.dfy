/** The life of connections in quic/server/server.go as a state machine. Every call into the
    registry or the heartbeat manager takes that object's lock, so each such call is one atomic
    step; the handlers that run on their own goroutines are threads whose steps interleave
    in any order. Timeouts, closes and heartbeats may arrive late and out of order. */
module Connections {
  import opened HeartbeatKey
  import opened ClientRegistry
  import Heartbeat
  import opened Options

  // ---------- State ----------

  /** Why a connection left the registry. */
  datatype Reason =
    | ByClose
    | ByTimeout(sweep: nat)            // the log position of the sweep that found it silent
    | ByReplacement(newcomer: Client)  // disconnected in favour of a connection about to register
    | ByRegistration(newcomer: Client) // overwritten by a later registration

  /** What happened, in order. */
  datatype Event =
    | Beat(key: string, at: int)
    | Sweep(at: int, evicted: seq<string>, beats: map<string, int>)
    | Registered(c: Client)
    | Left(c: Client, reason: Reason)

  /** A goroutine, by the call it makes next. */
  datatype Thread =
    | Connecting(c: Client)                        // handleConnect: snapshotForReplace
    | Replacing(c: Client, prev: Client)            // disconnectReplacedClient: removeIfMatch
    | PurgingReplaced(c: Client, prev: Client)      // disconnectReplacedClient: removeHeartbeatKeys
    | Registering(c: Client)                       // registerLiveClient: register
    | ClearingOwnKeys(c: Client)                   // registerLiveClient: removeHeartbeatKeys
    | FirstBeat(c: Client)                         // registerLiveClient: UpdateHeartbeat
    | TimeoutQueued(key: string, sweep: nat)       // handleClientTimeout
    | TimeoutEvent(named: Client, sweep: nat)      // onClientTimeout: isCurrentConn
    | CloseEvent(named: Client)                    // onClientClose: isCurrentConn
    | Unregistering(named: Client, reason: Reason) // unregisterLiveClient: removeIfMatch
    | Purging(named: Client)                       // unregisterLiveClient: removeHeartbeatKeys
    | Finished

  /** The registry and the heartbeat table, the running goroutines, and the history: all connections
      accepted so far, those that have registered, those that were removed, and the log. */
  datatype State = State(
    clients: Clients,
    beats: map<string, int>,
    threads: seq<Thread>,
    issued: map<ConnID, Client>,
    registered: set<ConnID>,
    removed: set<ConnID>,
    log: seq<Event>)

  const INITIAL := State(map[], map[], [], map[], {}, {}, [])

  function Key(c: Client): string
  {
    ClientKey(c.uid, c.sid, c.connID)
  }

  function WithoutKeys(beats: map<string, int>, c: Client): map<string, int>
  {
    if c.uid == "" || c.sid == "" then beats
    else if c.connID != 0 then beats - {Key(c), LegacyKey(c.uid, c.sid)}
    else beats - {LegacyKey(c.uid, c.sid)}
  }

  // ---------- Steps ----------

  datatype Step =
    | Connect(c: Client)                    // a connection was accepted and authenticated
    | HeartbeatEvent(c: Client, now: int)   // a heartbeat event of an accepted connection
    | Close(named: Client)                  // a close event, of whatever connection it names
    | CheckTimeouts(now: int, evicted: seq<string>)
    | Run(tid: nat, now: int)               // the next call of a goroutine

  datatype Config = Config(timeout: int, batchSize: nat)

  function AfterSweep(beats: map<string, int>, evicted: seq<string>): map<string, int>
  {
    map key | key in beats && key !in evicted :: beats[key]
  }

  /** Connection ids are non-zero and never reused; user and session ids come from the token. */
  ghost predicate Enabled(s: State, step: Step, cfg: Config)
  {
    match step
    case Connect(c) => Plain(c.uid) && Plain(c.sid) && c.connID != 0 && c.connID !in s.issued
    case HeartbeatEvent(c, now) => c.connID in s.issued && s.issued[c.connID] == c
    case Close(named) => true
    case CheckTimeouts(now, evicted) =>
      Heartbeat.IsSweep(s.beats, AfterSweep(s.beats, evicted), evicted, now, cfg.timeout, cfg.batchSize)
    case Run(tid, now) => tid < |s.threads|
  }

  function Apply(s: State, step: Step): State
  {
    match step
    case Connect(c) => s.(threads := s.threads + [Connecting(c)], issued := s.issued[c.connID := c])
    case HeartbeatEvent(c, now) => WithBeat(s, c, now)
    case Close(named) => s.(threads := s.threads + [CloseEvent(named)])
    case CheckTimeouts(now, evicted) =>
      s.(beats := AfterSweep(s.beats, evicted),
         threads := s.threads + seq(|evicted|, k requires 0 <= k < |evicted| => TimeoutQueued(evicted[k], |s.log|)),
         log := s.log + [Sweep(now, evicted, s.beats)])
    case Run(tid, now) =>
      if tid < |s.threads| then RunThread(s, tid, s.threads[tid], now) else s
  }

  function WithBeat(s: State, c: Client, now: int): State
  {
    s.(beats := s.beats[Key(c) := now], log := s.log + [Beat(Key(c), now)])
  }

  function Goto(s: State, tid: nat, t: Thread): State
    requires tid < |s.threads|
  {
    s.(threads := s.threads[tid := t])
  }

  /** removeIfMatch, and the record of the removal. */
  function WithRemoved(s: State, named: Client, reason: Reason): State
  {
    if IsCurrent(s.clients, named.uid, named.sid, named.connID) then
      s.(clients := RemoveMatching(s.clients, named.uid, named.sid, named.connID),
         removed := s.removed + {named.connID},
         log := s.log + [Left(named, reason)])
    else s
  }

  function WithRegistered(s: State, c: Client): State
  {
    var left := if c.uid in s.clients then [Left(s.clients[c.uid], ByRegistration(c))] else [];
    s.(clients := s.clients[c.uid := c],
       registered := s.registered + {c.connID},
       log := s.log + left + [Registered(c)])
  }

  function RunThread(s: State, tid: nat, t: Thread, now: int): State
    requires tid < |s.threads|
  {
    match t
    case Connecting(c) =>
      Goto(s, tid, if c.uid in s.clients then Replacing(c, s.clients[c.uid]) else Registering(c))
    case Replacing(c, prev) =>
      if IsCurrent(s.clients, prev.uid, prev.sid, prev.connID)
      then Goto(WithRemoved(s, prev, ByReplacement(c)), tid, PurgingReplaced(c, prev))
      else Goto(s, tid, Registering(c))
    case PurgingReplaced(c, prev) => Goto(s.(beats := WithoutKeys(s.beats, prev)), tid, Registering(c))
    case Registering(c) => Goto(WithRegistered(s, c), tid, ClearingOwnKeys(c))
    case ClearingOwnKeys(c) => Goto(s.(beats := WithoutKeys(s.beats, c)), tid, FirstBeat(c))
    case FirstBeat(c) => Goto(WithBeat(s, c, now), tid, Finished)
    case TimeoutQueued(key, sweep) => RunTimeout(s, tid, key, sweep)
    case TimeoutEvent(named, sweep) =>
      Goto(s, tid, if named.uid != "" && named.sid != "" && IsCurrent(s.clients, named.uid, named.sid, named.connID)
                   then Unregistering(named, ByTimeout(sweep)) else Finished)
    case CloseEvent(named) =>
      Goto(s, tid, if named.uid != "" && named.sid != "" && IsCurrent(s.clients, named.uid, named.sid, named.connID)
                   then Unregistering(named, ByClose) else Finished)
    case Unregistering(named, reason) =>
      if IsCurrent(s.clients, named.uid, named.sid, named.connID)
      then Goto(WithRemoved(s, named, reason), tid, Purging(named))
      else Goto(s, tid, Finished)
    case Purging(named) => Goto(s.(beats := WithoutKeys(s.beats, named)), tid, Finished)
    case Finished => s
  }

  /** handleClientTimeout: a key without connection id falls back to the user's current connection. */
  function RunTimeout(s: State, tid: nat, key: string, sweep: nat): State
    requires tid < |s.threads|
  {
    match ParseKey(key)
    case Malformed => Goto(s, tid, Finished)
    case Parsed(uid, sid, connID) =>
      if connID != 0 then Goto(s, tid, TimeoutEvent(Client(uid, sid, connID), sweep))
      else if uid in s.clients && s.clients[uid].sid == sid
      then Goto(s, tid, TimeoutEvent(Client(uid, sid, s.clients[uid].connID), sweep))
      else Goto(s.(beats := WithoutKeys(s.beats, Client(uid, sid, 0))), tid, Finished)
  }

  // ---------- Runs ----------

  ghost predicate IsRun(s: State, steps: seq<Step>, cfg: Config)
    decreases |steps|
  {
    steps == [] || (Enabled(s, steps[0], cfg) && IsRun(Apply(s, steps[0]), steps[1..], cfg))
  }

  function After(s: State, steps: seq<Step>): State
    decreases |steps|
  {
    if steps == [] then s else After(Apply(s, steps[0]), steps[1..])
  }

  // ---------- What the log says ----------

  /** The time of the last heartbeat or registration of a key. */
  function LastBeat(log: seq<Event>, key: string): Option<int>
  {
    if log == [] then None
    else match log[|log| - 1]
      case Beat(k, at) => if k == key then Some(at) else LastBeat(log[..|log| - 1], key)
      case _ => LastBeat(log[..|log| - 1], key)
  }

  /** The sweep at this position evicted the key, silent by then for more than the timeout. */
  ghost predicate FoundSilent(log: seq<Event>, pos: nat, key: string, timeout: int)
  {
    && pos < |log| && log[pos].Sweep? && key in log[pos].evicted
    && LastBeat(log[..pos], key).Some?
    && log[pos].at - LastBeat(log[..pos], key).value > timeout
  }

  /** The registry as the log tells it. */
  function Replay(log: seq<Event>): Clients
  {
    if log == [] then map[] else ReplayEvent(Replay(log[..|log| - 1]), log[|log| - 1])
  }

  function ReplayEvent(clients: Clients, e: Event): Clients
  {
    match e
    case Registered(c) => clients[c.uid := c]
    case Left(c, reason) => clients - {c.uid}
    case _ => clients
  }

  // ---------- The invariant ----------

  predicate Known(s: State, c: Client)
  {
    c.connID in s.issued && s.issued[c.connID] == c
  }

  ghost predicate KnownKey(s: State, key: string)
  {
    exists id :: id in s.issued && Key(s.issued[id]) == key
  }

  ghost predicate HistoryOk(s: State)
  {
    && (forall id :: id in s.issued ==> s.issued[id].connID == id && id != 0)
    && (forall id :: id in s.issued ==> Plain(s.issued[id].uid) && Plain(s.issued[id].sid))
    && s.registered <= s.issued.Keys && s.removed <= s.registered
  }

  ghost predicate ClientsOk(s: State)
  {
    && (forall uid :: uid in s.clients ==> s.clients[uid].uid == uid && Known(s, s.clients[uid]))
    && (forall uid :: uid in s.clients ==> s.clients[uid].connID in s.registered - s.removed)
  }

  /** The heartbeat table holds keys of accepted connections only, with their latest beat. */
  ghost predicate BeatsOk(s: State)
  {
    forall key :: key in s.beats ==> KnownKey(s, key) && LastBeat(s.log, key) == Some(s.beats[key])
  }

  /** The connection a goroutine of handleConnect is going to register. */
  function Pending(t: Thread): Option<Client>
  {
    match t
    case Connecting(c) => Some(c)
    case Replacing(c, prev) => Some(c)
    case PurgingReplaced(c, prev) => Some(c)
    case Registering(c) => Some(c)
    case _ => None
  }

  ghost predicate ThreadOk(s: State, t: Thread, cfg: Config)
  {
    && (Pending(t).Some? ==> Known(s, Pending(t).value) && Pending(t).value.connID !in s.registered)
    && match t
       case Replacing(c, prev) => Known(s, prev) && prev.uid == c.uid && prev.connID in s.registered
       case PurgingReplaced(c, prev) => Known(s, prev) && prev.connID in s.removed
       case ClearingOwnKeys(c) => Known(s, c) && c.connID in s.registered
       case FirstBeat(c) => Known(s, c) && c.connID in s.registered
       case TimeoutQueued(key, sweep) => KnownKey(s, key) && FoundSilent(s.log, sweep, key, cfg.timeout)
       case TimeoutEvent(named, sweep) => Known(s, named) && FoundSilent(s.log, sweep, Key(named), cfg.timeout)
       case Unregistering(named, reason) => Known(s, named) && ReasonOk(s.log, named, reason, cfg)
       case Purging(named) => Known(s, named) && named.connID in s.removed
       case _ => true
  }

  /** A close event, a timeout that a sweep accounts for, or another connection of the same user. */
  ghost predicate ReasonOk(log: seq<Event>, c: Client, reason: Reason, cfg: Config)
  {
    match reason
    case ByClose => true
    case ByTimeout(sweep) => FoundSilent(log, sweep, Key(c), cfg.timeout)
    case ByReplacement(newcomer) => newcomer.uid == c.uid && newcomer.connID != c.connID
    case ByRegistration(newcomer) => newcomer.uid == c.uid && newcomer.connID != c.connID
  }

  ghost predicate ThreadsOk(s: State, cfg: Config)
  {
    && (forall i :: 0 <= i < |s.threads| ==> ThreadOk(s, s.threads[i], cfg))
    && (forall i, j :: 0 <= i < j < |s.threads| && Pending(s.threads[i]).Some? ==>
          Pending(s.threads[i]) != Pending(s.threads[j]))
  }

  /** The goroutine will still look after the connection: it is about to enter it into the heartbeat
      table, or it carries a timeout or a close of exactly this connection. */
  predicate LooksAfter(t: Thread, c: Client)
  {
    match t
    case ClearingOwnKeys(x) => x == c
    case FirstBeat(x) => x == c
    case TimeoutQueued(key, sweep) => key == Key(c)
    case TimeoutEvent(named, sweep) => named == c
    case Unregistering(named, reason) => named == c
    case _ => false
  }

  ghost predicate Monitored(s: State, c: Client)
  {
    Key(c) in s.beats || exists i :: 0 <= i < |s.threads| && LooksAfter(s.threads[i], c)
  }

  ghost predicate AllMonitored(s: State)
  {
    forall uid :: uid in s.clients ==> Monitored(s, s.clients[uid])
  }

  ghost predicate LogOk(s: State, cfg: Config)
  {
    && s.clients == Replay(s.log)
    && (forall p :: 0 <= p < |s.log| && s.log[p].Left? ==> ReasonOk(s.log[..p], s.log[p].c, s.log[p].reason, cfg))
  }

  ghost predicate DataOk(s: State, cfg: Config)
  {
    HistoryOk(s) && ClientsOk(s) && BeatsOk(s) && LogOk(s, cfg)
  }

  /** The goroutine is about to remove the heartbeat keys of the connection. */
  predicate Purges(t: Thread, c: Client)
  {
    t == Purging(c) || (t.PurgingReplaced? && t.prev == c)
  }

  ghost predicate HasLeft(log: seq<Event>, c: Client)
  {
    exists p :: 0 <= p < |log| && log[p].Left? && log[p].c == c
  }

  /** The connection sent a heartbeat after it was removed. */
  ghost predicate BeatSinceLeft(log: seq<Event>, c: Client)
  {
    exists q :: 0 <= q < |log| && log[q].Beat? && log[q].key == Key(c) && HasLeft(log[..q], c)
  }

  /** A removed connection has no heartbeat entry, unless it is about to be purged or came back late. */
  ghost predicate Swept(s: State, c: Client)
  {
    && HasLeft(s.log, c)
    && (Key(c) in s.beats ==> BeatSinceLeft(s.log, c) || exists i :: 0 <= i < |s.threads| && Purges(s.threads[i], c))
  }

  ghost predicate AllSwept(s: State)
  {
    forall id :: id in s.removed && id in s.issued ==> Swept(s, s.issued[id])
  }

  ghost predicate Inv(s: State, cfg: Config)
  {
    DataOk(s, cfg) && ThreadsOk(s, cfg) && AllMonitored(s) && AllSwept(s)
  }

  // ---------- Facts that only grow ----------

  ghost predicate Grows(s: State, s': State)
  {
    && (forall id :: id in s.issued ==> id in s'.issued && s'.issued[id] == s.issued[id])
    && s.registered <= s'.registered && s.removed <= s'.removed
    && s.log <= s'.log
  }

  lemma FoundSilentGrows(log: seq<Event>, log': seq<Event>, pos: nat, key: string, timeout: int)
    requires log <= log' && FoundSilent(log, pos, key, timeout)
    ensures FoundSilent(log', pos, key, timeout)
  {
    assert log'[..pos] == log[..pos];
  }

  lemma ThreadOkGrows(s: State, s': State, t: Thread, cfg: Config)
    requires ThreadOk(s, t, cfg) && Grows(s, s')
    requires Pending(t).Some? ==> Pending(t).value.connID !in s'.registered
    ensures ThreadOk(s', t, cfg)
  {
    match t
    case TimeoutQueued(key, sweep) =>
      FoundSilentGrows(s.log, s'.log, sweep, key, cfg.timeout);
      var id :| id in s.issued && Key(s.issued[id]) == key;
      assert id in s'.issued;
    case TimeoutEvent(named, sweep) => FoundSilentGrows(s.log, s'.log, sweep, Key(named), cfg.timeout);
    case Unregistering(named, reason) =>
      if reason.ByTimeout? {
        FoundSilentGrows(s.log, s'.log, reason.sweep, Key(named), cfg.timeout);
      }
    case _ =>
  }

  lemma KnownKeyGrows(s: State, s': State, key: string)
    requires KnownKey(s, key) && Grows(s, s')
    ensures KnownKey(s', key)
  {
    var id :| id in s.issued && Key(s.issued[id]) == key;
    assert id in s'.issued;
  }

  lemma LastBeatAfter(log: seq<Event>, e: Event, key: string)
    ensures LastBeat(log + [e], key) == if e.Beat? && e.key == key then Some(e.at) else LastBeat(log, key)
  {
    assert (log + [e])[..|log|] == log;
  }

  lemma ReplayAfter(log: seq<Event>, e: Event)
    ensures Replay(log + [e]) == ReplayEvent(Replay(log), e)
  {
    assert (log + [e])[..|log|] == log;
  }

  /** Keys of different accepted connections differ. */
  lemma KnownKeysDiffer(s: State, c: Client, d: Client)
    requires HistoryOk(s) && Known(s, c) && Known(s, d)
    ensures Key(c) == Key(d) ==> c == d
    ensures Key(c) != LegacyKey(d.uid, d.sid)
  {
    KeysAreDistinct(c.uid, c.sid, c.connID, d.uid, d.sid, d.connID);
  }

  // ---------- What each kind of call keeps ----------

  lemma LogGrows(s: State, s': State, e: Event, cfg: Config)
    requires LogOk(s, cfg) && s'.log == s.log + [e] && s'.clients == ReplayEvent(s.clients, e)
    requires e.Left? ==> ReasonOk(s.log, e.c, e.reason, cfg)
    ensures LogOk(s', cfg)
  {
    ReplayAfter(s.log, e);
    forall p | 0 <= p < |s'.log| && s'.log[p].Left?
      ensures ReasonOk(s'.log[..p], s'.log[p].c, s'.log[p].reason, cfg)
    {
      assert s'.log[..p] == s.log[..p];
    }
  }

  lemma BeatsKept(s: State, s': State, e: Event)
    requires BeatsOk(s) && Grows(s, s') && s'.log == s.log + [e] && !e.Beat?
    requires forall key :: key in s'.beats ==> key in s.beats && s'.beats[key] == s.beats[key]
    ensures BeatsOk(s')
  {
    forall key | key in s'.beats ensures KnownKey(s', key) && LastBeat(s'.log, key) == Some(s'.beats[key]) {
      KnownKeyGrows(s, s', key);
      LastBeatAfter(s.log, e, key);
    }
  }

  lemma PurgeKeeps(s: State, c: Client, cfg: Config)
    requires DataOk(s, cfg)
    ensures DataOk(s.(beats := WithoutKeys(s.beats, c)), cfg)
  {
    var s' := s.(beats := WithoutKeys(s.beats, c));
    forall key | key in s'.beats ensures KnownKey(s', key) {
      KnownKeyGrows(s, s', key);
    }
  }

  lemma BeatKeeps(s: State, c: Client, now: int, cfg: Config)
    requires DataOk(s, cfg) && Known(s, c)
    ensures DataOk(WithBeat(s, c, now), cfg) && Grows(s, WithBeat(s, c, now))
  {
    var s' := WithBeat(s, c, now);
    LogGrows(s, s', Beat(Key(c), now), cfg);
    forall key | key in s'.beats ensures KnownKey(s', key) && LastBeat(s'.log, key) == Some(s'.beats[key]) {
      LastBeatAfter(s.log, Beat(Key(c), now), key);
      if key == Key(c) {
        assert Key(s'.issued[c.connID]) == key;
      } else {
        KnownKeyGrows(s, s', key);
      }
    }
  }

  lemma RemoveKeeps(s: State, c: Client, reason: Reason, cfg: Config)
    requires DataOk(s, cfg) && ReasonOk(s.log, c, reason, cfg)
    ensures DataOk(WithRemoved(s, c, reason), cfg) && Grows(s, WithRemoved(s, c, reason))
  {
    if IsCurrent(s.clients, c.uid, c.sid, c.connID) {
      var s' := WithRemoved(s, c, reason);
      assert s.clients[c.uid] == c;
      LogGrows(s, s', Left(c, reason), cfg);
      BeatsKept(s, s', Left(c, reason));
    }
  }

  lemma RegisterKeeps(s: State, c: Client, cfg: Config)
    requires DataOk(s, cfg) && Known(s, c) && c.connID !in s.registered
    ensures DataOk(WithRegistered(s, c), cfg) && Grows(s, WithRegistered(s, c))
  {
    var s' := WithRegistered(s, c);
    if c.uid in s.clients {
      var prev := s.clients[c.uid];
      var left := Left(prev, ByRegistration(c));
      var between := s.(clients := s.clients - {c.uid}, log := s.log + [left]);
      LogGrows(s, between, left, cfg);
      BeatsKept(s, between, left);
      assert s'.log == between.log + [Registered(c)];
      assert s'.clients == ReplayEvent(between.clients, Registered(c));
      LogGrows(between, s', Registered(c), cfg);
      BeatsKept(between, s', Registered(c));
    } else {
      assert s'.log == s.log + [Registered(c)];
      LogGrows(s, s', Registered(c), cfg);
      BeatsKept(s, s', Registered(c));
    }
  }

  /** The goroutine in slot tid went from one call to the next while the shared state became mid. */
  lemma ThreadsKept(s: State, mid: State, tid: nat, next: Thread, cfg: Config)
    requires ThreadsOk(s, cfg) && Grows(s, mid) && tid < |s.threads| && mid.threads == s.threads
    requires ThreadOk(mid, next, cfg)
    requires Pending(next).Some? ==> Pending(next) == Pending(s.threads[tid])
    requires forall id :: id in mid.registered ==>
               id in s.registered ||
                 (Pending(s.threads[tid]).Some? && Pending(next).None? && id == Pending(s.threads[tid]).value.connID)
    ensures ThreadsOk(Goto(mid, tid, next), cfg)
  {
    var s' := Goto(mid, tid, next);
    forall i | 0 <= i < |s'.threads| ensures ThreadOk(s', s'.threads[i], cfg) {
      if i == tid {
        ThreadOkGrows(mid, s', next, cfg);
      } else {
        var t := s.threads[i];
        if Pending(t).Some? && Pending(s.threads[tid]).Some? {
          assert Pending(t) != Pending(s.threads[tid]);
          assert s.issued[Pending(t).value.connID] == Pending(t).value;
        }
        ThreadOkGrows(s, s', t, cfg);
      }
    }
  }

  lemma MonitorKept(s: State, mid: State, tid: nat, next: Thread)
    requires AllMonitored(s) && tid < |s.threads| && mid.threads == s.threads
    requires forall uid :: uid in mid.clients ==>
               var c := mid.clients[uid];
               || LooksAfter(next, c)
               || Key(c) in mid.beats
               || (uid in s.clients && s.clients[uid] == c && !LooksAfter(s.threads[tid], c) && Key(c) !in s.beats)
    ensures AllMonitored(Goto(mid, tid, next))
  {
    var s' := Goto(mid, tid, next);
    forall uid | uid in s'.clients ensures Monitored(s', s'.clients[uid]) {
      var c := s'.clients[uid];
      if LooksAfter(next, c) {
        assert LooksAfter(s'.threads[tid], c);
      } else if Key(c) !in mid.beats {
        var i :| 0 <= i < |s.threads| && LooksAfter(s.threads[i], c);
        assert LooksAfter(s'.threads[i], c);
      }
    }
  }

  lemma LeftGrows(log: seq<Event>, log': seq<Event>, c: Client)
    requires log <= log'
    ensures HasLeft(log, c) ==> HasLeft(log', c)
    ensures BeatSinceLeft(log, c) ==> BeatSinceLeft(log', c)
  {
    if HasLeft(log, c) {
      var p :| 0 <= p < |log| && log[p].Left? && log[p].c == c;
      assert log'[p] == log[p];
    }
    if BeatSinceLeft(log, c) {
      var q :| 0 <= q < |log| && log[q].Beat? && log[q].key == Key(c) && HasLeft(log[..q], c);
      assert log'[q] == log[q] && log'[..q] == log[..q];
    }
  }

  lemma SweptKept(s: State, mid: State, tid: nat, next: Thread)
    requires AllSwept(s) && Grows(s, mid) && tid < |s.threads| && mid.threads == s.threads && mid.issued == s.issued
    requires forall id :: id in mid.removed && id in mid.issued ==>
               var c := mid.issued[id];
               && HasLeft(mid.log, c)
               && (Key(c) in mid.beats ==>
                     || Purges(next, c) || BeatSinceLeft(mid.log, c)
                     || (id in s.removed && Key(c) in s.beats && !Purges(s.threads[tid], c)))
    ensures AllSwept(Goto(mid, tid, next))
  {
    var s' := Goto(mid, tid, next);
    forall id | id in s'.removed && id in s'.issued ensures Swept(s', s'.issued[id]) {
      var c := s'.issued[id];
      if Key(c) in s'.beats {
        if Purges(next, c) {
          assert Purges(s'.threads[tid], c);
        } else if !BeatSinceLeft(mid.log, c) {
          assert Swept(s, c);
          LeftGrows(s.log, mid.log, c);
          var i :| 0 <= i < |s.threads| && Purges(s.threads[i], c);
          assert Purges(s'.threads[i], c);
        }
      }
    }
  }

  lemma RemovedHasLeft(s: State, mid: State)
    requires AllSwept(s) && Grows(s, mid) && mid.issued == s.issued
    ensures forall id :: id in s.removed && id in s.issued ==> HasLeft(mid.log, s.issued[id])
  {
    forall id | id in s.removed && id in s.issued ensures HasLeft(mid.log, s.issued[id]) {
      LeftGrows(s.log, mid.log, s.issued[id]);
    }
  }

  // ---------- Every step keeps the invariant ----------

  /** Removing the heartbeat keys of one accepted connection leaves those of every other. */
  lemma PurgeLeavesOthers(s: State, c: Client, d: Client)
    requires HistoryOk(s) && Known(s, c) && Known(s, d) && c != d
    ensures Key(d) in s.beats ==> Key(d) in WithoutKeys(s.beats, c)
  {
    KnownKeysDiffer(s, c, d);
    KnownKeysDiffer(s, d, c);
  }

  lemma PurgeStepKeeps(s: State, tid: nat, c: Client, next: Thread, cfg: Config)
    requires Inv(s, cfg) && tid < |s.threads| && Known(s, c)
    requires forall d :: LooksAfter(s.threads[tid], d) || Purges(s.threads[tid], d) ==> d == c
    requires c.connID in s.removed || LooksAfter(next, c)
    requires ThreadOk(s, next, cfg)
    requires Pending(next).Some? ==> Pending(next) == Pending(s.threads[tid])
    ensures Inv(Goto(s.(beats := WithoutKeys(s.beats, c)), tid, next), cfg)
  {
    var mid := s.(beats := WithoutKeys(s.beats, c));
    PurgeKeeps(s, c, cfg);
    ThreadOkGrows(s, mid, next, cfg);
    ThreadsKept(s, mid, tid, next, cfg);
    PurgeKeepsMonitors(s, mid, tid, c, next);
    PurgeKeepsSwept(s, mid, tid, c, next);
  }

  lemma PurgeKeepsMonitors(s: State, mid: State, tid: nat, c: Client, next: Thread)
    requires HistoryOk(s) && ClientsOk(s) && AllMonitored(s) && tid < |s.threads| && Known(s, c)
    requires mid == s.(beats := WithoutKeys(s.beats, c))
    requires forall d :: LooksAfter(s.threads[tid], d) ==> d == c
    requires c.connID in s.removed || LooksAfter(next, c)
    ensures AllMonitored(Goto(mid, tid, next))
  {
    forall uid | uid in s.clients
      ensures var d := s.clients[uid];
        LooksAfter(next, d) || Key(d) in mid.beats || (!LooksAfter(s.threads[tid], d) && Key(d) !in s.beats)
    {
      var d := s.clients[uid];
      if d != c {
        PurgeLeavesOthers(s, c, d);
      }
    }
    MonitorKept(s, mid, tid, next);
  }

  lemma PurgeKeepsSwept(s: State, mid: State, tid: nat, c: Client, next: Thread)
    requires HistoryOk(s) && AllSwept(s) && tid < |s.threads| && Known(s, c)
    requires mid == s.(beats := WithoutKeys(s.beats, c))
    requires forall d :: Purges(s.threads[tid], d) ==> d == c
    ensures AllSwept(Goto(mid, tid, next))
  {
    RemovedHasLeft(s, mid);
    assert Plain(c.uid) && Plain(c.sid) && c.connID != 0;
    SweptKept(s, mid, tid, next);
  }

  lemma RemoveStepKeeps(s: State, tid: nat, c: Client, reason: Reason, next: Thread, cfg: Config)
    requires Inv(s, cfg) && tid < |s.threads| && Known(s, c) && ReasonOk(s.log, c, reason, cfg)
    requires IsCurrent(s.clients, c.uid, c.sid, c.connID)
    requires forall d :: LooksAfter(s.threads[tid], d) ==> d == c
    requires forall d :: !Purges(s.threads[tid], d)
    requires Purges(next, c)
    requires ThreadOk(WithRemoved(s, c, reason), next, cfg)
    requires Pending(next).Some? ==> Pending(next) == Pending(s.threads[tid])
    ensures Inv(Goto(WithRemoved(s, c, reason), tid, next), cfg)
  {
    var mid := WithRemoved(s, c, reason);
    RemoveKeeps(s, c, reason, cfg);
    ThreadsKept(s, mid, tid, next, cfg);
    assert s.clients[c.uid] == c;
    MonitorKept(s, mid, tid, next);
    RemovedHasLeft(s, mid);
    assert mid.log[|s.log|] == Left(c, reason);
    SweptKept(s, mid, tid, next);
  }

  /** A call that reads only. */
  lemma ReadStepKeeps(s: State, tid: nat, next: Thread, cfg: Config)
    requires Inv(s, cfg) && tid < |s.threads| && ThreadOk(s, next, cfg)
    requires Pending(next).Some? ==> Pending(next) == Pending(s.threads[tid])
    requires forall uid :: uid in s.clients && LooksAfter(s.threads[tid], s.clients[uid]) ==>
            LooksAfter(next, s.clients[uid])
    requires forall d :: !Purges(s.threads[tid], d)
    ensures Inv(Goto(s, tid, next), cfg)
  {
    ThreadsKept(s, s, tid, next, cfg);
    MonitorKept(s, s, tid, next);
    RemovedHasLeft(s, s);
    SweptKept(s, s, tid, next);
  }

  lemma RegisterStepKeeps(s: State, tid: nat, c: Client, cfg: Config)
    requires Inv(s, cfg) && tid < |s.threads| && s.threads[tid] == Registering(c)
    ensures Inv(Goto(WithRegistered(s, c), tid, ClearingOwnKeys(c)), cfg)
  {
    var mid := WithRegistered(s, c);
    RegisterKeeps(s, c, cfg);
    ThreadsKept(s, mid, tid, ClearingOwnKeys(c), cfg);
    MonitorKept(s, mid, tid, ClearingOwnKeys(c));
    RemovedHasLeft(s, mid);
    SweptKept(s, mid, tid, ClearingOwnKeys(c));
  }

  lemma BeatIsRecorded(s: State, c: Client, now: int)
    requires HistoryOk(s) && AllSwept(s) && Known(s, c)
    ensures var s' := WithBeat(s, c, now);
      forall id :: id in s.removed && id in s.issued ==>
        && HasLeft(s'.log, s.issued[id])
        && (Key(s.issued[id]) in s'.beats ==> BeatSinceLeft(s'.log, s.issued[id]) || Key(s.issued[id]) in s.beats)
  {
    var s' := WithBeat(s, c, now);
    RemovedHasLeft(s, s');
    forall id | id in s.removed && id in s.issued && Key(s.issued[id]) == Key(c)
      ensures BeatSinceLeft(s'.log, s.issued[id])
    {
      assert Swept(s, s.issued[id]);
      assert s'.log[|s.log|] == Beat(Key(c), now) && s'.log[..|s.log|] == s.log;
    }
  }

  lemma BeatStepKeeps(s: State, tid: nat, c: Client, now: int, cfg: Config)
    requires Inv(s, cfg) && tid < |s.threads| && s.threads[tid] == FirstBeat(c)
    ensures Inv(Goto(WithBeat(s, c, now), tid, Finished), cfg)
  {
    BeatKeeps(s, c, now, cfg);
    ThreadsKept(s, WithBeat(s, c, now), tid, Finished, cfg);
    MonitorKept(s, WithBeat(s, c, now), tid, Finished);
    BeatIsRecorded(s, c, now);
    SweptKept(s, WithBeat(s, c, now), tid, Finished);
  }

  lemma KnownKeyParses(s: State, key: string) returns (c: Client)
    requires HistoryOk(s) && KnownKey(s, key)
    ensures Known(s, c) && Key(c) == key && c.connID != 0
    ensures ParseKey(key) == Parsed(c.uid, c.sid, c.connID)
  {
    var id :| id in s.issued && Key(s.issued[id]) == key;
    c := s.issued[id];
    ParseKeyOfClientKey(c.uid, c.sid, c.connID);
  }

  lemma TimeoutStepKeeps(s: State, tid: nat, key: string, sweep: nat, cfg: Config)
    requires Inv(s, cfg) && tid < |s.threads| && s.threads[tid] == TimeoutQueued(key, sweep)
    ensures Inv(RunTimeout(s, tid, key, sweep), cfg)
  {
    assert ThreadOk(s, s.threads[tid], cfg);
    var c := KnownKeyParses(s, key);
    forall uid | uid in s.clients && key == Key(s.clients[uid]) ensures s.clients[uid] == c {
      KnownKeysDiffer(s, s.clients[uid], c);
    }
    ReadStepKeeps(s, tid, TimeoutEvent(c, sweep), cfg);
  }

  /** The calls of handleConnect up to the registration. */
  lemma ConnectRunKeeps(s: State, tid: nat, now: int, cfg: Config)
    requires Inv(s, cfg) && tid < |s.threads| && Pending(s.threads[tid]).Some?
    ensures Inv(RunThread(s, tid, s.threads[tid], now), cfg)
  {
    assert ThreadOk(s, s.threads[tid], cfg);
    match s.threads[tid]
    case Connecting(c) =>
      ReadStepKeeps(s, tid, if c.uid in s.clients then Replacing(c, s.clients[c.uid]) else Registering(c), cfg);
    case Replacing(c, prev) =>
      if IsCurrent(s.clients, prev.uid, prev.sid, prev.connID) {
        RemoveStepKeeps(s, tid, prev, ByReplacement(c), PurgingReplaced(c, prev), cfg);
      } else {
        ReadStepKeeps(s, tid, Registering(c), cfg);
      }
    case PurgingReplaced(c, prev) => PurgeStepKeeps(s, tid, prev, Registering(c), cfg);
    case Registering(c) => RegisterStepKeeps(s, tid, c, cfg);
  }

  lemma RunKeeps(s: State, tid: nat, now: int, cfg: Config)
    requires Inv(s, cfg) && tid < |s.threads|
    ensures Inv(RunThread(s, tid, s.threads[tid], now), cfg)
  {
    var t := s.threads[tid];
    assert ThreadOk(s, t, cfg);
    match t
    case ClearingOwnKeys(c) => PurgeStepKeeps(s, tid, c, FirstBeat(c), cfg);
    case FirstBeat(c) => BeatStepKeeps(s, tid, c, now, cfg);
    case TimeoutQueued(key, sweep) => TimeoutStepKeeps(s, tid, key, sweep, cfg);
    case TimeoutEvent(named, sweep) => EventStepKeeps(s, tid, named, ByTimeout(sweep), cfg);
    case CloseEvent(named) => EventStepKeeps(s, tid, named, ByClose, cfg);
    case Unregistering(named, reason) =>
      if IsCurrent(s.clients, named.uid, named.sid, named.connID) {
        RemoveStepKeeps(s, tid, named, reason, Purging(named), cfg);
      } else {
        ReadStepKeeps(s, tid, Finished, cfg);
      }
    case Purging(named) => PurgeStepKeeps(s, tid, named, Finished, cfg);
    case Finished =>
    case _ => ConnectRunKeeps(s, tid, now, cfg);
  }

  lemma EventStepKeeps(s: State, tid: nat, named: Client, reason: Reason, cfg: Config)
    requires Inv(s, cfg) && tid < |s.threads|
    requires || (reason == ByClose && s.threads[tid] == CloseEvent(named))
             || (reason.ByTimeout? && s.threads[tid] == TimeoutEvent(named, reason.sweep))
    ensures Inv(RunThread(s, tid, s.threads[tid], 0), cfg)
  {
    assert ThreadOk(s, s.threads[tid], cfg);
    if named.uid != "" && named.sid != "" && IsCurrent(s.clients, named.uid, named.sid, named.connID) {
      assert s.clients[named.uid] == named;
      ReadStepKeeps(s, tid, Unregistering(named, reason), cfg);
    } else {
      ReadStepKeeps(s, tid, Finished, cfg);
    }
  }

  lemma ConnectKeeps(s: State, c: Client, cfg: Config)
    requires Inv(s, cfg) && Enabled(s, Connect(c), cfg)
    ensures Inv(Apply(s, Connect(c)), cfg)
  {
    var s' := Apply(s, Connect(c));
    forall key | key in s'.beats ensures KnownKey(s', key) {
      KnownKeyGrows(s, s', key);
    }
    AppendKeeps(s, s', [Connecting(c)], cfg);
  }

  lemma SweepKeeps(s: State, now: int, evicted: seq<string>, cfg: Config)
    requires Inv(s, cfg) && Enabled(s, CheckTimeouts(now, evicted), cfg)
    ensures Inv(Apply(s, CheckTimeouts(now, evicted)), cfg)
  {
    var s' := Apply(s, CheckTimeouts(now, evicted));
    var e := Sweep(now, evicted, s.beats);
    LogGrows(s, s', e, cfg);
    BeatsKept(s, s', e);
    var queued := s'.threads[|s.threads|..];
    SweepQueues(s, now, evicted, queued, cfg);
    AppendKeeps(s, s', queued, cfg);
  }

  lemma SweepQueues(s: State, now: int, evicted: seq<string>, queued: seq<Thread>, cfg: Config)
    requires BeatsOk(s) && Enabled(s, CheckTimeouts(now, evicted), cfg)
    requires queued == seq(|evicted|, k requires 0 <= k < |evicted| => TimeoutQueued(evicted[k], |s.log|))
    ensures var s' := Apply(s, CheckTimeouts(now, evicted));
      && (forall k :: 0 <= k < |queued| ==> ThreadOk(s', queued[k], cfg))
      && (forall key :: key in s.beats && key !in s'.beats ==> Queues(queued, key))
  {
    var s' := Apply(s, CheckTimeouts(now, evicted));
    forall k | 0 <= k < |queued| ensures ThreadOk(s', queued[k], cfg) {
      assert queued[k] == TimeoutQueued(evicted[k], |s.log|);
      KnownKeyGrows(s, s', evicted[k]);
      assert s'.log[..|s.log|] == s.log;
    }
    forall key | key in s.beats && key !in s'.beats ensures Queues(queued, key) {
      var k :| 0 <= k < |evicted| && evicted[k] == key;
      assert queued[k] == TimeoutQueued(key, |s.log|);
    }
  }

  predicate Queues(started: seq<Thread>, key: string)
  {
    exists k :: 0 <= k < |started| && started[k].TimeoutQueued? && started[k].key == key
  }

  /** New goroutines start and no connection leaves; an evicted key has a new goroutine of its own. */
  lemma AppendKeeps(s: State, s': State, started: seq<Thread>, cfg: Config)
    requires Inv(s, cfg) && DataOk(s', cfg) && Grows(s, s')
    requires s'.threads == s.threads + started && s'.clients == s.clients && s'.registered == s.registered
    requires forall k :: 0 <= k < |started| ==> ThreadOk(s', started[k], cfg)
    requires |started| <= 1 || forall k :: 0 <= k < |started| ==> Pending(started[k]).None?
    requires forall k :: 0 <= k < |started| && Pending(started[k]).Some? ==>
            Pending(started[k]).value.connID !in s.issued
    requires forall key :: key in s.beats && key !in s'.beats ==> Queues(started, key)
    requires s'.removed == s.removed && forall key :: key in s'.beats ==> key in s.beats || SweptKey(s', key)
    ensures Inv(s', cfg)
  {
    AppendKeepsThreads(s, s', started, cfg);
    AppendKeepsMonitors(s, s', started);
    AppendKeepsSwept(s, s', started);
  }

  lemma AppendKeepsSwept(s: State, s': State, started: seq<Thread>)
    requires HistoryOk(s) && AllSwept(s) && Grows(s, s') && s'.threads == s.threads + started && s'.removed == s.removed
    requires forall key :: key in s'.beats ==> key in s.beats || SweptKey(s', key)
    ensures AllSwept(s')
  {
    forall id | id in s'.removed && id in s'.issued ensures Swept(s', s'.issued[id]) {
      var c := s.issued[id];
      LeftGrows(s.log, s'.log, c);
      assert Swept(s, c);
      if Key(c) in s'.beats && Key(c) in s.beats && !BeatSinceLeft(s.log, c) {
        var i :| 0 <= i < |s.threads| && Purges(s.threads[i], c);
        assert Purges(s'.threads[i], c);
      }
    }
  }

  /** Every removed connection with this key sent a heartbeat since it left. */
  ghost predicate SweptKey(s: State, key: string)
  {
    forall id :: id in s.removed && id in s.issued && Key(s.issued[id]) == key ==> BeatSinceLeft(s.log, s.issued[id])
  }

  lemma AppendKeepsMonitors(s: State, s': State, started: seq<Thread>)
    requires AllMonitored(s) && s'.threads == s.threads + started && s'.clients == s.clients
    requires forall key :: key in s.beats && key !in s'.beats ==> Queues(started, key)
    ensures AllMonitored(s')
  {
    forall uid | uid in s'.clients ensures Monitored(s', s'.clients[uid]) {
      var c := s.clients[uid];
      assert Monitored(s, c);
      if Key(c) in s.beats && Key(c) !in s'.beats {
        assert Queues(started, Key(c));
        var k :| 0 <= k < |started| && started[k].TimeoutQueued? && started[k].key == Key(c);
        assert LooksAfter(s'.threads[|s.threads| + k], c);
      } else if Key(c) !in s.beats {
        var i :| 0 <= i < |s.threads| && LooksAfter(s.threads[i], c);
        assert LooksAfter(s'.threads[i], c);
      }
    }
  }

  lemma AppendKeepsThreads(s: State, s': State, started: seq<Thread>, cfg: Config)
    requires ThreadsOk(s, cfg) && Grows(s, s')
    requires s'.threads == s.threads + started && s'.registered == s.registered
    requires forall k :: 0 <= k < |started| ==> ThreadOk(s', started[k], cfg)
    requires |started| <= 1 || forall k :: 0 <= k < |started| ==> Pending(started[k]).None?
    requires forall k :: 0 <= k < |started| && Pending(started[k]).Some? ==>
            Pending(started[k]).value.connID !in s.issued
    ensures ThreadsOk(s', cfg)
  {
    forall i | 0 <= i < |s'.threads| ensures ThreadOk(s', s'.threads[i], cfg) {
      if i < |s.threads| {
        ThreadOkGrows(s, s', s.threads[i], cfg);
      }
    }
    forall i, j | 0 <= i < j < |s'.threads| && Pending(s'.threads[i]).Some?
      ensures Pending(s'.threads[i]) != Pending(s'.threads[j])
    {
      if i < |s.threads| {
        assert ThreadOk(s, s.threads[i], cfg);
      }
    }
  }

  lemma HeartbeatKeeps(s: State, c: Client, now: int, cfg: Config)
    requires Inv(s, cfg) && Known(s, c)
    ensures var s' := Apply(s, HeartbeatEvent(c, now));
      && Inv(s', cfg) && s'.beats == s.beats[Key(c) := now] && s'.clients == s.clients && s'.threads == s.threads
  {
    BeatKeeps(s, c, now, cfg);
    assert WithBeat(s, c, now).threads == s.threads + [];
    BeatIsRecorded(s, c, now);
    AppendKeeps(s, WithBeat(s, c, now), [], cfg);
  }

  lemma StepKeeps(s: State, step: Step, cfg: Config)
    requires Inv(s, cfg) && Enabled(s, step, cfg)
    ensures Inv(Apply(s, step), cfg)
  {
    match step
    case Connect(c) => ConnectKeeps(s, c, cfg);
    case HeartbeatEvent(c, now) => HeartbeatKeeps(s, c, now, cfg);
    case Close(named) => AppendKeeps(s, Apply(s, step), [CloseEvent(named)], cfg);
    case CheckTimeouts(now, evicted) => SweepKeeps(s, now, evicted, cfg);
    case Run(tid, now) => RunKeeps(s, tid, now, cfg);
  }

  // ---------- Main results ----------

  lemma {:induction false} RunKeepsInvariant(s: State, steps: seq<Step>, cfg: Config)
    requires Inv(s, cfg) && IsRun(s, steps, cfg)
    ensures Inv(After(s, steps), cfg)
    decreases |steps|
  {
    if steps != [] {
      StepKeeps(s, steps[0], cfg);
      RunKeepsInvariant(Apply(s, steps[0]), steps[1..], cfg);
    }
  }

  /** In every run, a registered connection is in the heartbeat table, or a goroutine is about to enter
      it there, or a timeout or close of exactly this connection is on its way: no silent client stays
      registered unmonitored. */
  lemma RegisteredIsMonitored(steps: seq<Step>, cfg: Config, uid: string)
    requires IsRun(INITIAL, steps, cfg) && uid in After(INITIAL, steps).clients
    ensures Monitored(After(INITIAL, steps), After(INITIAL, steps).clients[uid])
  {
    RunKeepsInvariant(INITIAL, steps, cfg);
  }

  /** In every run, a connection that timed out had at some earlier sweep been silent for strictly more
      than the timeout since its last heartbeat or registration. */
  lemma TimedOutWasSilent(steps: seq<Step>, cfg: Config, p: nat)
    requires IsRun(INITIAL, steps, cfg)
    requires p < |After(INITIAL, steps).log| && After(INITIAL, steps).log[p].Left?
    requires After(INITIAL, steps).log[p].reason.ByTimeout?
    ensures var log := After(INITIAL, steps).log;
      FoundSilent(log[..p], log[p].reason.sweep, Key(log[p].c), cfg.timeout)
  {
    RunKeepsInvariant(INITIAL, steps, cfg);
  }

  /** The log accounts for the registry of every run, and names the right cause of every departure: an
      event naming this connection, or another connection of the same user. */
  lemma LogExplainsRegistry(steps: seq<Step>, cfg: Config, p: nat)
    requires IsRun(INITIAL, steps, cfg)
    ensures Replay(After(INITIAL, steps).log) == After(INITIAL, steps).clients
    ensures var log := After(INITIAL, steps).log;
      p < |log| && log[p].Left? ==> ReasonOk(log[..p], log[p].c, log[p].reason, cfg)
  {
    RunKeepsInvariant(INITIAL, steps, cfg);
  }

  lemma TimeoutIsQuiet(s: State, tid: nat, key: string, sweep: nat)
    requires tid < |s.threads|
    ensures var s' := RunTimeout(s, tid, key, sweep); s' == s.(threads := s'.threads, beats := s'.beats)
  {
  }

  /** Only three kinds of calls touch the registry; the others at most add a beat to the log. */
  lemma RunIsQuiet(s: State, tid: nat, now: int)
    requires tid < |s.threads|
    requires var t := s.threads[tid]; !t.Replacing? && !t.Registering? && !t.Unregistering?
    ensures var s' := RunThread(s, tid, s.threads[tid], now);
      && s' == s.(threads := s'.threads, beats := s'.beats, log := s'.log)
      && (s'.log == s.log || exists key :: s'.log == s.log + [Beat(key, now)])
  {
    var t := s.threads[tid];
    if t.TimeoutQueued? {
      TimeoutIsQuiet(s, tid, t.key, t.sweep);
    }
  }

  /** In every run, a connection leaves the registry only in the step of a goroutine that carries an event
      naming its own uid, sid and connID, or of another connection of its user that has not registered yet. */
  lemma LeavesOnlyWhenNamed(steps: seq<Step>, step: Step, cfg: Config, uid: string)
    requires IsRun(INITIAL, steps, cfg) && Enabled(After(INITIAL, steps), step, cfg)
    requires uid in After(INITIAL, steps).clients
    ensures var s := After(INITIAL, steps);
      var c := s.clients[uid];
      var s' := Apply(s, step);
      || (uid in s'.clients && s'.clients[uid] == c)
      || (step.Run? && s.threads[step.tid].Unregistering? && s.threads[step.tid].named == c)
      || (step.Run? && Pending(s.threads[step.tid]).Some?
          && Pending(s.threads[step.tid]).value.uid == uid
          && Pending(s.threads[step.tid]).value.connID !in s.registered)
  {
    var s := After(INITIAL, steps);
    RunKeepsInvariant(INITIAL, steps, cfg);
    if step.Run? {
      RunLeavesOthers(s, step.tid, step.now, cfg, uid);
    }
  }

  lemma RunLeavesOthers(s: State, tid: nat, now: int, cfg: Config, uid: string)
    requires Inv(s, cfg) && tid < |s.threads| && uid in s.clients
    ensures var c := s.clients[uid];
      var s' := RunThread(s, tid, s.threads[tid], now);
      || (uid in s'.clients && s'.clients[uid] == c)
      || (s.threads[tid].Unregistering? && s.threads[tid].named == c)
      || (Pending(s.threads[tid]).Some? && Pending(s.threads[tid]).value.uid == uid)
  {
    var t := s.threads[tid];
    assert ThreadOk(s, t, cfg);
    match t
    case Replacing(c, prev) => assert prev.uid == c.uid;
    case Registering(c) =>
    case Unregistering(named, reason) =>
    case _ => RunIsQuiet(s, tid, now);
  }

  // ---------- A connection that left ----------

  ghost predicate LeftFor(log: seq<Event>, p: int, c: Client)
  {
    0 <= p < |log| && log[p].Left? && log[p].c == c
  }

  /** Whoever left had registered, is not current any more, and left only once. Only an overwritten
      connection is not among the removed ones. */
  ghost predicate GoneOk(s: State)
  {
    && (forall p, c :: LeftFor(s.log, p, c) ==>
          Known(s, c) && c.connID in s.registered && !IsCurrent(s.clients, c.uid, c.sid, c.connID))
    && (forall p, q, c :: LeftFor(s.log, p, c) && LeftFor(s.log, q, c) ==> p == q)
    && (forall p, c :: LeftFor(s.log, p, c) ==> s.log[p].reason.ByRegistration? || c.connID in s.removed)
  }

  lemma EventsKeepGone(s: State, s': State)
    requires GoneOk(s) && Grows(s, s') && s'.clients == s.clients
    requires forall k :: |s.log| <= k < |s'.log| ==> !s'.log[k].Left?
    ensures GoneOk(s')
  {
    assert forall p, c :: LeftFor(s'.log, p, c) ==> LeftFor(s.log, p, c);
  }

  lemma RemoveKeepsGone(s: State, c: Client, reason: Reason, cfg: Config)
    requires GoneOk(s) && DataOk(s, cfg) && IsCurrent(s.clients, c.uid, c.sid, c.connID)
    ensures GoneOk(WithRemoved(s, c, reason))
  {
    var s' := WithRemoved(s, c, reason);
    assert s.clients[c.uid] == c;
    assert forall p, d :: LeftFor(s'.log, p, d) ==> LeftFor(s.log, p, d) || (p == |s.log| && d == c);
  }

  lemma RegisterKeepsGone(s: State, c: Client, cfg: Config)
    requires GoneOk(s) && DataOk(s, cfg) && Known(s, c) && c.connID !in s.registered
    ensures GoneOk(WithRegistered(s, c))
  {
    var s' := WithRegistered(s, c);
    assert s'.clients[c.uid] == c;
    forall p, d | LeftFor(s'.log, p, d)
      ensures LeftFor(s.log, p, d) || (p == |s.log| && c.uid in s.clients && d == s.clients[c.uid])
    {
      if p < |s.log| {
        assert s'.log[p] == s.log[p];
      }
    }
  }

  lemma QuietKeepsGone(s: State, tid: nat, now: int)
    requires GoneOk(s) && tid < |s.threads|
    requires var t := s.threads[tid]; !t.Replacing? && !t.Registering? && !t.Unregistering?
    ensures GoneOk(RunThread(s, tid, s.threads[tid], now)) && s.log <= RunThread(s, tid, s.threads[tid], now).log
  {
    RunIsQuiet(s, tid, now);
    EventsKeepGone(s, RunThread(s, tid, s.threads[tid], now));
  }

  lemma RunKeepsGoneStep(s: State, tid: nat, now: int, cfg: Config)
    requires Inv(s, cfg) && GoneOk(s) && tid < |s.threads|
    ensures GoneOk(RunThread(s, tid, s.threads[tid], now)) && s.log <= RunThread(s, tid, s.threads[tid], now).log
  {
    var t := s.threads[tid];
    assert ThreadOk(s, t, cfg);
    match t
    case Replacing(c, prev) =>
      if IsCurrent(s.clients, prev.uid, prev.sid, prev.connID) {
        RemoveKeepsGone(s, prev, ByReplacement(c), cfg);
      }
    case Registering(c) => RegisterKeepsGone(s, c, cfg);
    case Unregistering(named, reason) =>
      if IsCurrent(s.clients, named.uid, named.sid, named.connID) {
        RemoveKeepsGone(s, named, reason, cfg);
      }
    case _ => QuietKeepsGone(s, tid, now);
  }

  lemma StepKeepsGone(s: State, step: Step, cfg: Config)
    requires Inv(s, cfg) && GoneOk(s) && Enabled(s, step, cfg)
    ensures GoneOk(Apply(s, step)) && s.log <= Apply(s, step).log
  {
    if step.Run? {
      RunKeepsGoneStep(s, step.tid, step.now, cfg);
    } else {
      EventsKeepGone(s, Apply(s, step));
    }
  }

  lemma {:induction false} RunKeepsGone(s: State, steps: seq<Step>, cfg: Config)
    requires Inv(s, cfg) && GoneOk(s) && IsRun(s, steps, cfg)
    ensures Inv(After(s, steps), cfg) && GoneOk(After(s, steps)) && s.log <= After(s, steps).log
    decreases |steps|
  {
    if steps != [] {
      StepKeeps(s, steps[0], cfg);
      StepKeepsGone(s, steps[0], cfg);
      RunKeepsGone(Apply(s, steps[0]), steps[1..], cfg);
    }
  }

  /** In every run, a connection that has left the registry never comes back. */
  lemma LeftNeverReturns(before: seq<Step>, after: seq<Step>, cfg: Config, c: Client)
    requires IsRun(INITIAL, before, cfg) && HasLeft(After(INITIAL, before).log, c)
    requires IsRun(After(INITIAL, before), after, cfg)
    ensures var s := After(After(INITIAL, before), after);
      HasLeft(s.log, c) && !IsCurrent(s.clients, c.uid, c.sid, c.connID)
  {
    var s := After(INITIAL, before);
    RunKeepsGone(INITIAL, before, cfg);
    RunKeepsGone(s, after, cfg);
    LeftGrows(s.log, After(s, after).log, c);
    var p :| 0 <= p < |After(s, after).log| && After(s, after).log[p].Left? && After(s, after).log[p].c == c;
    assert LeftFor(After(s, after).log, p, c);
  }

  /** The connection that the next call of a close, timeout or unregister goroutine names. */
  function Named(t: Thread): Option<Client>
  {
    match t
    case CloseEvent(named) => Some(named)
    case TimeoutEvent(named, sweep) => Some(named)
    case Unregistering(named, reason) => Some(named)
    case _ => None
  }

  /** An event that names a connection other than its user's current one changes nothing but its own goroutine. */
  lemma StaleEventChangesNothing(s: State, tid: nat, now: int)
    requires tid < |s.threads|
    requires s.threads[tid].CloseEvent? || s.threads[tid].TimeoutEvent? || s.threads[tid].Unregistering?
    requires var named := s.threads[tid].named; !IsCurrent(s.clients, named.uid, named.sid, named.connID)
    ensures Apply(s, Run(tid, now)) == Goto(s, tid, Finished)
  {
  }

  /** In every run, once a connection has left, whether closed, timed out, replaced or overwritten, a late close,
      timeout or unregister call that names it changes nothing but its own goroutine. */
  lemma LateEventChangesNothing(before: seq<Step>, after: seq<Step>, cfg: Config, c: Client, tid: nat, now: int)
    requires IsRun(INITIAL, before, cfg) && HasLeft(After(INITIAL, before).log, c)
    requires IsRun(After(INITIAL, before), after, cfg)
    requires tid < |After(After(INITIAL, before), after).threads|
    requires Named(After(After(INITIAL, before), after).threads[tid]) == Some(c)
    ensures var s := After(After(INITIAL, before), after);
      Apply(s, Run(tid, now)) == Goto(s, tid, Finished)
  {
    LeftNeverReturns(before, after, cfg, c);
    StaleEventChangesNothing(After(After(INITIAL, before), after), tid, now);
  }

  /** In every run, each connection leaves at most once. */
  lemma LeavesAtMostOnce(steps: seq<Step>, cfg: Config, c: Client, p: nat, q: nat)
    requires IsRun(INITIAL, steps, cfg)
    requires LeftFor(After(INITIAL, steps).log, p, c) && LeftFor(After(INITIAL, steps).log, q, c)
    ensures p == q
  {
    RunKeepsGone(INITIAL, steps, cfg);
  }

  /** In every run, a removed connection whose keys were purged leaves nothing in the heartbeat table, unless a
      heartbeat of it arrived after it had left. */
  lemma RemovedLeavesNoEntry(steps: seq<Step>, cfg: Config, id: ConnID)
    requires IsRun(INITIAL, steps, cfg) && id in After(INITIAL, steps).removed
    ensures var s := After(INITIAL, steps);
      && id in s.issued && HasLeft(s.log, s.issued[id])
      && (Key(s.issued[id]) in s.beats ==>
            || BeatSinceLeft(s.log, s.issued[id])
            || exists i :: 0 <= i < |s.threads| && Purges(s.threads[i], s.issued[id]))
  {
    RunKeepsInvariant(INITIAL, steps, cfg);
    var s := After(INITIAL, steps);
    assert id in s.registered;
    assert Swept(s, s.issued[id]);
  }

  /** The connection was overwritten by a registration that raced with its own. */
  ghost predicate Overwritten(log: seq<Event>, c: Client)
  {
    exists p :: LeftFor(log, p, c) && log[p].reason.ByRegistration?
  }

  /** In every run, a connection that left, however it left, has no heartbeat entry any more, unless its keys are about
      to be removed, a heartbeat of it arrived after it had left, or it was overwritten. */
  lemma LeftLeavesNoEntry(steps: seq<Step>, cfg: Config, c: Client)
    requires IsRun(INITIAL, steps, cfg) && HasLeft(After(INITIAL, steps).log, c)
    ensures var s := After(INITIAL, steps);
      Key(c) in s.beats ==>
        || BeatSinceLeft(s.log, c)
        || (exists i :: 0 <= i < |s.threads| && Purges(s.threads[i], c))
        || Overwritten(s.log, c)
  {
    RunKeepsGone(INITIAL, steps, cfg);
    var s := After(INITIAL, steps);
    var p :| 0 <= p < |s.log| && s.log[p].Left? && s.log[p].c == c;
    assert LeftFor(s.log, p, c);
    if c.connID in s.removed {
      RemovedLeavesNoEntry(steps, cfg, c.connID);
    }
  }

  // ---------- The race that leaves an entry ----------

  /** Two connections of one user look up the registry before either has registered; then both register. */
  function Race(a: Client, b: Client, now: int): seq<Step>
  {
    [Connect(a), Connect(b), Run(0, now), Run(1, now)] + [Run(0, now), Run(0, now), Run(0, now)]
      + [Run(1, now), Run(1, now), Run(1, now)]
  }

  lemma {:induction false} RunsAppend(s: State, first: seq<Step>, second: seq<Step>, cfg: Config)
    ensures After(s, first + second) == After(After(s, first), second)
    ensures IsRun(s, first + second, cfg) <==> IsRun(s, first, cfg) && IsRun(After(s, first), second, cfg)
    decreases |first|
  {
    if first == [] {
      assert first + second == second;
    } else {
      assert (first + second)[1..] == first[1..] + second;
      RunsAppend(Apply(s, first[0]), first[1..], second, cfg);
    }
  }

  lemma Next(s: State, step: Step, rest: seq<Step>, cfg: Config)
    ensures After(s, [step] + rest) == After(Apply(s, step), rest)
    ensures IsRun(s, [step] + rest, cfg) <==> Enabled(s, step, cfg) && IsRun(Apply(s, step), rest, cfg)
  {
    assert ([step] + rest)[1..] == rest;
  }

  lemma RaceConnects(a: Client, b: Client, now: int, cfg: Config)
    requires Plain(a.uid) && Plain(a.sid) && Plain(b.sid) && a.uid == b.uid
    requires a.connID != 0 && b.connID != 0 && a.connID != b.connID
    ensures var steps := [Connect(a), Connect(b), Run(0, now), Run(1, now)];
      && IsRun(INITIAL, steps, cfg)
      && After(INITIAL, steps) == INITIAL.(threads := [Registering(a), Registering(b)],
                                           issued := map[a.connID := a, b.connID := b])
  {
    var s1 := Apply(INITIAL, Connect(a));
    var s2 := Apply(s1, Connect(b));
    var s3 := Apply(s2, Run(0, now));
    var s4 := Apply(s3, Run(1, now));
    assert s2.threads == [Connecting(a), Connecting(b)];
    assert s4.threads == [Registering(a), Registering(b)];
    assert s4.issued == map[a.connID := a, b.connID := b];
    Next(INITIAL, Connect(a), [Connect(b), Run(0, now), Run(1, now)], cfg);
    Next(s1, Connect(b), [Run(0, now), Run(1, now)], cfg);
    Next(s2, Run(0, now), [Run(1, now)], cfg);
    Next(s3, Run(1, now), [], cfg);
  }

  /** What the three calls of a registering goroutine do. */
  lemma ThreeCalls(s: State, tid: nat, c: Client, now: int, cfg: Config)
    requires tid < |s.threads| && s.threads[tid] == Registering(c)
    ensures var steps := [Run(tid, now), Run(tid, now), Run(tid, now)];
      && IsRun(s, steps, cfg)
      && var s' := WithRegistered(s, c);
         After(s, steps) == s'.(threads := s.threads[tid := Finished],
                                beats := WithoutKeys(s.beats, c)[Key(c) := now], log := s'.log + [Beat(Key(c), now)])
  {
    var s1 := Apply(s, Run(tid, now));
    var s2 := Apply(s1, Run(tid, now));
    var s3 := Apply(s2, Run(tid, now));
    Next(s, Run(tid, now), [Run(tid, now), Run(tid, now)], cfg);
    Next(s1, Run(tid, now), [Run(tid, now)], cfg);
    Next(s2, Run(tid, now), [], cfg);
    assert s3.threads == s.threads[tid := Finished];
  }

  /** After the race every goroutine has finished, b is registered, and the entry of the overwritten a stays, without a
      heartbeat since it left and with nobody about to remove it: the last exception of LeftLeavesNoEntry is real. */
  lemma OverwrittenKeepsEntry(a: Client, b: Client, now: int, cfg: Config)
    requires Plain(a.uid) && Plain(a.sid) && Plain(b.sid) && a.uid == b.uid
    requires a.connID != 0 && b.connID != 0 && a.connID != b.connID
    ensures IsRun(INITIAL, Race(a, b, now), cfg)
    ensures var s := After(INITIAL, Race(a, b, now));
      && s.threads == [Finished, Finished] && s.clients == map[b.uid := b]
      && Overwritten(s.log, a) && Key(a) in s.beats && !BeatSinceLeft(s.log, a)
  {
    var connects := [Connect(a), Connect(b), Run(0, now), Run(1, now)];
    var first := [Run(0, now), Run(0, now), Run(0, now)];
    var second := [Run(1, now), Run(1, now), Run(1, now)];
    var s0 := After(INITIAL, connects);
    RaceConnects(a, b, now, cfg);
    RunsAppend(INITIAL, connects, first, cfg);
    ThreeCalls(s0, 0, a, now, cfg);
    var s1 := After(s0, first);
    RunsAppend(INITIAL, connects + first, second, cfg);
    ThreeCalls(s1, 1, b, now, cfg);
    RaceEnds(s0, s1, After(s1, second), a, b, now);
  }

  lemma RaceEnds(s0: State, s1: State, s2: State, a: Client, b: Client, now: int)
    requires s0 == INITIAL.(threads := s0.threads, issued := s0.issued)
    requires s0.threads == [Registering(a), Registering(b)]
    requires s1 == WithRegistered(s0, a).(
                     threads := s0.threads[0 := Finished],
                     beats := WithoutKeys(s0.beats, a)[Key(a) := now],
                     log := WithRegistered(s0, a).log + [Beat(Key(a), now)])
    requires s2 == WithRegistered(s1, b).(
                     threads := s1.threads[1 := Finished],
                     beats := WithoutKeys(s1.beats, b)[Key(b) := now],
                     log := WithRegistered(s1, b).log + [Beat(Key(b), now)])
    requires Plain(a.uid) && Plain(a.sid) && Plain(b.sid) && a.uid == b.uid
    requires a.connID != 0 && b.connID != 0 && a.connID != b.connID
    ensures s2.threads == [Finished, Finished] && s2.clients == map[b.uid := b]
    ensures Overwritten(s2.log, a) && Key(a) in s2.beats && !BeatSinceLeft(s2.log, a)
  {
    assert s1.log == [Registered(a), Beat(Key(a), now)];
    assert s2.log == [Registered(a), Beat(Key(a), now), Left(a, ByRegistration(b)), Registered(b), Beat(Key(b), now)];
    KeysAreDistinct(a.uid, a.sid, a.connID, b.uid, b.sid, b.connID);
    assert LeftFor(s2.log, 2, a);
    assert !HasLeft(s2.log[..1], a);
  }
}
