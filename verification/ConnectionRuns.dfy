/** What runs of the connection state machine do, told by their steps alone: when a connection was last heard of, and
    that connects, closes and timeouts are carried out once their goroutines have finished. */
module ConnectionRuns {
  import opened HeartbeatKey
  import opened ClientRegistry
  import opened Connections
  import Heartbeat
  import opened Options

  predicate Proper(c: Client)
  {
    Plain(c.uid) && Plain(c.sid) && c.connID != 0
  }

  lemma {:induction false} RunStep(steps: seq<Step>, step: Step, cfg: Config)
    requires IsRun(INITIAL, steps + [step], cfg)
    ensures IsRun(INITIAL, steps, cfg) && Inv(After(INITIAL, steps), cfg) && Enabled(After(INITIAL, steps), step, cfg)
    ensures After(INITIAL, steps + [step]) == Apply(After(INITIAL, steps), step)
  {
    RunsAppend(INITIAL, steps, [step], cfg);
    RunKeepsInvariant(INITIAL, steps, cfg);
    var s := After(INITIAL, steps);
    assert [step][1..] == [];
    assert After(Apply(s, step), []) == Apply(s, step);
    assert After(s, [step]) == Apply(s, step);
  }

  // ---------- When a connection was heard of ----------

  /** The step tells the server that the connection is alive: a heartbeat event, or the end of its registration. */
  function HeardAt(s: State, step: Step, c: Client): Option<int>
  {
    match step
    case HeartbeatEvent(d, now) => if d == c then Some(now) else None
    case Run(tid, now) => if tid < |s.threads| && s.threads[tid] == FirstBeat(c) then Some(now) else None
    case _ => None
  }

  /** The time of the last such step of a run. */
  function LastHeard(steps: seq<Step>, c: Client): Option<int>
  {
    if steps == [] then None
    else
      var before := steps[..|steps| - 1];
      var heard := HeardAt(After(INITIAL, before), steps[|steps| - 1], c);
      if heard.Some? then heard else LastHeard(before, c)
  }

  /** A step that hears of a connection enters its time, and no other step changes the entry. */
  lemma HeardIsEntered(s: State, step: Step, c: Client, cfg: Config)
    requires Inv(s, cfg) && Enabled(s, step, cfg) && Proper(c)
    ensures var s' := Apply(s, step);
      var heard := HeardAt(s, step, c);
      && (heard.Some? ==> Key(c) in s'.beats && s'.beats[Key(c)] == heard.value)
      && (heard.None? && Key(c) in s'.beats ==> Key(c) in s.beats && s'.beats[Key(c)] == s.beats[Key(c)])
  {
    match step
    case HeartbeatEvent(d, now) => KeysAreDistinct(c.uid, c.sid, c.connID, d.uid, d.sid, d.connID);
    case Run(tid, now) => RunEnters(s, tid, now, c, cfg);
    case _ =>
  }

  lemma RunEnters(s: State, tid: nat, now: int, c: Client, cfg: Config)
    requires Inv(s, cfg) && tid < |s.threads| && Proper(c)
    ensures var s' := RunThread(s, tid, s.threads[tid], now);
      if s.threads[tid] == FirstBeat(c) then Key(c) in s'.beats && s'.beats[Key(c)] == now
      else Key(c) in s'.beats ==> Key(c) in s.beats && s'.beats[Key(c)] == s.beats[Key(c)]
  {
    var t := s.threads[tid];
    assert ThreadOk(s, t, cfg);
    if t.FirstBeat? {
      KeysAreDistinct(c.uid, c.sid, c.connID, t.c.uid, t.c.sid, t.c.connID);
    } else {
      RunEntersNothing(s, tid, now);
    }
  }

  lemma RunEntersNothing(s: State, tid: nat, now: int)
    requires tid < |s.threads| && !s.threads[tid].FirstBeat?
    ensures var s' := RunThread(s, tid, s.threads[tid], now);
      forall key :: key in s'.beats ==> key in s.beats && s'.beats[key] == s.beats[key]
  {
    var t := s.threads[tid];
    if t.TimeoutQueued? {
      TimeoutBeats(s, tid, t.key, t.sweep);
    }
  }

  lemma TimeoutShape(s: State, tid: nat, key: string, sweep: nat)
    requires tid < |s.threads|
    ensures var s' := RunTimeout(s, tid, key, sweep);
      && |s'.threads| == |s.threads| && s'.threads == s.threads[tid := s'.threads[tid]]
      && NextCall(TimeoutQueued(key, sweep), s'.threads[tid])
  {
  }

  lemma TimeoutBeats(s: State, tid: nat, key: string, sweep: nat)
    requires tid < |s.threads|
    ensures var s' := RunTimeout(s, tid, key, sweep);
      forall other :: other in s'.beats ==> other in s.beats && s'.beats[other] == s.beats[other]
  {
  }

  /** In every run, an entry of the heartbeat table is the time at which its connection was last heard of. */
  lemma {:induction false} BeatsAreHeard(steps: seq<Step>, cfg: Config, c: Client)
    requires IsRun(INITIAL, steps, cfg) && Proper(c) && Key(c) in After(INITIAL, steps).beats
    ensures LastHeard(steps, c) == Some(After(INITIAL, steps).beats[Key(c)])
    decreases |steps|
  {
    if steps != [] {
      var before := steps[..|steps| - 1];
      var step := steps[|steps| - 1];
      assert steps == before + [step];
      RunStep(before, step, cfg);
      HeardIsEntered(After(INITIAL, before), step, c, cfg);
      if HeardAt(After(INITIAL, before), step, c).None? {
        BeatsAreHeard(before, cfg, c);
      }
    }
  }

  // ---------- From call to call ----------

  /** Where a goroutine may stand after its next call. */
  predicate NextCall(t: Thread, t': Thread)
  {
    match t
    case Connecting(c) => t' == Registering(c) || (t'.Replacing? && t'.c == c)
    case Replacing(c, prev) => t' == PurgingReplaced(c, prev) || t' == Registering(c)
    case PurgingReplaced(c, prev) => t' == Registering(c)
    case Registering(c) => t' == ClearingOwnKeys(c)
    case ClearingOwnKeys(c) => t' == FirstBeat(c)
    case TimeoutQueued(key, sweep) => (t'.TimeoutEvent? && t'.sweep == sweep) || t' == Finished
    case TimeoutEvent(named, sweep) => t' == Unregistering(named, ByTimeout(sweep)) || t' == Finished
    case CloseEvent(named) => t' == Unregistering(named, ByClose) || t' == Finished
    case Unregistering(named, reason) => t' == Purging(named) || t' == Finished
    case _ => t' == Finished
  }

  lemma RunMoves(s: State, tid: nat, now: int)
    requires tid < |s.threads|
    ensures var s' := RunThread(s, tid, s.threads[tid], now);
      |s'.threads| == |s.threads| && s'.threads == s.threads[tid := s'.threads[tid]]
    ensures NextCall(s.threads[tid], RunThread(s, tid, s.threads[tid], now).threads[tid])
  {
    var t := s.threads[tid];
    if t.TimeoutQueued? {
      TimeoutShape(s, tid, t.key, t.sweep);
    }
  }

  // ---------- Timeouts ----------

  /** The step is a sweep that evicts the connection, last heard of more than the timeout ago. */
  ghost predicate UnheardAt(steps: seq<Step>, i: int, c: Client, cfg: Config)
  {
    && 0 <= i < |steps| && steps[i].CheckTimeouts? && Key(c) in steps[i].evicted
    && LastHeard(steps[..i], c).Some?
    && steps[i].now - LastHeard(steps[..i], c).value > cfg.timeout
  }

  ghost predicate Unheard(steps: seq<Step>, c: Client, cfg: Config)
  {
    exists i :: UnheardAt(steps, i, c, cfg)
  }

  lemma UnheardGrows(steps: seq<Step>, step: Step, c: Client, cfg: Config)
    requires Unheard(steps, c, cfg)
    ensures Unheard(steps + [step], c, cfg)
  {
    var i :| UnheardAt(steps, i, c, cfg);
    assert (steps + [step])[..i] == steps[..i];
    assert UnheardAt(steps + [step], i, c, cfg);
  }

  /** In every run, a sweep evicts only connections of which nothing was heard, by heartbeat or registration, for
      strictly more than the timeout. */
  lemma SweepEvictsUnheard(steps: seq<Step>, now: int, evicted: seq<string>, cfg: Config, c: Client)
    requires IsRun(INITIAL, steps + [CheckTimeouts(now, evicted)], cfg) && Proper(c) && Key(c) in evicted
    ensures LastHeard(steps, c).Some? && now - LastHeard(steps, c).value > cfg.timeout
    ensures Unheard(steps + [CheckTimeouts(now, evicted)], c, cfg)
  {
    var sweep := CheckTimeouts(now, evicted);
    RunStep(steps, sweep, cfg);
    var k :| 0 <= k < |evicted| && evicted[k] == Key(c);
    BeatsAreHeard(steps, cfg, c);
    assert (steps + [sweep])[..|steps|] == steps;
    assert UnheardAt(steps + [sweep], |steps|, c, cfg);
  }

  /** In every run, a sweep that is not cut off by the batch size evicts every connection that has an entry and was last
      heard of more than the timeout ago. */
  lemma SweepFindsUnheard(steps: seq<Step>, now: int, evicted: seq<string>, cfg: Config, c: Client)
    requires IsRun(INITIAL, steps + [CheckTimeouts(now, evicted)], cfg) && Proper(c) && |evicted| < cfg.batchSize
    requires Key(c) in After(INITIAL, steps).beats
    requires LastHeard(steps, c).Some? ==> now - LastHeard(steps, c).value > cfg.timeout
    ensures Key(c) in evicted
  {
    RunStep(steps, CheckTimeouts(now, evicted), cfg);
    BeatsAreHeard(steps, cfg, c);
    var s := After(INITIAL, steps);
    assert Key(c) in evicted || Key(c) in AfterSweep(s.beats, evicted);
  }

  /** The goroutine carries a timeout of the connection. */
  predicate TimesOut(t: Thread, c: Client)
  {
    match t
    case TimeoutQueued(key, sweep) => key == Key(c)
    case TimeoutEvent(named, sweep) => named == c
    case Unregistering(named, reason) => named == c && reason.ByTimeout?
    case _ => false
  }

  ghost predicate TimeoutOf(s: State, c: Client)
  {
    || (exists tid :: 0 <= tid < |s.threads| && TimesOut(s.threads[tid], c))
    || (exists p :: LeftFor(s.log, p, c) && s.log[p].reason.ByTimeout?)
  }

  /** A timeout of a connection comes from a sweep that evicted it. */
  lemma TimeoutComesFromSweep(s: State, step: Step, c: Client, cfg: Config)
    requires Inv(s, cfg) && Enabled(s, step, cfg) && TimeoutOf(Apply(s, step), c)
    ensures TimeoutOf(s, c) || (step.CheckTimeouts? && Key(c) in step.evicted)
  {
    var s' := Apply(s, step);
    if tid :| 0 <= tid < |s'.threads| && TimesOut(s'.threads[tid], c) {
      if step.Run? {
        TimeoutThreadGoesOn(s, step.tid, step.now, tid, c, cfg);
      } else if tid < |s.threads| {
        assert s'.threads[tid] == s.threads[tid];
      } else if step.CheckTimeouts? {
        assert s'.threads[tid] == TimeoutQueued(step.evicted[tid - |s.threads|], |s.log|);
      }
    } else {
      var p :| LeftFor(s'.log, p, c) && s'.log[p].reason.ByTimeout?;
      if step.Run? {
        TimeoutIsLogged(s, step.tid, step.now, p, c);
      } else {
        assert LeftFor(s.log, p, c) && s.log[p] == s'.log[p];
      }
    }
  }

  lemma TimeoutThreadGoesOn(s: State, tid: nat, now: int, other: nat, c: Client, cfg: Config)
    requires Inv(s, cfg) && tid < |s.threads|
    requires var s' := RunThread(s, tid, s.threads[tid], now); other < |s'.threads| && TimesOut(s'.threads[other], c)
    ensures other < |s.threads| && TimesOut(s.threads[other], c)
  {
    RunMoves(s, tid, now);
    if other == tid {
      OwnTimeoutGoesOn(s, tid, now, c, cfg);
    }
  }

  lemma OwnTimeoutGoesOn(s: State, tid: nat, now: int, c: Client, cfg: Config)
    requires Inv(s, cfg) && tid < |s.threads|
    requires var s' := RunThread(s, tid, s.threads[tid], now); tid < |s'.threads| && TimesOut(s'.threads[tid], c)
    ensures TimesOut(s.threads[tid], c)
  {
    var t := s.threads[tid];
    assert ThreadOk(s, t, cfg);
    RunMoves(s, tid, now);
    if t.TimeoutQueued? {
      QueuedTimeoutIsNamed(s, tid, t.key, t.sweep);
    }
  }

  lemma QueuedTimeoutIsNamed(s: State, tid: nat, key: string, sweep: nat)
    requires tid < |s.threads| && HistoryOk(s) && KnownKey(s, key)
    ensures var t := RunTimeout(s, tid, key, sweep).threads[tid]; t.TimeoutEvent? && Key(t.named) == key
  {
    var d := KnownKeyParses(s, key);
  }

  lemma TimeoutIsLogged(s: State, tid: nat, now: int, p: int, c: Client)
    requires tid < |s.threads|
    requires var s' := RunThread(s, tid, s.threads[tid], now); LeftFor(s'.log, p, c) && s'.log[p].reason.ByTimeout?
    ensures (LeftFor(s.log, p, c) && s.log[p].reason.ByTimeout?) || TimesOut(s.threads[tid], c)
  {
    var t := s.threads[tid];
    if t.Replacing? || t.Registering? || t.Unregistering? {
      RegistryCallLogs(s, tid, now, p);
    } else {
      RunIsQuiet(s, tid, now);
    }
  }

  lemma RegistryCallLogs(s: State, tid: nat, now: int, p: int)
    requires tid < |s.threads|
    requires var t := s.threads[tid]; t.Replacing? || t.Registering? || t.Unregistering?
    requires 0 <= p < |RunThread(s, tid, s.threads[tid], now).log|
    ensures var t := s.threads[tid];
      var e := RunThread(s, tid, t, now).log[p];
      || (p < |s.log| && e == s.log[p])
      || (e.Left? && e.reason.ByTimeout? ==> t.Unregistering? && e.c == t.named && t.reason.ByTimeout?)
  {
    match s.threads[tid]
    case Replacing(d, prev) => RemovalLogs(s, prev, ByReplacement(d), p);
    case Registering(d) => RegistrationLogs(s, d, p);
    case Unregistering(named, reason) => RemovalLogs(s, named, reason, p);
  }

  lemma RemovalLogs(s: State, d: Client, reason: Reason, p: int)
    ensures 0 <= p < |WithRemoved(s, d, reason).log| ==>
              WithRemoved(s, d, reason).log[p] == if p < |s.log| then s.log[p] else Left(d, reason)
  {
  }

  lemma RegistrationLogs(s: State, d: Client, p: int)
    requires 0 <= p < |WithRegistered(s, d).log|
    ensures var e := WithRegistered(s, d).log[p];
      if p < |s.log| then e == s.log[p] else e.Left? ==> e.reason.ByRegistration?
  {
  }

  lemma {:induction false} TimeoutsAreUnheard(steps: seq<Step>, cfg: Config, c: Client)
    requires IsRun(INITIAL, steps, cfg) && Proper(c) && TimeoutOf(After(INITIAL, steps), c)
    ensures Unheard(steps, c, cfg)
    decreases |steps|
  {
    if steps != [] {
      var before := steps[..|steps| - 1];
      var step := steps[|steps| - 1];
      assert steps == before + [step];
      RunStep(before, step, cfg);
      TimeoutComesFromSweep(After(INITIAL, before), step, c, cfg);
      if TimeoutOf(After(INITIAL, before), c) {
        TimeoutsAreUnheard(before, cfg, c);
        UnheardGrows(before, step, c, cfg);
      } else {
        SweepEvictsUnheard(before, step.now, step.evicted, cfg, c);
      }
    }
  }

  /** In every run, a connection that was dropped by timeout had been evicted by a sweep of the run when nothing had
      been heard of it, by heartbeat event or registration, for strictly more than the timeout. */
  lemma DroppedWasUnheard(steps: seq<Step>, cfg: Config, p: int, c: Client)
    requires IsRun(INITIAL, steps, cfg) && LeftFor(After(INITIAL, steps).log, p, c)
    requires After(INITIAL, steps).log[p].reason.ByTimeout?
    ensures Unheard(steps, c, cfg)
  {
    RunKeepsGone(INITIAL, steps, cfg);
    TimeoutsAreUnheard(steps, cfg, c);
  }

  // ---------- Goroutines finish ----------

  /** An upper bound of the calls a goroutine still makes. */
  function Remaining(t: Thread): nat
  {
    match t
    case Connecting(c) => 6
    case Replacing(c, prev) => 5
    case PurgingReplaced(c, prev) => 4
    case Registering(c) => 3
    case ClearingOwnKeys(c) => 2
    case FirstBeat(c) => 1
    case TimeoutQueued(key, sweep) => 4
    case TimeoutEvent(named, sweep) => 3
    case CloseEvent(named) => 3
    case Unregistering(named, reason) => 2
    case Purging(named) => 1
    case Finished => 0
  }

  /** Every call brings its goroutine closer to the end, and touches no other goroutine. */
  lemma CallAdvances(s: State, tid: nat, now: int)
    requires tid < |s.threads| && s.threads[tid] != Finished
    ensures var s' := Apply(s, Run(tid, now));
      && |s'.threads| == |s.threads|
      && Remaining(s'.threads[tid]) < Remaining(s.threads[tid])
      && forall i :: 0 <= i < |s.threads| && i != tid ==> s'.threads[i] == s.threads[i]
  {
    RunMoves(s, tid, now);
  }

  function TotalRemaining(threads: seq<Thread>): nat
  {
    if threads == [] then 0 else TotalRemaining(threads[..|threads| - 1]) + Remaining(threads[|threads| - 1])
  }

  lemma {:induction false} TotalDecreases(threads: seq<Thread>, tid: nat, t: Thread)
    requires tid < |threads| && Remaining(t) < Remaining(threads[tid])
    ensures TotalRemaining(threads[tid := t]) < TotalRemaining(threads)
    decreases |threads|
  {
    var last := |threads| - 1;
    if tid < last {
      assert threads[tid := t][..last] == threads[..last][tid := t];
      TotalDecreases(threads[..last], tid, t);
    } else {
      assert threads[tid := t][..last] == threads[..last];
    }
  }

  predicate AllFinished(s: State)
  {
    forall i :: 0 <= i < |s.threads| ==> s.threads[i] == Finished
  }

  /** From every state the goroutines can all finish, whatever was under way. */
  lemma {:induction false} CanFinish(s: State, now: int, cfg: Config) returns (steps: seq<Step>)
    ensures IsRun(s, steps, cfg) && AllFinished(After(s, steps))
    ensures forall i :: 0 <= i < |steps| ==> steps[i].Run?
    decreases TotalRemaining(s.threads)
  {
    if AllFinished(s) {
      return [];
    }
    var tid :| 0 <= tid < |s.threads| && s.threads[tid] != Finished;
    var s' := Apply(s, Run(tid, now));
    CallAdvances(s, tid, now);
    assert s'.threads == s.threads[tid := s'.threads[tid]];
    TotalDecreases(s.threads, tid, s'.threads[tid]);
    var rest := CanFinish(s', now, cfg);
    Next(s, Run(tid, now), rest, cfg);
    steps := [Run(tid, now)] + rest;
  }

  // ---------- Events are carried out ----------

  /** The goroutine will remove the connection if it is current. */
  predicate WillRemove(t: Thread, c: Client)
  {
    match t
    case CloseEvent(named) => named == c
    case TimeoutQueued(key, sweep) => key == Key(c)
    case TimeoutEvent(named, sweep) => named == c
    case Unregistering(named, reason) => named == c
    case _ => false
  }

  /** The connection had registered and is not current, or somebody is about to remove it. */
  ghost predicate Going(s: State, c: Client)
  {
    && Known(s, c) && c.connID in s.registered
    && (IsCurrent(s.clients, c.uid, c.sid, c.connID) ==>
          exists tid :: 0 <= tid < |s.threads| && WillRemove(s.threads[tid], c))
  }

  lemma StepKeepsGoing(s: State, step: Step, c: Client, cfg: Config)
    requires Inv(s, cfg) && Enabled(s, step, cfg) && Going(s, c)
    ensures Going(Apply(s, step), c)
  {
    var s' := Apply(s, step);
    if step.Run? {
      RunKeepsRegistered(s, step.tid, step.now, cfg);
      if IsCurrent(s'.clients, c.uid, c.sid, c.connID) {
        CurrentWasCurrent(s, step.tid, step.now, c, cfg);
        var tid :| 0 <= tid < |s.threads| && WillRemove(s.threads[tid], c);
        RunMoves(s, step.tid, step.now);
        if tid == step.tid {
          RemovalGoesOn(s, tid, step.now, c, cfg);
        }
        assert WillRemove(s'.threads[tid], c);
      }
    } else if IsCurrent(s'.clients, c.uid, c.sid, c.connID) {
      var tid :| 0 <= tid < |s.threads| && WillRemove(s.threads[tid], c);
      assert s'.threads[tid] == s.threads[tid];
    }
  }

  lemma RunKeepsRegistered(s: State, tid: nat, now: int, cfg: Config)
    requires tid < |s.threads|
    ensures var s' := RunThread(s, tid, s.threads[tid], now);
      s'.issued == s.issued && s.registered <= s'.registered
  {
    if !s.threads[tid].Replacing? && !s.threads[tid].Registering? && !s.threads[tid].Unregistering? {
      RunIsQuiet(s, tid, now);
    }
  }

  /** Nobody who registered before becomes current by a call. */
  lemma CurrentWasCurrent(s: State, tid: nat, now: int, c: Client, cfg: Config)
    requires Inv(s, cfg) && tid < |s.threads| && c.connID in s.registered
    requires IsCurrent(RunThread(s, tid, s.threads[tid], now).clients, c.uid, c.sid, c.connID)
    ensures IsCurrent(s.clients, c.uid, c.sid, c.connID)
  {
    var t := s.threads[tid];
    assert ThreadOk(s, t, cfg);
    if !t.Replacing? && !t.Registering? && !t.Unregistering? {
      RunIsQuiet(s, tid, now);
    }
  }

  lemma RemovalGoesOn(s: State, tid: nat, now: int, c: Client, cfg: Config)
    requires Inv(s, cfg) && tid < |s.threads| && Known(s, c) && WillRemove(s.threads[tid], c)
    requires IsCurrent(s.clients, c.uid, c.sid, c.connID)
    requires IsCurrent(RunThread(s, tid, s.threads[tid], now).clients, c.uid, c.sid, c.connID)
    ensures WillRemove(RunThread(s, tid, s.threads[tid], now).threads[tid], c)
  {
    var t := s.threads[tid];
    assert Proper(c);
    if t.TimeoutQueued? {
      ParseKeyOfClientKey(c.uid, c.sid, c.connID);
      assert RunTimeout(s, tid, t.key, t.sweep).threads[tid] == TimeoutEvent(c, t.sweep);
    }
  }

  lemma {:induction false} RunKeepsGoing(s: State, steps: seq<Step>, c: Client, cfg: Config)
    requires Inv(s, cfg) && IsRun(s, steps, cfg) && Going(s, c)
    ensures Going(After(s, steps), c)
    decreases |steps|
  {
    if steps != [] {
      StepKeeps(s, steps[0], cfg);
      StepKeepsGoing(s, steps[0], c, cfg);
      RunKeepsGoing(Apply(s, steps[0]), steps[1..], c, cfg);
    }
  }

  /** In every run, once a close event of a registered connection has come and all goroutines have finished, the
      connection is not in the registry, whatever happened in between. */
  lemma CloseIsCarriedOut(before: seq<Step>, after: seq<Step>, cfg: Config, c: Client)
    requires IsRun(INITIAL, before, cfg)
    requires c.connID in After(INITIAL, before).registered && Known(After(INITIAL, before), c)
    requires IsRun(Apply(After(INITIAL, before), Close(c)), after, cfg)
    requires AllFinished(After(Apply(After(INITIAL, before), Close(c)), after))
    ensures !IsCurrent(After(Apply(After(INITIAL, before), Close(c)), after).clients, c.uid, c.sid, c.connID)
  {
    var s := After(INITIAL, before);
    RunKeepsInvariant(INITIAL, before, cfg);
    var s1 := Apply(s, Close(c));
    StepKeeps(s, Close(c), cfg);
    assert WillRemove(s1.threads[|s.threads|], c);
    RunKeepsGoing(s1, after, c, cfg);
  }

  /** The same of a sweep that evicts a registered connection: later heartbeats do not save it. */
  lemma TimeoutIsCarriedOut(before: seq<Step>, now: int, evicted: seq<string>, after: seq<Step>, cfg: Config, c: Client)
    requires IsRun(INITIAL, before, cfg)
    requires c.connID in After(INITIAL, before).registered && Known(After(INITIAL, before), c)
    requires Enabled(After(INITIAL, before), CheckTimeouts(now, evicted), cfg) && Key(c) in evicted
    requires IsRun(Apply(After(INITIAL, before), CheckTimeouts(now, evicted)), after, cfg)
    requires AllFinished(After(Apply(After(INITIAL, before), CheckTimeouts(now, evicted)), after))
    ensures var s := After(Apply(After(INITIAL, before), CheckTimeouts(now, evicted)), after);
      !IsCurrent(s.clients, c.uid, c.sid, c.connID)
  {
    var s := After(INITIAL, before);
    RunKeepsInvariant(INITIAL, before, cfg);
    SweepStartsRemoval(s, now, evicted, c, cfg);
    RunKeepsGoing(Apply(s, CheckTimeouts(now, evicted)), after, c, cfg);
  }

  lemma SweepStartsRemoval(s: State, now: int, evicted: seq<string>, c: Client, cfg: Config)
    requires Inv(s, cfg) && Enabled(s, CheckTimeouts(now, evicted), cfg) && Key(c) in evicted
    requires Known(s, c) && c.connID in s.registered
    ensures Inv(Apply(s, CheckTimeouts(now, evicted)), cfg) && Going(Apply(s, CheckTimeouts(now, evicted)), c)
  {
    var s1 := Apply(s, CheckTimeouts(now, evicted));
    StepKeeps(s, CheckTimeouts(now, evicted), cfg);
    var k :| 0 <= k < |evicted| && evicted[k] == Key(c);
    assert WillRemove(s1.threads[|s.threads| + k], c);
  }

  // ---------- Connects are carried out ----------

  /** The connection has registered, or a goroutine is on the way to that. */
  ghost predicate Coming(s: State, c: Client)
  {
    c.connID in s.registered || exists tid :: 0 <= tid < |s.threads| && Pending(s.threads[tid]) == Some(c)
  }

  lemma StepKeepsComing(s: State, step: Step, c: Client, cfg: Config)
    requires Inv(s, cfg) && Enabled(s, step, cfg) && Coming(s, c)
    ensures Coming(Apply(s, step), c)
  {
    var s' := Apply(s, step);
    if step.Run? {
      RunKeepsRegistered(s, step.tid, step.now, cfg);
    }
    if c.connID !in s'.registered {
      var tid :| 0 <= tid < |s.threads| && Pending(s.threads[tid]) == Some(c);
      if step.Run? {
        RunMoves(s, step.tid, step.now);
      }
      assert Pending(s'.threads[tid]) == Some(c);
    }
  }

  lemma {:induction false} RunKeepsComing(s: State, steps: seq<Step>, c: Client, cfg: Config)
    requires Inv(s, cfg) && IsRun(s, steps, cfg) && Coming(s, c)
    ensures Coming(After(s, steps), c)
    decreases |steps|
  {
    if steps != [] {
      StepKeeps(s, steps[0], cfg);
      StepKeepsComing(s, steps[0], c, cfg);
      RunKeepsComing(Apply(s, steps[0]), steps[1..], c, cfg);
    }
  }

  /** Whoever registered is current, or the log says how they left. */
  ghost predicate RegisteredOk(s: State)
  {
    forall id :: id in s.registered && id in s.issued ==>
      var c := s.issued[id]; IsCurrent(s.clients, c.uid, c.sid, c.connID) || HasLeft(s.log, c)
  }

  lemma StepKeepsRegistered(s: State, step: Step, cfg: Config)
    requires Inv(s, cfg) && Enabled(s, step, cfg) && RegisteredOk(s)
    ensures RegisteredOk(Apply(s, step))
  {
    var s' := Apply(s, step);
    if step.Run? {
      RunKeepsRegisteredOk(s, step.tid, step.now, cfg);
    } else {
      assert s.log <= s'.log;
      forall id | id in s'.registered && id in s'.issued
        ensures var c := s'.issued[id]; IsCurrent(s'.clients, c.uid, c.sid, c.connID) || HasLeft(s'.log, c)
      {
        assert id in s.issued && s'.issued[id] == s.issued[id];
        LeftGrows(s.log, s'.log, s.issued[id]);
      }
    }
  }

  lemma RunKeepsRegisteredOk(s: State, tid: nat, now: int, cfg: Config)
    requires Inv(s, cfg) && tid < |s.threads| && RegisteredOk(s)
    ensures RegisteredOk(RunThread(s, tid, s.threads[tid], now))
  {
    var t := s.threads[tid];
    assert ThreadOk(s, t, cfg);
    var s' := RunThread(s, tid, t, now);
    RunKeepsRegistered(s, tid, now, cfg);
    LogOnlyGrows(s, tid, now);
    forall id | id in s'.registered && id in s'.issued
      ensures var c := s'.issued[id]; IsCurrent(s'.clients, c.uid, c.sid, c.connID) || HasLeft(s'.log, c)
    {
      LeftGrows(s.log, s'.log, s.issued[id]);
      StaysOrLeaves(s, tid, now, s.issued[id], cfg);
    }
  }

  lemma LogOnlyGrows(s: State, tid: nat, now: int)
    requires tid < |s.threads|
    ensures s.log <= RunThread(s, tid, s.threads[tid], now).log
  {
    if !s.threads[tid].Replacing? && !s.threads[tid].Registering? && !s.threads[tid].Unregistering? {
      RunIsQuiet(s, tid, now);
    }
  }

  lemma StaysOrLeaves(s: State, tid: nat, now: int, c: Client, cfg: Config)
    requires Inv(s, cfg) && tid < |s.threads| && Known(s, c)
    requires c.connID in s.registered ==> IsCurrent(s.clients, c.uid, c.sid, c.connID) || HasLeft(s.log, c)
    ensures var s' := RunThread(s, tid, s.threads[tid], now);
      c.connID in s'.registered ==> IsCurrent(s'.clients, c.uid, c.sid, c.connID) || HasLeft(s'.log, c)
  {
    var t := s.threads[tid];
    assert ThreadOk(s, t, cfg);
    var s' := RunThread(s, tid, t, now);
    LogOnlyGrows(s, tid, now);
    LeftGrows(s.log, s'.log, c);
    if t.Registering? {
      if t.c.uid in s.clients {
        assert s'.log[|s.log|] == Left(s.clients[t.c.uid], ByRegistration(t.c));
      }
    } else if t.Replacing? && IsCurrent(s.clients, t.prev.uid, t.prev.sid, t.prev.connID) {
      assert s'.log[|s.log|] == Left(t.prev, ByReplacement(t.c));
    } else if t.Unregistering? && IsCurrent(s.clients, t.named.uid, t.named.sid, t.named.connID) {
      assert s'.log[|s.log|] == Left(t.named, t.reason);
    } else {
      SameClients(s, tid, now);
    }
  }

  lemma SameClients(s: State, tid: nat, now: int)
    requires tid < |s.threads| && !s.threads[tid].Registering?
    requires var t := s.threads[tid];
      t.Replacing? ==> !IsCurrent(s.clients, t.prev.uid, t.prev.sid, t.prev.connID)
    requires var t := s.threads[tid];
      t.Unregistering? ==> !IsCurrent(s.clients, t.named.uid, t.named.sid, t.named.connID)
    ensures var s' := RunThread(s, tid, s.threads[tid], now); s'.clients == s.clients && s'.registered == s.registered
  {
    if !s.threads[tid].Replacing? && !s.threads[tid].Unregistering? {
      RunIsQuiet(s, tid, now);
    }
  }

  lemma {:induction false} RunKeepsRegisteredLogged(s: State, steps: seq<Step>, cfg: Config)
    requires Inv(s, cfg) && IsRun(s, steps, cfg) && RegisteredOk(s)
    ensures RegisteredOk(After(s, steps))
    decreases |steps|
  {
    if steps != [] {
      StepKeeps(s, steps[0], cfg);
      StepKeepsRegistered(s, steps[0], cfg);
      RunKeepsRegisteredLogged(Apply(s, steps[0]), steps[1..], cfg);
    }
  }

  /** In every run, once a connection was accepted and all goroutines have finished, it has registered: it is in the
      registry, or the log says how it left. */
  lemma ConnectIsCarriedOut(before: seq<Step>, after: seq<Step>, cfg: Config, c: Client)
    requires IsRun(INITIAL, before, cfg) && Enabled(After(INITIAL, before), Connect(c), cfg)
    requires IsRun(Apply(After(INITIAL, before), Connect(c)), after, cfg)
    requires AllFinished(After(Apply(After(INITIAL, before), Connect(c)), after))
    ensures var s := After(Apply(After(INITIAL, before), Connect(c)), after);
      IsCurrent(s.clients, c.uid, c.sid, c.connID) || HasLeft(s.log, c)
  {
    var s := After(INITIAL, before);
    RunKeepsInvariant(INITIAL, before, cfg);
    RunKeepsRegisteredLogged(INITIAL, before, cfg);
    var s1 := Apply(s, Connect(c));
    StepKeeps(s, Connect(c), cfg);
    StepKeepsRegistered(s, Connect(c), cfg);
    assert Pending(s1.threads[|s.threads|]) == Some(c);
    RunKeepsComing(s1, after, c, cfg);
    RunKeepsRegisteredLogged(s1, after, cfg);
    RunKeepsInvariant(s1, after, cfg);
    IssuedStays(s1, after, c, cfg);
  }

  lemma {:induction false} IssuedStays(s: State, steps: seq<Step>, c: Client, cfg: Config)
    requires Inv(s, cfg) && IsRun(s, steps, cfg) && Known(s, c)
    ensures Known(After(s, steps), c)
    decreases |steps|
  {
    if steps != [] {
      if steps[0].Run? {
        RunKeepsRegistered(s, steps[0].tid, steps[0].now, cfg);
      }
      StepKeeps(s, steps[0], cfg);
      IssuedStays(Apply(s, steps[0]), steps[1..], c, cfg);
    }
  }

  /** A replacement without a race: the earlier connection of the user is removed, for the newcomer, and its heartbeat
      entries are gone before the newcomer registers. */
  lemma ReplacementIsCarriedOut(s: State, tid: nat, c: Client, now: int, cfg: Config)
    requires Inv(s, cfg) && tid < |s.threads| && s.threads[tid] == Connecting(c) && c.uid in s.clients
    ensures var prev := s.clients[c.uid];
      var s' := After(s, [Run(tid, now), Run(tid, now), Run(tid, now)]);
      && s'.threads == s.threads[tid := Registering(c)] && s'.clients == s.clients - {c.uid}
      && s'.log == s.log + [Left(prev, ByReplacement(c))]
      && Key(prev) !in s'.beats && LegacyKey(prev.uid, prev.sid) !in s'.beats
  {
    var prev := s.clients[c.uid];
    var step := Run(tid, now);
    assert Known(s, prev) && Proper(prev);
    var s1 := Apply(s, step);
    var s2 := Apply(s1, step);
    var s3 := Apply(s2, step);
    Next(s, step, [step, step], cfg);
    Next(s1, step, [step], cfg);
    Next(s2, step, [], cfg);
    assert s1.threads[tid] == Replacing(c, prev);
    assert s2.threads[tid] == PurgingReplaced(c, prev);
    assert s3.threads == s.threads[tid := Registering(c)];
  }

  /** A timeout of a key without connection id is one of the user's current connection if that has the same session, and
      otherwise only clears the key. */
  lemma LegacyTimeout(s: State, tid: nat, uid: string, sid: string, sweep: nat)
    requires tid < |s.threads| && Plain(uid) && Plain(sid)
    ensures var s' := RunTimeout(s, tid, LegacyKey(uid, sid), sweep);
      if uid in s.clients && s.clients[uid].sid == sid
      then s' == Goto(s, tid, TimeoutEvent(Client(uid, sid, s.clients[uid].connID), sweep))
      else s' == Goto(s.(beats := s.beats - {LegacyKey(uid, sid)}), tid, Finished)
  {
    ParseKeyOfLegacyKey(uid, sid);
  }

  /** Removing the heartbeat keys of a connection takes its own key and the legacy key of its session, and no other. */
  lemma PurgeTakesKeys(beats: map<string, int>, c: Client, key: string)
    requires Proper(c)
    ensures key in WithoutKeys(beats, c) <==> key in beats && key != Key(c) && key != LegacyKey(c.uid, c.sid)
    ensures key in WithoutKeys(beats, c) ==> WithoutKeys(beats, c)[key] == beats[key]
  {
  }

  // ---------- Sweeps ----------

  /** A sweep takes the evicted entries out of the table and leaves all others. */
  lemma SweepTakesEvicted(s: State, now: int, evicted: seq<string>, key: string)
    ensures var s' := Apply(s, CheckTimeouts(now, evicted));
      && (key in s'.beats <==> key in s.beats && key !in evicted)
      && (key in s'.beats ==> s'.beats[key] == s.beats[key])
  {
  }

  lemma {:induction false} Oldest(beats: map<string, int>) returns (key: string)
    requires beats != map[]
    ensures key in beats && forall other :: other in beats ==> beats[key] <= beats[other]
    decreases |beats|
  {
    key :| key in beats;
    var rest := beats - {key};
    assert beats.Keys == rest.Keys + {key};
    if rest != map[] {
      var other := Oldest(rest);
      if beats[other] < beats[key] {
        key := other;
      }
    }
  }

  /** At any time a sweep is possible, and it evicts somebody if anybody is overdue. */
  lemma SweepIsPossible(s: State, now: int, cfg: Config) returns (evicted: seq<string>)
    ensures Enabled(s, CheckTimeouts(now, evicted), cfg)
    ensures cfg.batchSize > 0 && (exists key :: key in s.beats && now - s.beats[key] > cfg.timeout) ==> evicted != []
  {
    var left := s.beats;
    evicted := [];
    Heartbeat.EvictNone(s.beats, now, cfg.timeout);
    while |evicted| < cfg.batchSize && exists key :: key in left && now - left[key] > cfg.timeout
      invariant Heartbeat.Evicted(s.beats, left, evicted, now, cfg.timeout) && |evicted| <= cfg.batchSize
      invariant evicted == [] ==> left == s.beats
      decreases cfg.batchSize - |evicted|
    {
      var key := Oldest(left);
      Heartbeat.EvictOneMore(s.beats, left, left - {key}, evicted, key, now, cfg.timeout);
      left := left - {key};
      evicted := evicted + [key];
    }
    assert left == AfterSweep(s.beats, evicted);
  }
}
