/** The frequency limit of db/query/room_mute.go for one user in one room: aligned windows, one Redis counter
    per rule version and window, checked before a message is accepted and credited after it was stored
    (quic/handler/message_handler.go). Times are milliseconds. */
module RateLimit {
  import opened Options

  // ---------- Rules ----------

  /** rule_config after JSON decoding; absent numbers decode to 0. */
  datatype RuleConfig = NotAnObject | RuleConfig(unit: string, intervalValue: real, maxMessages: real)

  datatype Rule = Rule(windowSec: nat, maxMsg: nat) {
    function WindowMs(): nat
    {
      windowSec * 1000
    }
  }

  function UnitSeconds(unit: string): nat
  {
    if unit == "minute" then 60 else if unit == "hour" then 60 * 60 else if unit == "day" then 24 * 60 * 60 else 0
  }

  /** parseFrequencyRuleConfig. Fractions are cut off, so the window or the maximum may come out as 0. */
  function ParseRule(cfg: RuleConfig): Option<Rule>
  {
    if cfg.NotAnObject? || cfg.unit == "" || cfg.intervalValue <= 0.0 || cfg.maxMessages <= 0.0 then None
    else if UnitSeconds(cfg.unit) == 0 then None
    else
      Some(Rule(cfg.intervalValue.Floor * UnitSeconds(cfg.unit), cfg.maxMessages.Floor))
  }

  /** A rule limits anything only with a positive window. */
  predicate Limits(rule: Rule)
  {
    rule.WindowMs() > 0
  }

  /** A parsed rule limits exactly when the interval is at least 1, and lets at least one message pass when the
      maximum is. */
  lemma ParsedRule(cfg: RuleConfig)
    requires ParseRule(cfg).Some?
    ensures Limits(ParseRule(cfg).value) <==> cfg.intervalValue >= 1.0
    ensures ParseRule(cfg).value.maxMsg >= 1 <==> cfg.maxMessages >= 1.0
  {
    var whole := cfg.intervalValue.Floor;
    var unit := UnitSeconds(cfg.unit);
    assert whole >= 1 <==> cfg.intervalValue >= 1.0;
    if whole >= 1 {
      assert whole * unit >= unit;
    } else {
      assert whole == 0;
    }
  }

  /** What makes a rule: one of three units, of 60, 3600 or 86400 seconds, and positive numbers, cut to integers. */
  lemma RuleOfConfig(cfg: RuleConfig) returns (n: nat)
    ensures ParseRule(cfg).Some? <==>
            && cfg.RuleConfig? && (cfg.unit == "minute" || cfg.unit == "hour" || cfg.unit == "day")
            && cfg.intervalValue > 0.0 && cfg.maxMessages > 0.0
    ensures ParseRule(cfg).Some? ==>
              var rule := ParseRule(cfg).value;
              && rule.maxMsg as real <= cfg.maxMessages < (rule.maxMsg + 1) as real
              && n as real <= cfg.intervalValue < (n + 1) as real
              && (cfg.unit == "minute" ==> rule.WindowMs() == n * 60000)
              && (cfg.unit == "hour" ==> rule.WindowMs() == n * 3600000)
              && (cfg.unit == "day" ==> rule.WindowMs() == n * 86400000)
  {
    n := if ParseRule(cfg).Some? then cfg.intervalValue.Floor else 0;
  }

  // ---------- Windows ----------

  function Window(rule: Rule, at: int): int
    requires Limits(rule)
  {
    at / rule.WindowMs()
  }

  lemma WindowBounds(rule: Rule, at: int)
    requires Limits(rule)
    ensures Window(rule, at) * rule.WindowMs() <= at < (Window(rule, at) + 1) * rule.WindowMs()
  {
  }

  lemma CancelFactor(x: int, y: int, w: int)
    requires w > 0 && x * w < y * w
    ensures x < y
  {
    assert (y - x) * w > 0;
  }

  lemma WindowMonotone(rule: Rule, a: int, b: int)
    requires Limits(rule) && a <= b
    ensures Window(rule, a) <= Window(rule, b)
    ensures b < a + rule.WindowMs() ==> Window(rule, b) <= Window(rule, a) + 1
  {
    var w := rule.WindowMs();
    var p, q := Window(rule, a), Window(rule, b);
    WindowBounds(rule, a);
    WindowBounds(rule, b);
    CancelFactor(p, q + 1, w);
    if b < a + w {
      assert (p + 2) * w == (p + 1) * w + w;
      CancelFactor(q, p + 2, w);
    }
  }

  lemma WindowOf(rule: Rule, w: int, at: int)
    requires Limits(rule) && w * rule.WindowMs() <= at < (w + 1) * rule.WindowMs()
    ensures Window(rule, at) == w
  {
    WindowBounds(rule, at);
    CancelFactor(w, Window(rule, at) + 1, rule.WindowMs());
    CancelFactor(Window(rule, at), w + 1, rule.WindowMs());
  }

  // ---------- Counters ----------

  /** Redis counters by rule version and window id, with the time at which they expire. */
  datatype Counter = Counter(count: nat, expireAt: int)

  type Counters = map<(nat, int), Counter>

  /** GET of a counter; an expired or missing key reads as none. */
  function Read(counters: Counters, version: nat, window: int, at: int): Option<nat>
  {
    if (version, window) in counters && at < counters[(version, window)].expireAt
    then Some(counters[(version, window)].count) else None
  }

  predicate Over(rule: Rule, counters: Counters, version: nat, at: int)
    requires Limits(rule)
  {
    var count := Read(counters, version, Window(rule, at), at);
    count.Some? && count.value >= rule.maxMsg
  }

  /** INCR, then EXPIRE after the window length and a minute. */
  function Credited(rule: Rule, counters: Counters, version: nat, at: int): Counters
    requires Limits(rule)
  {
    var w := Window(rule, at);
    var count := Read(counters, version, w, at);
    counters[(version, w) := Counter(if count.Some? then count.value + 1 else 1, at + (rule.windowSec + 60) * 1000)]
  }

  function MuteUntil(rule: Rule, at: int): int
    requires Limits(rule)
  {
    (Window(rule, at) + 1) * rule.WindowMs()
  }

  /** One user's counters in one room. */
  class FrequencyLimiter {
    const rule: Option<Rule>
    var version: nat
    var counters: Counters

    constructor (cfg: RuleConfig)
      ensures Valid() && rule == ParseRule(cfg) && version == 0 && counters == map[]
    {
      rule := ParseRule(cfg);
      version := 0;
      counters := map[];
    }

    /** No counter is ahead of the current rule version. */
    ghost predicate Valid()
      reads this
    {
      forall v: nat, w: int :: (v, w) in counters ==> v <= version
    }

    predicate Active()
    {
      rule.Some? && Limits(rule.value)
    }

    /** isUserOverFrequencyLimit */
    method IsOverLimit(now: int) returns (over: bool)
      ensures over <==> Active() && Over(rule.value, counters, version, now)
      ensures over <==>
                && rule.Some? && rule.value.windowSec > 0
                && (version, now / rule.value.WindowMs()) in counters
                && var c := counters[(version, now / rule.value.WindowMs())];
                   now < c.expireAt && c.count >= rule.value.maxMsg
    {
      if rule.None? || rule.value.WindowMs() <= 0 {
        return false;
      }
      var windowID := now / rule.value.WindowMs();
      var count := Read(counters, version, windowID, now);
      return count.Some? && count.value >= rule.value.maxMsg;
    }

    /** GetFrequencyMuteUntil */
    method GetMuteUntil(now: int) returns (until: Option<int>)
      ensures until == if Active() && Over(rule.value, counters, version, now)
                       then Some(MuteUntil(rule.value, now)) else None
      ensures until.Some? ==> now < until.value <= now + rule.value.WindowMs()
    {
      var over := IsOverLimit(now);
      if !over {
        return None;
      }
      WindowBounds(rule.value, now);
      var w, ms := now / rule.value.WindowMs(), rule.value.WindowMs();
      assert (w + 1) * ms == w * ms + ms;
      return Some((w + 1) * ms);
    }

    /** IncrRoomMessageFrequencyCount */
    method Increment(now: int)
      requires Valid()
      modifies `counters
      ensures Valid()
      ensures counters == if Active() then Credited(rule.value, old(counters), version, now) else old(counters)
      ensures rule.Some? && rule.value.windowSec > 0 ==>
                var key := (version, now / rule.value.WindowMs());
                && key in counters && counters - {key} == old(counters) - {key}
                && counters[key].expireAt == now + rule.value.windowSec * 1000 + 60000
                && counters[key].count ==
                     if key in old(counters) && now < old(counters)[key].expireAt
                     then old(counters)[key].count + 1 else 1
    {
      if rule.None? || rule.value.WindowMs() <= 0 {
        return;
      }
      var windowID := now / rule.value.WindowMs();
      var count := Read(counters, version, windowID, now);
      var next := if count.Some? then count.value + 1 else 1;
      counters := counters[(version, windowID) := Counter(next, now + (rule.value.windowSec + 60) * 1000)];
    }

    /** ResetRoomMuteFrequencyCount: the old counters stay behind, so the user is free at once and at any time. */
    method Reset()
      requires Valid()
      modifies `version
      ensures Valid() && version == old(version) + 1
      ensures Active() ==> forall at :: !Over(rule.value, counters, version, at)
    {
      version := version + 1;
    }
  }

  // ---------- One user's sends ----------

  datatype Credit = Credit(version: nat, at: int)

  /** pending is the number of admitted messages that wait to be credited. */
  datatype State = State(
    version: nat,
    counters: Counters,
    pending: nat,
    now: int,
    credits: seq<Credit>)

  datatype Step =
    | Check(at: int)    // a message is admitted or rejected
    | Store(at: int)    // an admitted message was stored: it is credited
    | Abandon(at: int)  // an admitted message failed later on
    | ResetRule(at: int)

  /** The clock does not run backwards. Every message has a goroutine of its own, so several may be admitted before the
      first of them is credited; k is the most that wait at a time. */
  predicate Enabled(s: State, step: Step, k: nat)
  {
    && step.at >= s.now
    && (step.Check? ==> s.pending < k)
    && (step.Store? || step.Abandon? ==> s.pending > 0)
  }

  function Apply(rule: Rule, s: State, step: Step): State
    requires Limits(rule)
  {
    match step
    case Check(at) =>
      s.(now := at, pending := if Over(rule, s.counters, s.version, at) then s.pending else s.pending + 1)
    case Store(at) =>
      s.(now := at,
         pending := if s.pending > 0 then s.pending - 1 else 0,
         counters := Credited(rule, s.counters, s.version, at),
         credits := s.credits + [Credit(s.version, at)])
    case Abandon(at) => s.(now := at, pending := if s.pending > 0 then s.pending - 1 else 0)
    case ResetRule(at) => s.(now := at, version := s.version + 1)
  }

  predicate IsRun(rule: Rule, s: State, steps: seq<Step>, k: nat)
    requires Limits(rule)
    decreases |steps|
  {
    steps == [] || (Enabled(s, steps[0], k) && IsRun(rule, Apply(rule, s, steps[0]), steps[1..], k))
  }

  function After(rule: Rule, s: State, steps: seq<Step>): State
    requires Limits(rule)
    decreases |steps|
  {
    if steps == [] then s else After(rule, Apply(rule, s, steps[0]), steps[1..])
  }

  function Start(now: int): State
  {
    State(0, map[], 0, now, [])
  }

  // ---------- Counting ----------

  /** The messages credited in one window under one rule version. */
  function InWindow(rule: Rule, credits: seq<Credit>, version: nat, window: int): nat
    requires Limits(rule)
  {
    if credits == [] then 0
    else
      var last := credits[|credits| - 1];
      InWindow(rule, credits[..|credits| - 1], version, window)
      + if last.version == version && Window(rule, last.at) == window then 1 else 0
  }

  /** The messages credited in a time span under one rule version. */
  function InSpan(credits: seq<Credit>, version: nat, from: int, to: int): nat
  {
    if credits == [] then 0
    else
      var last := credits[|credits| - 1];
      InSpan(credits[..|credits| - 1], version, from, to)
      + if last.version == version && from <= last.at < to then 1 else 0
  }

  /** The most messages in one window while at most k are waiting at a time. */
  function Bound(rule: Rule, k: nat): nat
    requires k >= 1
  {
    (if rule.maxMsg == 0 then 1 else rule.maxMsg) + k - 1
  }

  lemma CreditCounts(rule: Rule, credits: seq<Credit>, c: Credit, version: nat, window: int)
    requires Limits(rule)
    ensures InWindow(rule, credits + [c], version, window) == InWindow(rule, credits, version, window)
              + if c.version == version && Window(rule, c.at) == window then 1 else 0
  {
    assert (credits + [c])[..|credits|] == credits;
  }

  lemma {:induction false} NoCreditNoCount(rule: Rule, credits: seq<Credit>, version: nat, window: int)
    requires Limits(rule)
    requires forall k :: 0 <= k < |credits| ==> credits[k].version != version || Window(rule, credits[k].at) != window
    ensures InWindow(rule, credits, version, window) == 0
  {
    if credits != [] {
      NoCreditNoCount(rule, credits[..|credits| - 1], version, window);
    }
  }

  // ---------- The invariant ----------

  /** A counter that expires at this time is alive throughout the window. */
  ghost predicate Outlives(rule: Rule, expireAt: int, window: int)
    requires Limits(rule)
  {
    forall at :: Window(rule, at) == window ==> at < expireAt
  }

  /** A counter holds the number of its credits and outlives its window. */
  ghost predicate CountersOk(rule: Rule, s: State)
    requires Limits(rule)
  {
    && (forall v: nat, w: int :: (v, w) in s.counters ==>
          && s.counters[(v, w)].count == InWindow(rule, s.credits, v, w) > 0
          && Outlives(rule, s.counters[(v, w)].expireAt, w))
    && (forall v: nat, w: int :: (v, w) !in s.counters ==> InWindow(rule, s.credits, v, w) == 0)
  }

  /** No window of any version was credited too often. */
  ghost predicate WindowsOk(rule: Rule, credits: seq<Credit>, k: nat)
    requires Limits(rule) && k >= 1
  {
    forall v: nat, w: int :: InWindow(rule, credits, v, w) <= Bound(rule, k)
  }

  predicate PastOk(s: State)
  {
    forall i :: 0 <= i < |s.credits| ==> s.credits[i].at <= s.now && s.credits[i].version <= s.version
  }

  /** The current window, and every later one, has room for all messages that wait. */
  ghost predicate PendingOk(rule: Rule, s: State, k: nat)
    requires Limits(rule) && k >= 1
  {
    && s.pending <= k
    && forall w :: w >= Window(rule, s.now) ==> InWindow(rule, s.credits, s.version, w) + s.pending <= Bound(rule, k)
  }

  ghost predicate HistoryOk(rule: Rule, s: State, k: nat)
    requires Limits(rule) && k >= 1
  {
    PastOk(s) && WindowsOk(rule, s.credits, k) && PendingOk(rule, s, k)
  }

  ghost predicate Inv(rule: Rule, s: State, k: nat)
    requires Limits(rule) && k >= 1
  {
    CountersOk(rule, s) && HistoryOk(rule, s, k)
  }

  /** Inside its window a counter reads as the number of its credits. */
  lemma ReadIsExact(rule: Rule, s: State, version: nat, at: int)
    requires Limits(rule) && CountersOk(rule, s)
    ensures var n := InWindow(rule, s.credits, version, Window(rule, at));
      Read(s.counters, version, Window(rule, at), at) ==
        if (version, Window(rule, at)) in s.counters then Some(n) else None
  {
  }

  /** Nothing was credited in a later window, nor under a later version. */
  lemma FutureIsEmpty(rule: Rule, s: State, version: nat, w: int)
    requires Limits(rule) && PastOk(s) && (version > s.version || w > Window(rule, s.now))
    ensures InWindow(rule, s.credits, version, w) == 0
  {
    forall i | 0 <= i < |s.credits|
      ensures s.credits[i].version <= s.version && Window(rule, s.credits[i].at) <= Window(rule, s.now)
    {
      WindowMonotone(rule, s.credits[i].at, s.now);
    }
    NoCreditNoCount(rule, s.credits, version, w);
  }

  /** As time goes on, and when messages fail or the rule is reset, the room for the waiting messages stays. */
  lemma WaitKeeps(rule: Rule, s: State, s': State, k: nat)
    requires Limits(rule) && k >= 1 && Inv(rule, s, k)
    requires s'.now >= s.now && s'.version >= s.version && s'.credits == s.credits && s'.counters == s.counters
    requires s'.pending <= s.pending
    ensures Inv(rule, s', k)
  {
    WindowMonotone(rule, s.now, s'.now);
    forall w | w >= Window(rule, s'.now)
      ensures InWindow(rule, s.credits, s'.version, w) + s'.pending <= Bound(rule, k)
    {
      if s'.version > s.version {
        FutureIsEmpty(rule, s, s'.version, w);
      }
    }
  }

  /** A message that is not over the limit leaves the window at most the maximum minus one, whatever waits. */
  lemma CheckKeeps(rule: Rule, s: State, at: int, k: nat)
    requires Limits(rule) && k >= 1 && Inv(rule, s, k) && Enabled(s, Check(at), k)
    ensures Inv(rule, Apply(rule, s, Check(at)), k)
  {
    var waited := s.(now := at);
    WaitKeeps(rule, s, waited, k);
    if !Over(rule, s.counters, s.version, at) {
      ReadIsExact(rule, s, s.version, at);
      var s' := Apply(rule, s, Check(at));
      forall w | w >= Window(rule, at) ensures InWindow(rule, s.credits, s.version, w) + s'.pending <= Bound(rule, k) {
        if w > Window(rule, at) {
          FutureIsEmpty(rule, waited, s.version, w);
        }
      }
    }
  }

  /** When an admitted message is credited its window has room: however many wait, and whenever they were checked. */
  lemma RoomForCredit(rule: Rule, s: State, at: int, k: nat)
    requires Limits(rule) && k >= 1 && HistoryOk(rule, s, k) && Enabled(s, Store(at), k)
    ensures InWindow(rule, s.credits, s.version, Window(rule, at)) < Bound(rule, k)
  {
    WindowMonotone(rule, s.now, at);
  }

  /** A counter credited inside its window expires after the window. */
  lemma CounterOutlivesWindow(rule: Rule, at: int)
    requires Limits(rule)
    ensures Outlives(rule, at + (rule.windowSec + 60) * 1000, Window(rule, at))
  {
    forall other | Window(rule, other) == Window(rule, at) ensures other < at + (rule.windowSec + 60) * 1000 {
      WindowBounds(rule, at);
      WindowBounds(rule, other);
      var w := Window(rule, at);
      assert (w + 1) * rule.WindowMs() == w * rule.WindowMs() + rule.WindowMs();
    }
  }

  /** n credits count in their own version and window only, and in every span around their time. */
  ghost predicate CountsMore(rule: Rule, before: seq<Credit>, after: seq<Credit>, version: nat, at: int, n: nat)
    requires Limits(rule)
  {
    && (forall v: nat, w: int :: InWindow(rule, after, v, w) ==
          InWindow(rule, before, v, w) + if v == version && w == Window(rule, at) then n else 0)
    && (forall from, to :: from <= at < to ==>
            InSpan(after, version, from, to) == InSpan(before, version, from, to) + n)
  }

  lemma StoreCounts(rule: Rule, credits: seq<Credit>, version: nat, at: int)
    requires Limits(rule)
    ensures CountsMore(rule, credits, credits + [Credit(version, at)], version, at, 1)
  {
    var c := Credit(version, at);
    forall v: nat, w: int
      ensures InWindow(rule, credits + [c], v, w) ==
              InWindow(rule, credits, v, w) + if v == version && w == Window(rule, at) then 1 else 0
    {
      CreditCounts(rule, credits, c, v, w);
    }
    assert (credits + [c])[..|credits|] == credits;
  }

  lemma StoreKeepsCounters(rule: Rule, s: State, s': State, at: int)
    requires Limits(rule) && CountersOk(rule, s) && s'.counters == Credited(rule, s.counters, s.version, at)
    requires CountsMore(rule, s.credits, s'.credits, s.version, at, 1)
    ensures CountersOk(rule, s')
  {
    ReadIsExact(rule, s, s.version, at);
    CounterOutlivesWindow(rule, at);
  }

  lemma StoreKeepsWindows(rule: Rule, before: seq<Credit>, after: seq<Credit>, version: nat, at: int, k: nat)
    requires Limits(rule) && k >= 1 && WindowsOk(rule, before, k) && CountsMore(rule, before, after, version, at, 1)
    requires InWindow(rule, before, version, Window(rule, at)) < Bound(rule, k)
    ensures WindowsOk(rule, after, k)
  {
  }

  /** The credited message takes the room that was kept for it, and the others keep theirs. */
  lemma StoreKeepsPending(rule: Rule, s: State, s': State, at: int, k: nat)
    requires Limits(rule) && k >= 1 && PendingOk(rule, s, k) && s.pending > 0 && at >= s.now
    requires CountsMore(rule, s.credits, s'.credits, s.version, at, 1)
    requires s'.pending == s.pending - 1 && s'.now == at && s'.version == s.version
    ensures PendingOk(rule, s', k)
  {
    WindowMonotone(rule, s.now, at);
  }

  lemma StoreKeepsHistory(rule: Rule, s: State, s': State, at: int, k: nat)
    requires Limits(rule) && k >= 1 && HistoryOk(rule, s, k) && s.pending > 0 && at >= s.now
    requires CountsMore(rule, s.credits, s'.credits, s.version, at, 1)
    requires s'.credits == s.credits + [Credit(s.version, at)]
    requires s'.pending == s.pending - 1 && s'.now == at && s'.version == s.version
    ensures HistoryOk(rule, s', k)
  {
    RoomForCredit(rule, s, at, k);
    StoreKeepsWindows(rule, s.credits, s'.credits, s.version, at, k);
    StoreKeepsPending(rule, s, s', at, k);
  }

  lemma StoreKeeps(rule: Rule, s: State, at: int, k: nat)
    requires Limits(rule) && k >= 1 && Inv(rule, s, k) && Enabled(s, Store(at), k)
    ensures Inv(rule, Apply(rule, s, Store(at)), k)
  {
    var s' := Apply(rule, s, Store(at));
    StoreCounts(rule, s.credits, s.version, at);
    StoreKeepsCounters(rule, s, s', at);
    StoreKeepsHistory(rule, s, s', at, k);
  }

  lemma StepKeeps(rule: Rule, s: State, step: Step, k: nat)
    requires Limits(rule) && k >= 1 && Inv(rule, s, k) && Enabled(s, step, k)
    ensures Inv(rule, Apply(rule, s, step), k)
  {
    match step
    case Check(at) => CheckKeeps(rule, s, at, k);
    case Store(at) => StoreKeeps(rule, s, at, k);
    case Abandon(at) => WaitKeeps(rule, s, Apply(rule, s, step), k);
    case ResetRule(at) => WaitKeeps(rule, s, Apply(rule, s, step), k);
  }

  lemma {:induction false} RunKeepsInvariant(rule: Rule, s: State, steps: seq<Step>, k: nat)
    requires Limits(rule) && k >= 1 && Inv(rule, s, k) && IsRun(rule, s, steps, k)
    ensures Inv(rule, After(rule, s, steps), k)
    decreases |steps|
  {
    if steps != [] {
      StepKeeps(rule, s, steps[0], k);
      RunKeepsInvariant(rule, Apply(rule, s, steps[0]), steps[1..], k);
    }
  }

  /** After a change of the rule the user is free at any time, whatever was credited before. */
  lemma ResetFrees(rule: Rule, s: State, at: int, later: int, k: nat)
    requires Limits(rule) && k >= 1 && Inv(rule, s, k)
    ensures var s' := Apply(rule, s, ResetRule(at)); !Over(rule, s'.counters, s'.version, later)
  {
    FutureIsEmpty(rule, s, s.version + 1, Window(rule, later));
    ReadIsExact(rule, s, s.version + 1, later);
  }

  /** A message that failed leaves its place to another one and is not counted. */
  lemma AbandonFrees(rule: Rule, s: State, at: int, k: nat)
    requires Limits(rule) && Enabled(s, Abandon(at), k) && s.pending <= k
    ensures var s' := Apply(rule, s, Abandon(at)); Enabled(s', Check(at), k) && s'.credits == s.credits
  {
  }

  // ---------- Upper bounds ----------

  /** In every run with at most k messages waiting at a time, no window is credited more than max_messages + k - 1 under
      one rule version, also when check and credit fall into different windows; a maximum below 1 counts as 1. */
  lemma WindowIsBounded(rule: Rule, now: int, steps: seq<Step>, k: nat, version: nat, window: int)
    requires Limits(rule) && k >= 1 && IsRun(rule, Start(now), steps, k)
    ensures InWindow(rule, After(rule, Start(now), steps).credits, version, window) <= Bound(rule, k)
  {
    RunKeepsInvariant(rule, Start(now), steps, k);
  }

  lemma {:induction false} SpanIsTwoWindows(rule: Rule, credits: seq<Credit>, version: nat, from: int)
    requires Limits(rule)
    ensures var w := Window(rule, from);
      InSpan(credits, version, from, from + rule.WindowMs()) <=
        InWindow(rule, credits, version, w) + InWindow(rule, credits, version, w + 1)
  {
    if credits != [] {
      var last := credits[|credits| - 1];
      SpanIsTwoWindows(rule, credits[..|credits| - 1], version, from);
      if from <= last.at < from + rule.WindowMs() {
        WindowMonotone(rule, from, last.at);
      }
    }
  }

  /** In every run any span of one window length holds at most twice the bound. */
  lemma SpanIsBounded(rule: Rule, now: int, steps: seq<Step>, k: nat, version: nat, from: int)
    requires Limits(rule) && k >= 1 && IsRun(rule, Start(now), steps, k)
    ensures InSpan(After(rule, Start(now), steps).credits, version, from, from + rule.WindowMs()) <= 2 * Bound(rule, k)
  {
    RunKeepsInvariant(rule, Start(now), steps, k);
    SpanIsTwoWindows(rule, After(rule, Start(now), steps).credits, version, from);
  }

  lemma StillOver(rule: Rule, s: State, now: int, at: int)
    requires Limits(rule) && CountersOk(rule, s) && Over(rule, s.counters, s.version, now)
    requires now <= at < (Window(rule, now) + 1) * rule.WindowMs()
    ensures Over(rule, s.counters, s.version, at)
  {
    WindowBounds(rule, now);
    WindowOf(rule, Window(rule, now), at);
    ReadIsExact(rule, s, s.version, now);
    ReadIsExact(rule, s, s.version, at);
  }

  /** In every run, a user over the limit is muted until a time in (now, now + window]: the first at which they are free
      while nothing else is credited. */
  lemma MutedUntilFree(rule: Rule, start: int, steps: seq<Step>, k: nat, now: int)
    requires Limits(rule) && k >= 1 && IsRun(rule, Start(start), steps, k)
    requires now >= After(rule, Start(start), steps).now
    requires var s := After(rule, Start(start), steps); Over(rule, s.counters, s.version, now)
    ensures now < MuteUntil(rule, now) <= now + rule.WindowMs()
    ensures var s := After(rule, Start(start), steps); !Over(rule, s.counters, s.version, MuteUntil(rule, now))
    ensures var s := After(rule, Start(start), steps);
      forall at :: now <= at < MuteUntil(rule, now) ==> Over(rule, s.counters, s.version, at)
  {
    var s := After(rule, Start(start), steps).(now := now);
    RunKeepsInvariant(rule, Start(start), steps, k);
    WaitKeeps(rule, After(rule, Start(start), steps), s, k);
    WindowBounds(rule, now);
    var w := Window(rule, now);
    var until := MuteUntil(rule, now);
    assert (w + 1) * rule.WindowMs() == w * rule.WindowMs() + rule.WindowMs();
    assert (w + 2) * rule.WindowMs() == until + rule.WindowMs();
    WindowOf(rule, w + 1, until);
    FutureIsEmpty(rule, s, s.version, w + 1);
    ReadIsExact(rule, s, s.version, until);
    forall at | now <= at < until ensures Over(rule, s.counters, s.version, at) {
      StillOver(rule, s, now, at);
    }
  }

  // ---------- The bounds are reached ----------

  lemma {:induction false} RunsAppend(rule: Rule, s: State, first: seq<Step>, second: seq<Step>, k: nat)
    requires Limits(rule)
    ensures After(rule, s, first + second) == After(rule, After(rule, s, first), second)
    ensures IsRun(rule, s, first + second, k) <==>
            IsRun(rule, s, first, k) && IsRun(rule, After(rule, s, first), second, k)
    decreases |first|
  {
    if first == [] {
      assert first + second == second;
    } else {
      assert (first + second)[1..] == first[1..] + second;
      RunsAppend(rule, Apply(rule, s, first[0]), first[1..], second, k);
    }
  }

  /** n messages at one time, each credited before the next is checked. */
  function OneByOne(at: int, n: nat): seq<Step>
  {
    if n == 0 then [] else [Check(at)] + ([Store(at)] + OneByOne(at, n - 1))
  }

  function Checks(at: int, n: nat): seq<Step>
  {
    if n == 0 then [] else [Check(at)] + Checks(at, n - 1)
  }

  function Stores(at: int, n: nat): seq<Step>
  {
    if n == 0 then [] else [Store(at)] + Stores(at, n - 1)
  }

  /** The most that passes at one time: all but one of the allowed messages, and then k that are checked together. */
  function Burst(rule: Rule, at: int, k: nat): seq<Step>
    requires k >= 1
  {
    OneByOne(at, Bound(rule, 1) - 1) + (Checks(at, k) + Stores(at, k))
  }

  /** What such steps lead to: n more credits at this time. */
  ghost predicate Passed(rule: Rule, s: State, s': State, at: int, n: nat)
    requires Limits(rule)
  {
    s'.version == s.version && s'.now <= at && CountsMore(rule, s.credits, s'.credits, s.version, at, n)
  }

  lemma PassedTwice(rule: Rule, s: State, s1: State, s2: State, at: int, n: nat, m: nat)
    requires Limits(rule) && Passed(rule, s, s1, at, n) && Passed(rule, s1, s2, at, m)
    ensures Passed(rule, s, s2, at, n + m)
  {
  }

  lemma Next(rule: Rule, s: State, step: Step, rest: seq<Step>, k: nat)
    requires Limits(rule)
    ensures After(rule, s, [step] + rest) == After(rule, Apply(rule, s, step), rest)
    ensures IsRun(rule, s, [step] + rest, k) <==> Enabled(s, step, k) && IsRun(rule, Apply(rule, s, step), rest, k)
  {
    assert ([step] + rest)[1..] == rest;
  }

  lemma {:induction false} StoresPass(rule: Rule, s: State, at: int, n: nat, k: nat)
    requires Limits(rule) && s.now <= at && n <= s.pending
    ensures IsRun(rule, s, Stores(at, n), k)
    ensures var s' := After(rule, s, Stores(at, n)); Passed(rule, s, s', at, n) && s'.pending == s.pending - n
    decreases n
  {
    if n > 0 {
      var s1 := Apply(rule, s, Store(at));
      StoreCounts(rule, s.credits, s.version, at);
      assert Stores(at, n)[1..] == Stores(at, n - 1);
      StoresPass(rule, s1, at, n - 1, k);
    }
  }

  lemma {:induction false} ChecksPass(rule: Rule, s: State, at: int, n: nat, k: nat)
    requires Limits(rule) && s.now <= at && s.pending + n <= k && !Over(rule, s.counters, s.version, at)
    ensures IsRun(rule, s, Checks(at, n), k)
    ensures After(rule, s, Checks(at, n)) == s.(pending := s.pending + n, now := if n == 0 then s.now else at)
    decreases n
  {
    if n > 0 {
      assert Checks(at, n)[1..] == Checks(at, n - 1);
      ChecksPass(rule, Apply(rule, s, Check(at)), at, n - 1, k);
    }
  }

  /** A window that was credited less than the maximum, or not at all, admits a message. */
  lemma NotOver(rule: Rule, s: State, at: int)
    requires Limits(rule) && CountersOk(rule, s)
    ensures Over(rule, s.counters, s.version, at) <==>
            var n := InWindow(rule, s.credits, s.version, Window(rule, at)); n > 0 && n >= rule.maxMsg
  {
    ReadIsExact(rule, s, s.version, at);
  }

  lemma OnePasses(rule: Rule, s: State, at: int, k: nat) returns (s': State)
    requires Limits(rule) && k >= 1 && Inv(rule, s, k) && s.pending == 0 && s.now <= at
    requires InWindow(rule, s.credits, s.version, Window(rule, at)) + 1 < Bound(rule, 1)
    ensures Enabled(s, Check(at), k) && Enabled(Apply(rule, s, Check(at)), Store(at), k)
    ensures s' == Apply(rule, Apply(rule, s, Check(at)), Store(at))
    ensures Inv(rule, s', k) && s'.pending == 0 && Passed(rule, s, s', at, 1)
  {
    NotOver(rule, s, at);
    var s1 := Apply(rule, s, Check(at));
    s' := Apply(rule, s1, Store(at));
    CheckKeeps(rule, s, at, k);
    StoreKeeps(rule, s1, at, k);
    StoreCounts(rule, s.credits, s.version, at);
  }

  lemma {:induction false} OneByOnePass(rule: Rule, s: State, at: int, n: nat, k: nat)
    requires Limits(rule) && k >= 1 && Inv(rule, s, k) && s.pending == 0 && s.now <= at
    requires InWindow(rule, s.credits, s.version, Window(rule, at)) + n < Bound(rule, 1)
    ensures IsRun(rule, s, OneByOne(at, n), k)
    ensures var s' := After(rule, s, OneByOne(at, n));
      Passed(rule, s, s', at, n) && s'.pending == 0 && !Over(rule, s'.counters, s'.version, at)
    decreases n
  {
    if n == 0 {
      NotOver(rule, s, at);
    } else {
      var s1 := Apply(rule, s, Check(at));
      var s2 := OnePasses(rule, s, at, k);
      OneByOnePass(rule, s2, at, n - 1, k);
      Next(rule, s, Check(at), [Store(at)] + OneByOne(at, n - 1), k);
      Next(rule, s1, Store(at), OneByOne(at, n - 1), k);
      PassedTwice(rule, s, s2, After(rule, s2, OneByOne(at, n - 1)), at, 1, n - 1);
    }
  }

  /** k messages are checked before the first of them is credited: all of them pass. */
  lemma TogetherPass(rule: Rule, s: State, at: int, k: nat)
    requires Limits(rule) && k >= 1 && s.pending == 0 && s.now <= at && !Over(rule, s.counters, s.version, at)
    ensures IsRun(rule, s, Checks(at, k) + Stores(at, k), k)
    ensures var s' := After(rule, s, Checks(at, k) + Stores(at, k)); Passed(rule, s, s', at, k) && s'.pending == 0
  {
    ChecksPass(rule, s, at, k, k);
    StoresPass(rule, After(rule, s, Checks(at, k)), at, k, k);
    RunsAppend(rule, s, Checks(at, k), Stores(at, k), k);
  }

  lemma BurstParts(rule: Rule, s: State, at: int, k: nat)
    requires Limits(rule) && k >= 1
    ensures var first, second := OneByOne(at, Bound(rule, 1) - 1), Checks(at, k) + Stores(at, k);
      && After(rule, s, Burst(rule, at, k)) == After(rule, After(rule, s, first), second)
      && (IsRun(rule, s, first, k) && IsRun(rule, After(rule, s, first), second, k) ==>
            IsRun(rule, s, Burst(rule, at, k), k))
  {
    RunsAppend(rule, s, OneByOne(at, Bound(rule, 1) - 1), Checks(at, k) + Stores(at, k), k);
  }

  lemma BurstPasses(rule: Rule, s: State, at: int, k: nat)
    requires Limits(rule) && k >= 1 && Inv(rule, s, k) && s.pending == 0 && s.now <= at
    requires InWindow(rule, s.credits, s.version, Window(rule, at)) == 0
    ensures IsRun(rule, s, Burst(rule, at, k), k)
    ensures var s' := After(rule, s, Burst(rule, at, k)); Passed(rule, s, s', at, Bound(rule, k)) && s'.pending == 0
  {
    var n := Bound(rule, 1) - 1;
    OneByOnePass(rule, s, at, n, k);
    var s1 := After(rule, s, OneByOne(at, n));
    TogetherPass(rule, s1, at, k);
    PassedTwice(rule, s, s1, After(rule, s1, Checks(at, k) + Stores(at, k)), at, n, k);
    BurstParts(rule, s, at, k);
  }

  /** Under every limiting rule, and for every k, there is a run that fills a window up to the bound. */
  lemma WindowBoundIsReached(rule: Rule, at: int, k: nat)
    requires Limits(rule) && k >= 1
    ensures IsRun(rule, Start(at), Burst(rule, at, k), k)
    ensures InWindow(rule, After(rule, Start(at), Burst(rule, at, k)).credits, 0, Window(rule, at)) == Bound(rule, k)
  {
    BurstPasses(rule, Start(at), at, k);
  }

  /** In every run with at most k messages waiting, every window stays within the maximum itself. */
  ghost predicate KeepsMaximum(rule: Rule, k: nat)
    requires Limits(rule)
  {
    forall now: int, steps: seq<Step>, version: nat, window: int ::
      IsRun(rule, Start(now), steps, k) ==>
        InWindow(rule, After(rule, Start(now), steps).credits, version, window) <= rule.maxMsg
  }

  /** A limiting rule keeps every window within its maximum if and only if the maximum is at least 1 and the user's
      messages are handled one at a time. */
  lemma MaximumIsKept(rule: Rule, k: nat)
    requires Limits(rule) && k >= 1
    ensures KeepsMaximum(rule, k) <==> rule.maxMsg >= 1 && k == 1
  {
    if rule.maxMsg >= 1 && k == 1 {
      forall now: int, steps: seq<Step>, version: nat, window: int | IsRun(rule, Start(now), steps, k)
        ensures InWindow(rule, After(rule, Start(now), steps).credits, version, window) <= rule.maxMsg
      {
        WindowIsBounded(rule, now, steps, k, version, window);
      }
    } else {
      WindowBoundIsReached(rule, 0, k);
    }
  }

  /** The factor of two is real: with a burst at the end of one window and one at the start of the next, a span of one
      window length holds twice the bound. */
  lemma SpanBoundIsReached(rule: Rule, k: nat)
    requires Limits(rule) && k >= 1
    ensures var w := rule.WindowMs();
      var steps := Burst(rule, w - 1, k) + Burst(rule, w, k);
      && IsRun(rule, Start(0), steps, k)
      && InSpan(After(rule, Start(0), steps).credits, 0, w - 1, w - 1 + w) == 2 * Bound(rule, k)
  {
    var w := rule.WindowMs();
    WindowsMeet(rule);
    TwoBursts(rule, w - 1, w, k, w - 1, w - 1 + w);
  }

  lemma WindowsMeet(rule: Rule)
    requires Limits(rule)
    ensures rule.WindowMs() >= 1000
    ensures Window(rule, rule.WindowMs() - 1) == 0 && Window(rule, rule.WindowMs()) == 1
  {
    WindowOf(rule, 0, rule.WindowMs() - 1);
    WindowOf(rule, 1, rule.WindowMs());
  }

  lemma TwoBursts(rule: Rule, a: int, b: int, k: nat, from: int, to: int)
    requires Limits(rule) && k >= 1 && 0 <= a <= b && Window(rule, a) != Window(rule, b) && from <= a && b < to
    ensures IsRun(rule, Start(0), Burst(rule, a, k) + Burst(rule, b, k), k)
    ensures InSpan(After(rule, Start(0), Burst(rule, a, k) + Burst(rule, b, k)).credits, 0, from, to) ==
            2 * Bound(rule, k)
  {
    BurstPasses(rule, Start(0), a, k);
    var s := After(rule, Start(0), Burst(rule, a, k));
    RunKeepsInvariant(rule, Start(0), Burst(rule, a, k), k);
    BurstPasses(rule, s, b, k);
    RunsAppend(rule, Start(0), Burst(rule, a, k), Burst(rule, b, k), k);
  }
}
