/** The room sequence numbers of db/query/room.go. GetRoomSeqId reads a Redis counter, falls back to the
    maximum in the database, initialises the counter with SETNX and draws with INCR; any number of callers
    interleave between these calls. */
module RoomSeq {
  import opened Options

  /** Where a caller of GetRoomSeqId stands. */
  datatype Caller =
    | AtGet
    | AtMax
    | AtSetNX(max: nat)
    | AtIncr
    | Got(seqId: nat)

  /** A number handed out, and the seq_ids that the room's messages had at that moment. */
  datatype Draw = Draw(seqId: nat, storedBefore: set<nat>)

  datatype State = State(
    counter: Option<nat>,  // the Redis key
    stored: set<nat>,      // the seq_id column of room_message for the room
    callers: seq<Caller>,
    draws: seq<Draw>)

  datatype Step =
    | Call                 // somebody calls GetRoomSeqId
    | Advance(i: nat)      // caller i makes its next Redis or DB call
    | Insert(i: nat)       // caller i commits a message with the number it got

  /** COALESCE(MAX(seq_id), 0) */
  ghost function Max(s: set<nat>): (m: nat)
    ensures forall x :: x in s ==> x <= m
    ensures m == 0 || m in s
    decreases |s|
  {
    if s == {} then 0
    else
      var x :| x in s;
      var rest := Max(s - {x});
      assert s == (s - {x}) + {x};
      if x < rest then rest else x
  }

  ghost function Incremented(s: State, i: nat): State
    requires i < |s.callers|
  {
    var n := if s.counter.Some? then s.counter.value + 1 else 1;
    s.(counter := Some(n), callers := s.callers[i := Got(n)], draws := s.draws + [Draw(n, s.stored)])
  }

  ghost function Apply(s: State, step: Step): State
  {
    match step
    case Call => s.(callers := s.callers + [AtGet])
    case Advance(i) =>
      if i >= |s.callers| then s
      else (match s.callers[i]
            case AtGet => s.(callers := s.callers[i := if s.counter.Some? then AtIncr else AtMax])
            case AtMax => s.(callers := s.callers[i := AtSetNX(Max(s.stored))])
            case AtSetNX(max) =>
              s.(counter := if s.counter.None? then Some(max) else s.counter, callers := s.callers[i := AtIncr])
            case AtIncr => Incremented(s, i)
            case Got(seqId) => s)
    case Insert(i) =>
      if i < |s.callers| && s.callers[i].Got? then s.(stored := s.stored + {s.callers[i].seqId}) else s
  }

  ghost function After(s: State, steps: seq<Step>): State
    decreases |steps|
  {
    if steps == [] then s else After(Apply(s, steps[0]), steps[1..])
  }

  /** The counter key is absent, or at least the database maximum; nobody has called yet. */
  ghost predicate Start(s: State)
  {
    && s.callers == [] && s.draws == []
    && (s.counter.Some? ==> forall x :: x in s.stored ==> x <= s.counter.value)
  }

  // ---------- The invariant ----------

  /** Without a key nothing was drawn; with one, it bounds everything drawn, stored or about to be set. */
  ghost predicate CallerOk(s: State, c: Caller)
  {
    match c
    case AtSetNX(max) => s.counter.None? ==> forall x :: x in s.stored ==> x <= max
    case AtIncr => s.counter.Some?
    case Got(seqId) => s.counter.Some? && seqId <= s.counter.value
    case _ => true
  }

  ghost predicate Inv(s: State)
  {
    && (forall i :: 0 <= i < |s.callers| ==> CallerOk(s, s.callers[i]))
    && (s.counter.None? ==> s.draws == [])
    && (s.counter.Some? ==>
          && (forall x :: x in s.stored ==> x <= s.counter.value)
          && (forall k :: 0 <= k < |s.draws| ==> s.draws[k].seqId <= s.counter.value))
    && (forall k, l :: 0 <= k < l < |s.draws| ==> s.draws[k].seqId < s.draws[l].seqId)
    && (forall k, x :: 0 <= k < |s.draws| && x in s.draws[k].storedBefore ==> x < s.draws[k].seqId)
  }

  lemma StepKeeps(s: State, step: Step)
    requires Inv(s)
    ensures Inv(Apply(s, step))
    ensures s.counter.Some? ==> Apply(s, step).counter.Some? && s.counter.value <= Apply(s, step).counter.value
  {
    match step
    case Call =>
    case Insert(i) =>
      if i < |s.callers| {
        assert CallerOk(s, s.callers[i]);
      }
    case Advance(i) =>
      if i < |s.callers| {
        var s' := Apply(s, step);
        assert CallerOk(s, s.callers[i]);
        forall j | 0 <= j < |s'.callers| ensures CallerOk(s', s'.callers[j]) {
          assert CallerOk(s, s.callers[j]);
        }
      }
  }

  // ---------- Main results ----------

  lemma {:induction false} RunKeepsInvariant(s: State, steps: seq<Step>)
    requires Inv(s)
    ensures Inv(After(s, steps))
    ensures s.counter.Some? ==> After(s, steps).counter.Some? && s.counter.value <= After(s, steps).counter.value
    decreases |steps|
  {
    if steps != [] {
      StepKeeps(s, steps[0]);
      RunKeepsInvariant(Apply(s, steps[0]), steps[1..]);
    }
  }

  /** In every interleaving the numbers handed out increase strictly, so no two are equal, and each exceeds
      every seq_id stored before it was drawn. */
  lemma DrawsAreFresh(s: State, steps: seq<Step>, k: nat, l: nat)
    requires Start(s) && k < |After(s, steps).draws| && l < |After(s, steps).draws|
    ensures k < l ==> After(s, steps).draws[k].seqId < After(s, steps).draws[l].seqId
    ensures forall x :: x in After(s, steps).draws[k].storedBefore ==> x < After(s, steps).draws[k].seqId
  {
    RunKeepsInvariant(s, steps);
  }

  /** Nothing rewinds the counter, a late SETNX included. */
  lemma CounterNeverRewinds(s: State, before: seq<Step>, after: seq<Step>)
    requires Start(s) && After(s, before).counter.Some?
    ensures After(After(s, before), after).counter.Some?
    ensures After(s, before).counter.value <= After(After(s, before), after).counter.value
  {
    RunKeepsInvariant(s, before);
    RunKeepsInvariant(After(s, before), after);
  }

  // ---------- No gaps ----------

  /** The last number given before the run: the counter, or the database maximum when there is none. */
  ghost function Base(s: State): nat
  {
    if s.counter.Some? then s.counter.value else Max(s.stored)
  }

  /** The counter has moved once for each draw, and until it is set every caller has read the same maximum. */
  ghost predicate NoGaps(s: State, base: nat)
  {
    && (forall k :: 0 <= k < |s.draws| ==> s.draws[k].seqId == base + 1 + k)
    && (s.counter.Some? ==> s.counter.value == base + |s.draws|)
    && (s.counter.None? ==>
          s.draws == [] && Max(s.stored) == base &&
          forall i :: 0 <= i < |s.callers| && s.callers[i].AtSetNX? ==> s.callers[i].max == base)
  }

  lemma StepKeepsNoGaps(s: State, step: Step, base: nat)
    requires Inv(s) && NoGaps(s, base)
    ensures NoGaps(Apply(s, step), base)
  {
    match step
    case Call =>
    case Insert(i) =>
      if i < |s.callers| {
        assert CallerOk(s, s.callers[i]);
      }
    case Advance(i) =>
      if i < |s.callers| {
        assert CallerOk(s, s.callers[i]);
      }
  }

  lemma {:induction false} RunKeepsNoGaps(s: State, steps: seq<Step>, base: nat)
    requires Inv(s) && NoGaps(s, base)
    ensures NoGaps(After(s, steps), base)
    decreases |steps|
  {
    if steps != [] {
      StepKeeps(s, steps[0]);
      StepKeepsNoGaps(s, steps[0], base);
      RunKeepsNoGaps(Apply(s, steps[0]), steps[1..], base);
    }
  }

  /** In every interleaving the numbers are handed out without gaps, from the counter or the database maximum on. */
  lemma DrawsAreConsecutive(s: State, steps: seq<Step>, k: nat)
    requires Start(s) && k < |After(s, steps).draws|
    ensures After(s, steps).draws[k].seqId == (if s.counter.Some? then s.counter.value else Max(s.stored)) + 1 + k
  {
    RunKeepsNoGaps(s, steps, Base(s));
  }

  /** The calls a caller still makes. */
  function CallsLeft(c: Caller): nat
  {
    match c
    case AtGet => 4
    case AtMax => 3
    case AtSetNX(max) => 2
    case AtIncr => 1
    case Got(seqId) => 0
  }

  /** Every call brings its caller closer to a number, and the number it gets is the one drawn by that call. */
  lemma CallerAdvances(s: State, i: nat)
    requires i < |s.callers| && !s.callers[i].Got?
    ensures var s' := Apply(s, Advance(i));
      && |s'.callers| == |s.callers| && CallsLeft(s'.callers[i]) < CallsLeft(s.callers[i])
      && (forall j :: 0 <= j < |s.callers| && j != i ==> s'.callers[j] == s.callers[j])
      && s'.draws == s.draws + if s'.callers[i].Got? then [Draw(s'.callers[i].seqId, s.stored)] else []
  {
  }

  lemma {:induction false} LaterDrawsSee(s: State, steps: seq<Step>, x: nat)
    requires x in s.stored
    ensures x in After(s, steps).stored && |s.draws| <= |After(s, steps).draws|
    ensures forall k :: |s.draws| <= k < |After(s, steps).draws| ==> x in After(s, steps).draws[k].storedBefore
    ensures s.draws == After(s, steps).draws[..|s.draws|]
    decreases |steps|
  {
    if steps != [] {
      var s' := Apply(s, steps[0]);
      LaterDrawsSee(s', steps[1..], x);
      assert s.draws == s'.draws[..|s.draws|];
    }
  }

  /** In every interleaving, the number of a committed message is below every number drawn after the commit. */
  lemma CommittedIsBelow(s: State, before: seq<Step>, i: nat, after: seq<Step>, k: nat)
    requires Start(s) && i < |After(s, before).callers| && After(s, before).callers[i].Got?
    requires var s' := Apply(After(s, before), Insert(i)); |s'.draws| <= k < |After(s', after).draws|
    ensures var s' := Apply(After(s, before), Insert(i));
      After(s, before).callers[i].seqId < After(s', after).draws[k].seqId
  {
    var s1 := After(s, before);
    RunKeepsInvariant(s, before);
    StepKeeps(s1, Insert(i));
    var s2 := Apply(s1, Insert(i));
    RunKeepsInvariant(s2, after);
    LaterDrawsSee(s2, after, s1.callers[i].seqId);
  }

  // ---------- GetRoomSeqId without interference ----------

  class RoomCounter {
    var counter: Option<nat>
    ghost var stored: set<nat>

    ghost predicate Valid()
      reads this
    {
      counter.Some? ==> forall x :: x in stored ==> x <= counter.value
    }

    constructor (ghost stored: set<nat>)
      ensures Valid() && counter == None && this.stored == stored
    {
      counter := None;
      this.stored := stored;
    }

    /** maxSeqId is the result of the MAX query. */
    method GetRoomSeqId(maxSeqId: nat) returns (seqId: nat)
      requires Valid() && maxSeqId == Max(stored)
      modifies `counter
      ensures Valid() && counter == Some(seqId)
      ensures seqId == (if old(counter).Some? then old(counter).value else Max(stored)) + 1
      ensures forall x :: x in stored ==> x < seqId
    {
      if counter.None? {
        SetNX(maxSeqId);
      }
      seqId := Incr();
    }

    method SetNX(value: nat)
      modifies `counter
      ensures counter == if old(counter).None? then Some(value) else old(counter)
    {
      if counter.None? {
        counter := Some(value);
      }
    }

    method Incr() returns (n: nat)
      modifies `counter
      ensures n == if old(counter).Some? then old(counter).value + 1 else 1
      ensures counter == Some(n)
    {
      n := if counter.Some? then counter.value + 1 else 1;
      counter := Some(n);
    }
  }
}
