/** Idempotent message creation in handlerRoomMessage of quic/handler/message_handler.go: an advisory Redis
    lock, a check before and a check inside the transaction, and the unique index on
    (rid, sender_uid, client_mid). Any number of submissions, of the same or of other messages,
    interleave between their Redis and database calls. */
module MessageInsert {

  /** What the unique index covers. */
  datatype Key = Key(rid: string, sender: string, clientMid: string)

  /** A committed row of room_message; mid is drawn when the row is created. */
  datatype Row = Row(key: Key, mid: nat, deleted: bool)

  datatype Published = Published(key: Key, mid: nat)

  /** A submission, by the call it makes next. */
  datatype Thread =
    | Locking(key: Key)                   // SETNX on the dedupe key
    | Checking(key: Key, held: bool)      // findExistingRoomMessage
    | Admitting(key: Key, held: bool)     // room, friendship and mute checks, sequence number
    | TxChecking(key: Key, held: bool)    // the same check inside the transaction
    | Creating(key: Key, held: bool)      // INSERT
    | Inserted(key: Key, mid: nat, held: bool)   // the row is written but not committed
    | Publishing(key: Key, mid: nat, held: bool) // committed; the event is next
    | Releasing(key: Key, held: bool)     // DEL of the dedupe key
    | Finished

  datatype State = State(
    locks: set<Key>,
    rows: seq<Row>,
    published: seq<Published>,
    threads: seq<Thread>,
    nextMid: nat)

  const INITIAL := State({}, [], [], [], 0)

  /** Environment steps: the lock expires, and a stored message is soft-deleted. The flag of Advance decides what
      the model leaves open: whether the lock server answers, the submission is admitted, the transaction commits. */
  datatype Step =
    | Submit(key: Key)
    | Advance(i: nat, goOn: bool)
    | ExpireLock(key: Key)
    | SoftDelete(j: nat)

  /** The check sees rows that are not deleted. */
  predicate Visible(rows: seq<Row>, key: Key)
  {
    exists j :: 0 <= j < |rows| && rows[j].key == key && !rows[j].deleted
  }

  /** The unique index sees all rows. */
  predicate Stored(rows: seq<Row>, key: Key)
  {
    exists j :: 0 <= j < |rows| && rows[j].key == key
  }

  /** Another transaction has written the key and not finished: an INSERT waits for it. */
  predicate Uncommitted(threads: seq<Thread>, key: Key)
  {
    exists i :: 0 <= i < |threads| && threads[i].Inserted? && threads[i].key == key
  }

  function Goto(s: State, i: nat, t: Thread): State
    requires i < |s.threads|
  {
    s.(threads := s.threads[i := t])
  }

  function Run(s: State, i: nat, goOn: bool): State
    requires i < |s.threads|
  {
    match s.threads[i]
    case Locking(key) =>
      if goOn then Goto(s.(locks := s.locks + {key}), i, Checking(key, key !in s.locks))
      else Goto(s, i, Checking(key, false))
    case Checking(key, held) =>
      Goto(s, i, if Visible(s.rows, key) then Releasing(key, held) else Admitting(key, held))
    case Admitting(key, held) =>
      Goto(s, i, if goOn then TxChecking(key, held) else Releasing(key, held))
    case TxChecking(key, held) =>
      Goto(s, i, if Visible(s.rows, key) then Releasing(key, held) else Creating(key, held))
    case Creating(key, held) =>
      if Uncommitted(s.threads, key) then s
      else if Stored(s.rows, key) then Goto(s, i, Releasing(key, held))
      else Goto(s.(nextMid := s.nextMid + 1), i, Inserted(key, s.nextMid, held))
    case Inserted(key, mid, held) =>
      if goOn then Goto(s.(rows := s.rows + [Row(key, mid, false)]), i, Publishing(key, mid, held))
      else Goto(s, i, Releasing(key, held))
    case Publishing(key, mid, held) =>
      Goto(s.(published := s.published + [Published(key, mid)]), i, Releasing(key, held))
    case Releasing(key, held) => Goto(if held then s.(locks := s.locks - {key}) else s, i, Finished)
    case Finished => s
  }

  function Apply(s: State, step: Step): State
  {
    match step
    case Submit(key) => s.(threads := s.threads + [Locking(key)])
    case Advance(i, goOn) => if i < |s.threads| then Run(s, i, goOn) else s
    case ExpireLock(key) => s.(locks := s.locks - {key})
    case SoftDelete(j) => if j < |s.rows| then s.(rows := s.rows[j := s.rows[j].(deleted := true)]) else s
  }

  function After(s: State, steps: seq<Step>): State
    decreases |steps|
  {
    if steps == [] then s else After(Apply(s, steps[0]), steps[1..])
  }

  // ---------- The invariant ----------

  ghost predicate OneRow(s: State)
  {
    && (forall i, j :: 0 <= i < j < |s.rows| ==> s.rows[i].key != s.rows[j].key)
    && (forall i :: 0 <= i < |s.threads| && s.threads[i].Inserted? ==> !Stored(s.rows, s.threads[i].key))
    && (forall i, j :: 0 <= i < j < |s.threads| && s.threads[i].Inserted? && s.threads[j].Inserted? ==>
          s.threads[i].key != s.threads[j].key)
  }

  predicate IsRow(rows: seq<Row>, key: Key, mid: nat)
  {
    exists j :: 0 <= j < |rows| && rows[j].key == key && rows[j].mid == mid
  }

  predicate Announced(published: seq<Published>, key: Key)
  {
    exists k :: 0 <= k < |published| && published[k].key == key
  }

  ghost predicate OneEvent(s: State)
  {
    && (forall k :: 0 <= k < |s.published| ==> IsRow(s.rows, s.published[k].key, s.published[k].mid))
    && (forall k, l :: 0 <= k < l < |s.published| ==> s.published[k].key != s.published[l].key)
    && (forall i :: 0 <= i < |s.threads| && s.threads[i].Publishing? ==>
          IsRow(s.rows, s.threads[i].key, s.threads[i].mid) && !Announced(s.published, s.threads[i].key))
    && (forall i, j :: 0 <= i < j < |s.threads| && s.threads[i].Publishing? && s.threads[j].Publishing? ==>
          s.threads[i].key != s.threads[j].key)
  }

  ghost predicate Inv(s: State)
  {
    OneRow(s) && OneEvent(s)
  }

  // ---------- Preservation ----------

  /** Rows are only added, or marked deleted. */
  lemma RowsGrow(rows: seq<Row>, rows': seq<Row>, key: Key, mid: nat)
    requires |rows| <= |rows'|
    requires forall j :: 0 <= j < |rows| ==> rows'[j].key == rows[j].key && rows'[j].mid == rows[j].mid
    ensures IsRow(rows, key, mid) ==> IsRow(rows', key, mid)
    ensures |rows| == |rows'| ==> (Stored(rows', key) <==> Stored(rows, key))
  {
    if IsRow(rows, key, mid) {
      var j :| 0 <= j < |rows| && rows[j].key == key && rows[j].mid == mid;
      assert rows'[j].key == key;
    }
    if Stored(rows, key) {
      var j :| 0 <= j < |rows| && rows[j].key == key;
      assert rows'[j].key == key;
    }
  }

  /** A step that leaves rows and events alone and does not insert or publish. */
  lemma QuietStepKeeps(s: State, s': State, i: nat, t: Thread)
    requires Inv(s) && i < |s.threads| && s'.threads == s.threads[i := t]
    requires s'.rows == s.rows && s'.published == s.published && !t.Inserted? && !t.Publishing?
    ensures Inv(s')
  {
  }

  lemma InsertKeeps(s: State, i: nat, key: Key, held: bool)
    requires Inv(s) && i < |s.threads| && !Uncommitted(s.threads, key) && !Stored(s.rows, key)
    ensures Inv(Goto(s.(nextMid := s.nextMid + 1), i, Inserted(key, s.nextMid, held)))
  {
  }

  lemma CommitKeeps(s: State, i: nat, key: Key, mid: nat, held: bool)
    requires Inv(s) && i < |s.threads| && s.threads[i] == Inserted(key, mid, held)
    ensures Inv(Goto(s.(rows := s.rows + [Row(key, mid, false)]), i, Publishing(key, mid, held)))
  {
    var s' := Goto(s.(rows := s.rows + [Row(key, mid, false)]), i, Publishing(key, mid, held));
    assert s'.rows[|s.rows|] == Row(key, mid, false);
    forall k, m | IsRow(s.rows, k, m) ensures IsRow(s'.rows, k, m) && k != key {
      RowsGrow(s.rows, s'.rows, k, m);
    }
    assert !Announced(s.published, key);
  }

  lemma PublishKeeps(s: State, i: nat, key: Key, mid: nat, held: bool)
    requires Inv(s) && i < |s.threads| && s.threads[i] == Publishing(key, mid, held)
    ensures Inv(Goto(s.(published := s.published + [Published(key, mid)]), i, Releasing(key, held)))
  {
    var s' := Goto(s.(published := s.published + [Published(key, mid)]), i, Releasing(key, held));
    forall k | Announced(s'.published, k) && k != key ensures Announced(s.published, k) {
      var l :| 0 <= l < |s'.published| && s'.published[l].key == k;
      assert s.published[l].key == k;
    }
  }

  lemma SoftDeleteKeeps(s: State, j: nat)
    requires Inv(s)
    ensures Inv(Apply(s, SoftDelete(j)))
    ensures j < |s.rows| ==> Apply(s, SoftDelete(j)).rows == s.rows[j := Row(s.rows[j].key, s.rows[j].mid, true)]
  {
    var s' := Apply(s, SoftDelete(j));
    forall k, m ensures (IsRow(s.rows, k, m) ==> IsRow(s'.rows, k, m)) && (Stored(s'.rows, k) ==> Stored(s.rows, k)) {
      RowsGrow(s.rows, s'.rows, k, m);
    }
  }

  lemma StepKeeps(s: State, step: Step)
    requires Inv(s)
    ensures Inv(Apply(s, step))
  {
    var s' := Apply(s, step);
    match step
    case Submit(key) =>
    case ExpireLock(key) =>
    case SoftDelete(j) => SoftDeleteKeeps(s, j);
    case Advance(i, goOn) =>
      if i < |s.threads| {
        match s.threads[i]
        case Creating(key, held) =>
          if !Uncommitted(s.threads, key) && !Stored(s.rows, key) {
            InsertKeeps(s, i, key, held);
          } else if !Uncommitted(s.threads, key) {
            QuietStepKeeps(s, s', i, Releasing(key, held));
          }
        case Inserted(key, mid, held) =>
          if goOn {
            CommitKeeps(s, i, key, mid, held);
          } else {
            QuietStepKeeps(s, s', i, Releasing(key, held));
          }
        case Publishing(key, mid, held) => PublishKeeps(s, i, key, mid, held);
        case Finished =>
        case _ => QuietStepKeeps(s, s', i, s'.threads[i]);
      }
  }

  lemma {:induction false} RunKeepsInvariant(s: State, steps: seq<Step>)
    requires Inv(s)
    ensures Inv(After(s, steps))
    decreases |steps|
  {
    if steps != [] {
      StepKeeps(s, steps[0]);
      RunKeepsInvariant(Apply(s, steps[0]), steps[1..]);
    }
  }

  // ---------- Main results ----------

  /** In every interleaving, each (room, sender, client_mid) has at most one row, deleted rows included. */
  lemma AtMostOneRow(steps: seq<Step>, i: nat, j: nat)
    requires i < |After(INITIAL, steps).rows| && j < |After(INITIAL, steps).rows|
    requires After(INITIAL, steps).rows[i].key == After(INITIAL, steps).rows[j].key
    ensures i == j
  {
    RunKeepsInvariant(INITIAL, steps);
  }

  /** In every interleaving, each (room, sender, client_mid) has at most one event, which announces its row. */
  lemma AtMostOneEvent(steps: seq<Step>, k: nat, l: nat)
    requires k < |After(INITIAL, steps).published| && l < |After(INITIAL, steps).published|
    requires After(INITIAL, steps).published[k].key == After(INITIAL, steps).published[l].key
    ensures k == l
    ensures var s := After(INITIAL, steps); IsRow(s.rows, s.published[k].key, s.published[k].mid)
  {
    RunKeepsInvariant(INITIAL, steps);
  }

  // ---------- Messages are stored and announced ----------

  /** A stored row was announced, or its submission is about to announce it. */
  ghost predicate RowsAnnounced(s: State)
  {
    forall j :: 0 <= j < |s.rows| ==>
      || Announced(s.published, s.rows[j].key)
      || exists i :: 0 <= i < |s.threads| && PublishesKey(s.threads[i], s.rows[j].key)
  }

  predicate PublishesKey(t: Thread, key: Key)
  {
    t.Publishing? && t.key == key
  }

  lemma StepKeepsAnnounced(s: State, step: Step)
    requires RowsAnnounced(s)
    ensures RowsAnnounced(Apply(s, step))
  {
    var s' := Apply(s, step);
    forall j | 0 <= j < |s'.rows| && !Announced(s'.published, s'.rows[j].key)
      ensures exists i :: 0 <= i < |s'.threads| && PublishesKey(s'.threads[i], s'.rows[j].key)
    {
      var key := s'.rows[j].key;
      if j < |s.rows| {
        assert s.rows[j].key == key;
        AnnouncedStays(s, step, key);
        var i :| 0 <= i < |s.threads| && PublishesKey(s.threads[i], key);
        PublisherStays(s, step, i, key);
      } else {
        assert PublishesKey(s'.threads[step.i], key);
      }
    }
  }

  lemma AnnouncedStays(s: State, step: Step, key: Key)
    ensures Announced(s.published, key) ==> Announced(Apply(s, step).published, key)
  {
    if k :| 0 <= k < |s.published| && s.published[k].key == key {
      assert Apply(s, step).published[k].key == key;
    }
  }

  lemma PublisherStays(s: State, step: Step, i: nat, key: Key)
    requires i < |s.threads| && PublishesKey(s.threads[i], key)
    ensures || Announced(Apply(s, step).published, key)
            || (i < |Apply(s, step).threads| && PublishesKey(Apply(s, step).threads[i], key))
  {
    var s' := Apply(s, step);
    if step == Advance(i, true) || step == Advance(i, false) {
      assert s'.published[|s.published|].key == key;
    }
  }

  lemma {:induction false} RunKeepsAnnounced(s: State, steps: seq<Step>)
    requires RowsAnnounced(s)
    ensures RowsAnnounced(After(s, steps))
    decreases |steps|
  {
    if steps != [] {
      StepKeepsAnnounced(s, steps[0]);
      RunKeepsAnnounced(Apply(s, steps[0]), steps[1..]);
    }
  }

  /** In every interleaving, a stored row has been announced, or its submission is about to do so. */
  lemma EveryRowIsAnnounced(steps: seq<Step>, j: nat)
    requires j < |After(INITIAL, steps).rows|
    ensures var s := After(INITIAL, steps);
      || Announced(s.published, s.rows[j].key)
      || exists i :: 0 <= i < |s.threads| && PublishesKey(s.threads[i], s.rows[j].key)
  {
    RunKeepsAnnounced(INITIAL, steps);
  }

  lemma Next(s: State, step: Step, rest: seq<Step>)
    ensures After(s, [step] + rest) == After(Apply(s, step), rest)
  {
    assert ([step] + rest)[1..] == rest;
  }

  /** The eight calls of a submission that is admitted, whose transaction commits, and that nobody interrupts. */
  function Submission(i: nat, key: Key): seq<Step>
  {
    [Submit(key)] + ([Advance(i, true)] + ([Advance(i, true)] + ([Advance(i, true)] + ([Advance(i, true)] +
      ([Advance(i, true)] + ([Advance(i, true)] + ([Advance(i, true)] + ([Advance(i, true)] + []))))))))
  }

  /** The states of such a submission, call by call. */
  lemma SubmissionRuns(s: State, key: Key) returns (last: State)
    ensures After(s, Submission(|s.threads|, key)) == last
    ensures last == Apply(Apply(Apply(Apply(Apply(Apply(Apply(Apply(Apply(s, Submit(key)),
              Advance(|s.threads|, true)), Advance(|s.threads|, true)), Advance(|s.threads|, true)),
              Advance(|s.threads|, true)), Advance(|s.threads|, true)), Advance(|s.threads|, true)),
              Advance(|s.threads|, true)), Advance(|s.threads|, true))
  {
    var step := Advance(|s.threads|, true);
    var r1 := [step] + [];
    var r2 := [step] + r1;
    var r3 := [step] + r2;
    var r4 := [step] + r3;
    var r5 := [step] + r4;
    var r6 := [step] + r5;
    var r7 := [step] + r6;
    var r8 := [step] + r7;
    var s1 := Apply(s, Submit(key));
    var s2 := Apply(s1, step);
    var s3 := Apply(s2, step);
    var s4 := Apply(s3, step);
    var s5 := Apply(s4, step);
    var s6 := Apply(s5, step);
    var s7 := Apply(s6, step);
    var s8 := Apply(s7, step);
    last := Apply(s8, step);
    Next(s, Submit(key), r8);
    Next(s1, step, r7);
    Next(s2, step, r6);
    Next(s3, step, r5);
    Next(s4, step, r4);
    Next(s5, step, r3);
    Next(s6, step, r2);
    Next(s7, step, r1);
    Next(s8, step, []);
  }

  /** From any state: a submission of a new message stores its row and announces it; one of a message that is stored and
      visible stores and announces nothing; and neither does one whose row was deleted, which the index refuses. */
  lemma SubmissionStores(s: State, key: Key)
    requires !Uncommitted(s.threads, key)
    ensures var s' := After(s, Submission(|s.threads|, key));
      && s'.threads == s.threads + [Finished] && s'.locks == s.locks
      && (!Stored(s.rows, key) ==>
            && s'.rows == s.rows + [Row(key, s.nextMid, false)]
            && s'.published == s.published + [Published(key, s.nextMid)])
      && (Stored(s.rows, key) ==> s'.rows == s.rows && s'.published == s.published)
  {
    var last := SubmissionRuns(s, key);
    FirstCalls(s, key);
    var step := Advance(|s.threads|, true);
    var checked := Apply(Apply(Apply(s, Submit(key)), step), step);
    if Visible(s.rows, key) {
      ReleasedStays(checked, s.threads, key, key !in s.locks);
    } else {
      AdmittedStores(checked, s.threads, key, key !in s.locks);
    }
  }

  lemma FirstCalls(s: State, key: Key)
    ensures var step := Advance(|s.threads|, true);
      var s' := Apply(Apply(Apply(s, Submit(key)), step), step);
      var held := key !in s.locks;
      && s'.threads == s.threads + [if Visible(s.rows, key) then Releasing(key, held) else Admitting(key, held)]
      && s' == s.(locks := s.locks + {key}, threads := s'.threads)
  {
    var step := Advance(|s.threads|, true);
    var s1 := Apply(s, Submit(key));
    var s2 := Apply(s1, step);
    assert s2.threads == s.threads + [Checking(key, key !in s.locks)];
  }

  lemma FinishedStays(s: State, i: nat, key: Key, held: bool)
    requires i < |s.threads| && s.threads[i] == Releasing(key, held)
    ensures var step := Advance(i, true);
      var s' := Apply(s, step);
      && s'.threads == s.threads[i := Finished] && s'.rows == s.rows && s'.published == s.published
      && s'.locks == (if held then s.locks - {key} else s.locks)
      && Apply(s', step) == s'
  {
  }

  lemma ReleasedStays(s: State, others: seq<Thread>, key: Key, held: bool)
    requires s.threads == others + [Releasing(key, held)]
    ensures var step := Advance(|others|, true);
      var s' := Apply(Apply(Apply(Apply(Apply(Apply(s, step), step), step), step), step), step);
      && s'.threads == others + [Finished] && s'.rows == s.rows && s'.published == s.published
      && s'.locks == (if held then s.locks - {key} else s.locks)
  {
    FinishedStays(s, |others|, key, held);
  }

  lemma AdmittedStores(s: State, others: seq<Thread>, key: Key, held: bool)
    requires s.threads == others + [Admitting(key, held)] && !Uncommitted(others, key) && !Visible(s.rows, key)
    ensures var step := Advance(|others|, true);
      var s' := Apply(Apply(Apply(Apply(Apply(Apply(s, step), step), step), step), step), step);
      && s'.threads == others + [Finished] && s'.locks == (if held then s.locks - {key} else s.locks)
      && (!Stored(s.rows, key) ==>
            && s'.rows == s.rows + [Row(key, s.nextMid, false)]
            && s'.published == s.published + [Published(key, s.nextMid)])
      && (Stored(s.rows, key) ==> s'.rows == s.rows && s'.published == s.published)
  {
    var i := |others|;
    var step := Advance(i, true);
    var s1 := Apply(s, step);
    assert s1.threads == others + [TxChecking(key, held)];
    var s2 := Apply(s1, step);
    assert s2.threads == others + [Creating(key, held)];
    assert !Uncommitted(s2.threads, key);
    var s3 := Apply(s2, step);
    if Stored(s.rows, key) {
      assert s3.threads == others + [Releasing(key, held)];
      FinishedStays(s3, i, key, held);
    } else {
      assert s3.threads == others + [Inserted(key, s.nextMid, held)];
      var s4 := Apply(s3, step);
      assert s4.threads == others + [Publishing(key, s.nextMid, held)];
      var s5 := Apply(s4, step);
      assert s5.threads == others + [Releasing(key, held)];
      FinishedStays(s5, i, key, held);
    }
  }

  // ---------- The lock, while it does not expire ----------

  predicate Holds(t: Thread, key: Key)
  {
    match t
    case Checking(k, held) => held && k == key
    case Admitting(k, held) => held && k == key
    case TxChecking(k, held) => held && k == key
    case Creating(k, held) => held && k == key
    case Inserted(k, mid, held) => held && k == key
    case Publishing(k, mid, held) => held && k == key
    case Releasing(k, held) => held && k == key
    case _ => false
  }

  ghost predicate LocksOk(s: State)
  {
    && (forall i, key :: 0 <= i < |s.threads| && Holds(s.threads[i], key) ==> key in s.locks)
    && (forall i, j, key :: 0 <= i < j < |s.threads| && Holds(s.threads[i], key) ==> !Holds(s.threads[j], key))
  }

  lemma StepKeepsLocks(s: State, step: Step)
    requires LocksOk(s) && !step.ExpireLock?
    ensures LocksOk(Apply(s, step))
  {
    if step.Advance? && step.i < |s.threads| {
      forall key ensures HoldsOnly(s, Run(s, step.i, step.goOn), step.i, key) {
        CallHolds(s, step.i, step.goOn, key);
      }
      HoldsKeepsLocks(s, Run(s, step.i, step.goOn), step.i);
    }
  }

  lemma HoldsKeepsLocks(s: State, s': State, i: nat)
    requires LocksOk(s) && i < |s.threads| && forall key :: HoldsOnly(s, s', i, key)
    ensures LocksOk(s')
  {
    forall j, key | 0 <= j < |s'.threads| && Holds(s'.threads[j], key) ensures key in s'.locks {
      assert HoldsOnly(s, s', i, key);
    }
    forall j, l, key | 0 <= j < l < |s'.threads| && Holds(s'.threads[j], key) ensures !Holds(s'.threads[l], key) {
      assert HoldsOnly(s, s', i, key);
    }
  }

  /** What one call does to the lock of a message: the caller may get it if it is free, and gives it back only if it
      holds it. */
  ghost predicate HoldsOnly(s: State, s': State, i: nat, key: Key)
    requires i < |s.threads|
  {
    && |s'.threads| == |s.threads| && (forall j :: 0 <= j < |s.threads| && j != i ==> s'.threads[j] == s.threads[j])
    && (Holds(s'.threads[i], key) ==> Holds(s.threads[i], key) || key !in s.locks)
    && (key in s.locks && key !in s'.locks ==> Holds(s.threads[i], key) && !Holds(s'.threads[i], key))
    && (Holds(s'.threads[i], key) && key !in s.locks && !Holds(s.threads[i], key) ==> key in s'.locks)
  }

  lemma CallHolds(s: State, i: nat, goOn: bool, key: Key)
    requires i < |s.threads|
    ensures HoldsOnly(s, Run(s, i, goOn), i, key)
  {
  }

  /** As long as no lock expires, at most one submission of a message holds its lock at a time. */
  lemma {:induction false} LockExcludes(s: State, steps: seq<Step>)
    requires LocksOk(s) && forall k :: 0 <= k < |steps| ==> !steps[k].ExpireLock?
    ensures LocksOk(After(s, steps))
    decreases |steps|
  {
    if steps != [] {
      StepKeepsLocks(s, steps[0]);
      LockExcludes(Apply(s, steps[0]), steps[1..]);
    }
  }

  /** A submission gets the lock exactly when the server answers and nobody has it. */
  lemma LockIsTaken(s: State, i: nat, answers: bool)
    requires i < |s.threads| && s.threads[i].Locking?
    ensures var key := s.threads[i].key;
      var s' := Apply(s, Advance(i, answers));
      && (Holds(s'.threads[i], key) <==> answers && key !in s.locks)
      && s'.locks == if answers then s.locks + {key} else s.locks
  {
  }
}
