/** The scheduler's guarantees over every run from the empty manager. */
module SchedulerRuns {
  import opened Words
  import opened Wrappers
  import opened WriteItems
  import opened Scheduler
  import opened SchedulerMemory
  import opened SchedulerSafety
  import opened SchedulerOutcome
  import opened SchedulerWakeup

  ghost predicate Inv(c: Config, s: State)
  {
    Base(s) && Prepared(s) && Attempts(c, s) && HeldLeftByAck(s) && Settled(c, s) && Reports(s) && WakeInv(s) && RadioHeld(c, s)
  }

  /** s is reached from the empty manager. */
  ghost predicate Reachable(c: Config, s: State)
  {
    exists states, steps :: IsRun(c, states, steps) && states[0] == INIT && states[|steps|] == s
  }

  lemma InvInit(c: Config)
    ensures Inv(c, INIT)
  {
    assert MemInv(EMPTY_MEM);
  }

  lemma InvStep(c: Config, s: State, step: Step)
    requires Inv(c, s) && Enabled(c, s, step)
    ensures Inv(c, Apply(c, s, step))
  {
    hide Base, Prepared, Attempts, HeldLeftByAck, Settled, Reports, WakeInv, RadioHeld, Apply, Enabled;
    BaseStep(c, s, step);
    PreparedStep(c, s, step);
    AttemptsStep(c, s, step);
    HeldLeftByAckStep(c, s, step);
    SettledStep(c, s, step);
    ReportsStep(c, s, step);
    WakeStep(c, s, step);
    RadioStep(c, s, step);
  }

  lemma {:induction false} InvAlong(c: Config, states: seq<State>, steps: seq<Step>, i: nat)
    requires IsRun(c, states, steps) && Inv(c, states[0]) && i <= |steps|
    ensures Inv(c, states[i])
  {
    hide Inv, Apply, Enabled;
    if i > 0 {
      InvAlong(c, states, steps, i - 1);
      InvStep(c, states[i - 1], steps[i - 1]);
    }
  }

  lemma ReachableInv(c: Config, s: State)
    requires Reachable(c, s)
    ensures Inv(c, s)
  {
    hide Inv;
    InvInit(c);
    var states, steps :| IsRun(c, states, steps) && states[0] == INIT && states[|steps|] == s;
    InvAlong(c, states, steps, |steps|);
  }

  lemma InvGivesBase(c: Config, s: State)
    requires Inv(c, s)
    ensures Base(s)
  {
    hide Base, Prepared, Attempts, HeldLeftByAck, Settled, Reports, WakeInv, RadioHeld;
  }

  lemma ReachableStep(c: Config, s: State, step: Step)
    requires Reachable(c, s) && Enabled(c, s, step)
    ensures Reachable(c, Apply(c, s, step))
  {
    hide Apply, Enabled;
    var states, steps :| IsRun(c, states, steps) && states[0] == INIT && states[|steps|] == s;
    var longer, more := states + [Apply(c, s, step)], steps + [step];
    assert IsRun(c, longer, more) && longer[0] == INIT && longer[|more|] == Apply(c, s, step);
  }

  /** The start of a run: one write is enqueued, prepared with message id 7, and on air. */
  lemma OneFrameOut(c: Config) returns (s: State)
    ensures Reachable(c, s) && s.sched == Holding("d", 0, 0) && s.now == 0 && s.receivers == map[]
    ensures IsHead(s.mem, "d", 0) && "d" in s.mem.finished && s.mem.items == [Item("d", 7, Some([1]), 0, false, false)]
    ensures |Queue(s.mem, "d")| == 1
    ensures s.attempts == [1] && s.frames == [Frame(0, 0)] && s.reported == [] && s.mem.ends == []
  {
    hide Reachable;
    EmptyIsReachable(c);
    var s1 := Apply(c, INIT, Register(0, "d"));
    ReachableStep(c, INIT, Register(0, "d"));
    var s2 := Apply(c, s1, Append(0));
    ReachableStep(c, s1, Append(0));
    var s3 := Apply(c, s2, BeginScan);
    ReachableStep(c, s2, BeginScan);
    var s4 := Apply(c, s3, Peek);
    ReachableStep(c, s3, Peek);
    var s5 := Apply(c, s4, CheckStop);
    ReachableStep(c, s4, CheckStop);
    var s6 := Apply(c, s5, Prepare(7, [1]));
    ReachableStep(c, s5, Prepare(7, [1]));
    s := Apply(c, s6, WriteOk);
    ReachableStep(c, s6, WriteOk);
  }

  /** The scheduler can hold an item that has already left its queue: a frame is out, the RESPONSE
      arrives, and the response timer may still fire before the done signal is seen. */
  lemma HeldItemMayBeGone(c: Config)
    ensures exists s :: Reachable(c, s) && s.sched.Holding? && IsDone(s, s.sched.id) && Queue(s.mem, s.sched.device) == []
  {
    hide Reachable;
    var s := OneFrameOut(c);
    var s1 := Apply(c, s, Lookup(0, "d", 7));
    ReachableStep(c, s, Lookup(0, "d", 7));
    var s2 := Apply(c, s1, Dequeue(0));
    ReachableStep(c, s1, Dequeue(0));
    assert s2.sched == Holding("d", 0, 0) && IsDone(s2, 0);
  }

  /** A timeout may win against an acknowledgement that has already come in: the attempt is then counted
      on the item that is gone, which is neither removed again nor reported. */
  lemma CountedThoughAcked(c: Config)
    ensures exists s :: Reachable(c, s) && IsDone(s, 0) && s.mem.items[0].retryCount == 1 && s.reported == [] && |s.mem.ends| == 1
                        && (s.sched.Top? || s.sched.Removing?)
  {
    hide Reachable;
    var s := OneFrameOut(c);
    var s1 := Apply(c, s, Lookup(0, "d", 7));
    ReachableStep(c, s, Lookup(0, "d", 7));
    var s2 := Apply(c, s1, Dequeue(0));
    ReachableStep(c, s1, Dequeue(0));
    assert IsDone(s2, 0) && s2.mem.items[0].retryCount == 0 && s2.mem.ends == s.mem.ends + [End(0, Acked, 0)];
    CountedWhenGone(c, s2);
  }

  lemma CountedWhenGone(c: Config, s: State)
    requires Reachable(c, s) && s.sched == Holding("d", 0, 0) && s.now == 0 && s.reported == []
    requires IsDone(s, 0) && s.mem.items[0].retryCount == 0 && |s.mem.ends| == 1
    ensures exists t :: Reachable(c, t) && IsDone(t, 0) && t.mem.items[0].retryCount == 1 && t.reported == [] && |t.mem.ends| == 1
                        && (t.sched.Top? || t.sched.Removing?)
  {
    hide Reachable, Queue;
    var failed := TimesOut(c, s);
    var counted := Apply(c, failed, CountAttempt);
    ReachableStep(c, failed, CountAttempt);
    assert IsDone(counted, 0) && counted.mem.items[0].retryCount == 1;
  }

  /** An append can land behind a scan: the scan ends, the scheduler sleeps on a queue that is not empty,
      the token is not there, and all hope is the enqueuer between its append and its wake. */
  lemma AppendBehindScan(c: Config)
    ensures exists s :: Reachable(c, s) && s.sched.Waiting? && Queue(s.mem, "d") != [] && !s.notify && s.enqueuers == map[0 := Appended]
  {
    hide Reachable;
    EmptyIsReachable(c);
    var s1 := Apply(c, INIT, Register(0, "d"));
    ReachableStep(c, INIT, Register(0, "d"));
    var s2 := Apply(c, s1, BeginScan);
    ReachableStep(c, s1, BeginScan);
    var s3 := Apply(c, s2, Peek);
    ReachableStep(c, s2, Peek);
    var s4 := Apply(c, s3, Append(0));
    ReachableStep(c, s3, Append(0));
    var s5 := Apply(c, s4, EndScan);
    ReachableStep(c, s4, EndScan);
    assert s5.sched == Waiting && Queue(s5.mem, "d") == [0] && s5.enqueuers == map[0 := Appended];
  }

  /** Nobody waits for the scheduler: an enqueuer's append and wake, a callback's dequeue, Stop and the
      clock can always come next; registering and looking up only wait for a scan to end. */
  lemma NeverBlocked(c: Config, s: State, t: nat, d: Device, messageId: byte, elapsed: nat)
    ensures t in s.enqueuers ==> Enabled(c, s, if s.enqueuers[t].Registered? then Append(t) else Wake(t))
    ensures t in s.receivers ==> Enabled(c, s, Dequeue(t))
    ensures Enabled(c, s, Stop) && Enabled(c, s, Tick(elapsed))
    ensures !s.sched.Scanning? ==>
              && (t !in s.enqueuers ==> Enabled(c, s, Register(t, d)))
              && (t !in s.receivers ==> Enabled(c, s, Lookup(t, d, messageId)))
  {}

  /** With a retry limit of zero or less an item is still sent once: a run in which one is, times out,
      and is given up on as exhausted. */
  lemma SentOnceAnyway(c: Config)
    requires c.maxRetry <= 0
    ensures exists s :: Reachable(c, s) && IsExhausted(s, 0) && s.attempts == [1] && s.frames == [Frame(0, 0)]
  {
    var s := OneFrameOut(c);
    GivenUpAtOnce(c, s);
  }

  ghost predicate IsExhausted(s: State, id: nat)
  {
    id < |s.mem.items| && s.mem.items[id].done && !s.mem.items[id].acked && s.reported == [id]
  }

  lemma TimesOut(c: Config, s: State) returns (t: State)
    requires Reachable(c, s) && s.sched == Holding("d", 0, 0) && s.now == 0
    ensures Reachable(c, t) && t == s.(now := t.now, sched := Failing("d", 0, false))
  {
    hide Reachable;
    var wakeUp := Tick(if c.responseTimeout > 0 then c.responseTimeout else 0);
    var later := Apply(c, s, wakeUp);
    ReachableStep(c, s, wakeUp);
    t := Apply(c, later, Timeout);
    ReachableStep(c, later, Timeout);
  }

  lemma GivenUpAtOnce(c: Config, s: State)
    requires c.maxRetry <= 0 && Reachable(c, s) && s.sched == Holding("d", 0, 0) && s.now == 0 && s.reported == []
    requires IsHead(s.mem, "d", 0) && "d" in s.mem.finished && |s.mem.items| == 1 && !s.mem.items[0].done
    ensures exists t :: Reachable(c, t) && IsExhausted(t, 0) && t.attempts == s.attempts && t.frames == s.frames
  {
    hide Reachable, Queue;
    var failed := TimesOut(c, s);
    var counted := Apply(c, failed, CountAttempt);
    ReachableStep(c, failed, CountAttempt);
    assert counted.sched == Removing("d", 0, false)
           && counted.mem == WithItem(s.mem, 0, s.mem.items[0].(retryCount := s.mem.items[0].retryCount + 1));
    CountedStillHead(s.mem, s.mem.items[0].retryCount + 1);
    RemovedAndReported(c, counted);
  }

  lemma CountedStillHead(m: Mem, count: nat)
    requires IsHead(m, "d", 0) && |m.items| == 1
    ensures IsHead(WithItem(m, 0, m.items[0].(retryCount := count)), "d", 0)
  {}

  lemma RemovedAndReported(c: Config, s: State)
    requires Reachable(c, s) && s.sched == Removing("d", 0, false) && s.reported == []
    requires IsHead(s.mem, "d", 0) && "d" in s.mem.finished && |s.mem.items| == 1 && !s.mem.items[0].done
    ensures exists t :: Reachable(c, t) && IsExhausted(t, 0) && t.attempts == s.attempts && t.frames == s.frames
  {
    hide Reachable;
    var s1 := Apply(c, s, RemoveExhausted);
    ReachableStep(c, s, RemoveExhausted);
    var s2 := Apply(c, s1, Report);
    ReachableStep(c, s1, Report);
    assert IsExhausted(s2, 0);
  }

  ghost predicate IsDone(s: State, id: nat)
  {
    id < |s.mem.items| && s.mem.items[id].done && s.mem.items[id].acked
  }

  lemma EmptyIsReachable(c: Config)
    ensures Reachable(c, INIT)
  {
    assert IsRun(c, [INIT], []);
  }

  // ------------------------------------------------------------------ conservation and outcomes

  /** Each device's enqueue history is its finished items in order followed by its current queue;
      the history lists that device's items, once each and in enqueue order. */
  lemma Conservation(c: Config, s: State, d: Device)
    requires Reachable(c, s) && d in s.mem.queues
    ensures d in s.mem.history && d in s.mem.finished && s.mem.history[d] == s.mem.finished[d] + s.mem.queues[d]
    ensures forall i, j | 0 <= i < j < |s.mem.history[d]| :: s.mem.history[d][i] < s.mem.history[d][j]
    ensures forall id | 0 <= id < |s.mem.items| :: id in s.mem.history[d] <==> s.mem.items[id].device == d
  {
    ReachableInv(c, s);
    hide EndsOnce, DoneMeansFinished, OnlyHeadsTouched, Threads;
  }

  /** An item leaves its queue at most once and is done exactly when it has left; it left as Acked
      exactly when its acked flag says so. */
  lemma SingleOutcome(c: Config, s: State, id: nat)
    requires Reachable(c, s) && id < |s.mem.items|
    ensures forall j: nat, k: nat :: EndedAt(s.mem, id, j) && EndedAt(s.mem, id, k) ==> j == k
    ensures s.mem.items[id].done <==> exists k: nat :: EndedAt(s.mem, id, k)
    ensures forall k: nat :: EndedAt(s.mem, id, k) ==> (s.mem.ends[k].outcome == Acked <==> s.mem.items[id].acked)
    ensures s.mem.items[id].done <==> id !in Queue(s.mem, s.mem.items[id].device)
  {
    ReachableInv(c, s);
    hide Registry, OnlyHeadsTouched, Threads;
    assert forall k: nat :: EndedAt(s.mem, id, k) ==> ItemAt(s.mem, s.mem.ends[k].id).done;
    QueuedUnlessDone(s.mem, id);
  }

  lemma QueuedUnlessDone(m: Mem, id: nat)
    requires MemInv(m) && id < |m.items|
    ensures m.items[id].done <==> id !in Queue(m, m.items[id].device)
  {
    hide OnlyHeadsTouched, EndsOnce;
    var d := m.items[id].device;
    assert id in m.finished[d] + m.queues[d];
    if id in m.finished[d] {
      var j :| 0 <= j < |m.finished[d]| && m.finished[d][j] == id;
      assert ItemAt(m, m.finished[d][j]).done;
    }
    if id in m.queues[d] {
      var j :| 0 <= j < |m.queues[d]| && m.queues[d][j] == id;
      assert !ItemAt(m, m.queues[d][j]).done;
    }
  }

  /** No item is handed to the serial writer more often than the retry limit; an exhausted one was
      exactly that often, a dropped one never, an acknowledged one had been prepared. */
  lemma BoundedAttempts(c: Config, s: State, id: nat)
    requires Reachable(c, s) && id < |s.mem.items|
    ensures id < |s.attempts| && s.attempts[id] <= Limit(c.maxRetry)
    ensures forall k: nat :: EndedAt(s.mem, id, k) ==>
              match s.mem.ends[k].outcome
              case Acked => s.mem.items[id].message.Some?
              case Exhausted => s.attempts[id] == Limit(c.maxRetry)
              case Dropped => s.attempts[id] == 0
  {
    ReachableInv(c, s);
    hide Base, Limit;
    assert AttemptsOf(c, s, id);
    assert forall k: nat :: EndedAt(s.mem, id, k) ==> SettledAs(c, s, s.mem.ends[k].id, s.mem.ends[k].outcome);
  }

  /** onWriteExhausted is called at most once per item, only for items whose attempts are used up,
      and never for an acknowledged one. */
  lemma ExhaustedReports(c: Config, s: State, i: nat)
    requires Reachable(c, s) && i < |s.reported|
    ensures forall j | 0 <= j < |s.reported| && j != i :: s.reported[j] != s.reported[i]
    ensures var id := s.reported[i];
            && id < |s.mem.items| == |s.attempts| && s.mem.items[id].done && !s.mem.items[id].acked
            && s.attempts[id] == Limit(c.maxRetry)
  {
    ReachableInv(c, s);
    hide Registry, Conserved, Owned, DoneMeansFinished, OnlyHeadsTouched, Threads, Limit;
    var id := s.reported[i];
    assert EndedExhausted(s.mem, id);
    var k: nat :| EndedAt(s.mem, id, k) && s.mem.ends[k].outcome == Exhausted;
    assert SettledAs(c, s, s.mem.ends[k].id, s.mem.ends[k].outcome);
    assert ItemAt(s.mem, s.mem.ends[k].id).done;
  }

  // ------------------------------------------------------------------ heads and prepared messages

  /** Items behind the head are untouched, and the item the scheduler has in hand is its queue's head
      or has already left -- by an acknowledgement, unless it is being reported exhausted. */
  lemma OnlyTheHead(c: Config, s: State)
    requires Reachable(c, s)
    ensures forall d, j | d in s.mem.queues && 1 <= j < |s.mem.queues[d]| :: ItemAt(s.mem, s.mem.queues[d][j]) == NewItem(d)
    ensures Holds(s.sched) ==> HeadOrDone(s.mem, s.sched.device, s.sched.id)
    ensures Holds(s.sched) && s.mem.items[s.sched.id].done ==> s.mem.items[s.sched.id].acked || s.sched.Reporting?
  {
    ReachableInv(c, s);
  }

  lemma PreparedStaysPrepared(c: Config, s: State, step: Step, id: nat)
    requires Base(s) && Enabled(c, s, step) && id < |s.mem.items| && s.mem.items[id].message.Some?
    ensures var n := Apply(c, s, step);
            id < |n.mem.items| && n.mem.items[id].message == s.mem.items[id].message
            && n.mem.items[id].messageId == s.mem.items[id].messageId
  {
    hide Base, Apply, Enabled;
    ItemStep(c, s, step, id);
  }

  /** Once an item has a message, it keeps it and its message id for the rest of the run. */
  lemma {:induction false} PreparedForever(c: Config, states: seq<State>, steps: seq<Step>, i: nat, j: nat, id: nat)
    requires IsRun(c, states, steps) && Reachable(c, states[0]) && i <= j <= |steps|
    requires id < |states[i].mem.items| && states[i].mem.items[id].message.Some?
    ensures id < |states[j].mem.items| && states[j].mem.items[id].message == states[i].mem.items[id].message
            && states[j].mem.items[id].messageId == states[i].mem.items[id].messageId
    decreases j
  {
    hide Apply, Enabled, Inv, Reachable;
    if i < j {
      PreparedForever(c, states, steps, i, j - 1, id);
      ReachableInv(c, states[0]);
      InvAlong(c, states, steps, j - 1);
      InvGivesBase(c, states[j - 1]);
      PreparedStaysPrepared(c, states[j - 1], steps[j - 1], id);
    }
  }

  ghost predicate Unprepared(m: Mem, d: Device)
  {
    forall j | 0 <= j < |Queue(m, d)| :: ItemAt(m, Queue(m, d)[j]).message.None?
  }

  lemma UnpreparedAfterPop(c: Config, s: State, t: nat)
    requires Inv(c, s) && Enabled(c, s, Dequeue(t))
    requires var d := s.receivers[t].device; Queue(Apply(c, s, Dequeue(t)).mem, d) != Queue(s.mem, d)
    ensures Unprepared(Apply(c, s, Dequeue(t)).mem, s.receivers[t].device)
  {
    var d := s.receivers[t].device;
    var n := Apply(c, s, Dequeue(t));
    UnpreparedTail(s.mem, d, s.now);
    assert n.mem == PopHead(s.mem, d, Acked, s.now);
  }

  lemma UnpreparedTail(m: Mem, d: Device, at: nat)
    requires MemInv(m) && Queue(m, d) != []
    ensures Unprepared(PopHead(m, d, Acked, at), d)
  {
    hide Registry, Conserved, Owned, DoneMeansFinished, EndsOnce, PopHead;
    var n := PopHead(m, d, Acked, at);
    PopRegisters(m, d, Acked, at);
    forall j | 0 <= j < |n.queues[d]|
      ensures ItemAt(n, n.queues[d][j]).message.None?
    {
      assert n.queues[d][j] == m.queues[d][j + 1];
      PopHeadItems(m, d, Acked, at, n.queues[d][j]);
    }
  }

  /** The scheduler prepares a message for this device. */
  predicate PreparesFor(s: State, step: Step, d: Device)
  {
    step.Prepare? && s.sched.Sending? && s.sched.device == d
  }

  lemma UnpreparedStep(c: Config, s: State, step: Step, d: Device)
    requires Inv(c, s) && Enabled(c, s, step) && !PreparesFor(s, step, d) && Unprepared(s.mem, d)
    ensures Unprepared(Apply(c, s, step).mem, d)
  {
    hide Base, Prepared, Attempts, HeldLeftByAck, Settled, Reports, WakeInv, RadioHeld, Apply, Enabled;
    var n := Apply(c, s, step);
    QueueStep(c, s, step, d);
    forall j | 0 <= j < |Queue(n.mem, d)|
      ensures ItemAt(n.mem, Queue(n.mem, d)[j]).message.None?
    {
      var id := Queue(n.mem, d)[j];
      if id < |s.mem.items| {
        UnpreparedItem(c, s, step, d, id);
      } else {
        NewestItem(c, s, step, id);
      }
    }
  }

  /** What a step may do to a queue: append the newest id, take the head away, or nothing. */
  ghost predicate QueueEffect(s: State, step: Step, q: seq<nat>, r: seq<nat>)
  {
    r == q || (q != [] && r == q[1..]) || (step.Append? && r == q + [|s.mem.items|])
  }

  lemma QueueStep(c: Config, s: State, step: Step, d: Device)
    requires Base(s) && Enabled(c, s, step)
    ensures QueueEffect(s, step, Queue(s.mem, d), Queue(Apply(c, s, step).mem, d))
    ensures forall j | 0 <= j < |Queue(s.mem, d)| :: Queue(s.mem, d)[j] < |s.mem.items|
  {
    hide Apply, Enabled, QueueEffect, MemInv;
    forall j | 0 <= j < |Queue(s.mem, d)|
      ensures Queue(s.mem, d)[j] < |s.mem.items|
    {
      QueuedInRange(s.mem, d, j);
    }
    if step.Append? {
      QueueAppended(c, s, step.thread, d);
    } else if step.Dequeue? || step.Drop? || step.RemoveExhausted? {
      QueuePopped(c, s, step, d);
    } else {
      QueueKept(c, s, step, d);
    }
  }

  lemma QueueAppended(c: Config, s: State, t: nat, d: Device)
    requires Base(s) && Enabled(c, s, Append(t))
    ensures QueueEffect(s, Append(t), Queue(s.mem, d), Queue(Apply(c, s, Append(t)).mem, d))
  {
    hide MemInv;
    AppendRegisters(s.mem, s.enqueuers[t].device);
  }

  lemma QueuePopped(c: Config, s: State, step: Step, d: Device)
    requires Base(s) && Enabled(c, s, step) && (step.Dequeue? || step.Drop? || step.RemoveExhausted?)
    ensures QueueEffect(s, step, Queue(s.mem, d), Queue(Apply(c, s, step).mem, d))
  {
    hide MemInv, PopHead;
    var device := if step.Dequeue? then s.receivers[step.thread].device else s.sched.device;
    if Queue(s.mem, device) != [] {
      forall outcome
        ensures PopHead(s.mem, device, outcome, s.now).queues == s.mem.queues[device := s.mem.queues[device][1..]]
      {
        PopRegisters(s.mem, device, outcome, s.now);
      }
    }
  }

  lemma QueueKept(c: Config, s: State, step: Step, d: Device)
    requires Enabled(c, s, step) && !(step.Append? || step.Dequeue? || step.Drop? || step.RemoveExhausted?)
    ensures Queue(Apply(c, s, step).mem, d) == Queue(s.mem, d)
    ensures QueueEffect(s, step, Queue(s.mem, d), Queue(Apply(c, s, step).mem, d))
  {
    hide AppendItem, AckHead, RemoveItem, PopHead, ItemAt, CountWrite, Resume, IsHead, PeekDevice, PeekIndex;
  }

  lemma UnpreparedItem(c: Config, s: State, step: Step, d: Device, id: nat)
    requires Inv(c, s) && Enabled(c, s, step) && !PreparesFor(s, step, d) && Unprepared(s.mem, d)
    requires id < |s.mem.items| && id in Queue(s.mem, d)
    ensures ItemAt(Apply(c, s, step).mem, id).message.None?
  {
    hide Base, Apply, Prepared, Attempts, HeldLeftByAck, Settled, Reports, WakeInv, RadioHeld;
    ItemStep(c, s, step, id);
    if step.Prepare? {
      HeldElsewhere(s, d, id);
    }
  }

  /** A held item of another device is not in this device's queue. */
  lemma HeldElsewhere(s: State, d: Device, id: nat)
    requires Base(s) && Holds(s.sched) && s.sched.device != d && id in Queue(s.mem, d)
    ensures s.sched.id != id
  {
    hide MemInv;
    var j :| 0 <= j < |Queue(s.mem, d)| && Queue(s.mem, d)[j] == id;
    QueuedInRange(s.mem, d, j);
  }

  lemma NewestItem(c: Config, s: State, step: Step, id: nat)
    requires Inv(c, s) && Enabled(c, s, step) && step.Append? && id == |s.mem.items|
    ensures ItemAt(Apply(c, s, step).mem, id).message.None?
  {
    hide MemInv, Prepared, Attempts, HeldLeftByAck, Settled, Reports, WakeInv, RadioHeld;
    AppendRegisters(s.mem, s.enqueuers[step.thread].device);
  }

  /** One RESPONSE acknowledges one write: after a callback has popped a device's head, no further
      callback pops anything from that queue -- whatever its message id, and whatever the scheduler
      does for other devices -- until it has prepared a message for this one. */
  lemma {:induction false} OneResponseOnePop(c: Config, states: seq<State>, steps: seq<Step>, d: Device, i: nat)
    requires IsRun(c, states, steps) && 1 <= i <= |steps| && Inv(c, states[0])
    requires steps[0].Dequeue? && states[0].receivers[steps[0].thread].device == d && Queue(states[1].mem, d) != Queue(states[0].mem, d)
    requires forall j | 1 <= j < i :: !PreparesFor(states[j], steps[j], d)
    ensures Unprepared(states[i].mem, d)
    ensures i < |steps| && steps[i].Dequeue? && states[i].receivers[steps[i].thread].device == d ==>
              states[i + 1].mem == states[i].mem
  {
    hide Inv, Enabled, PopHead;
    if i == 1 {
      UnpreparedAfterPop(c, states[0], steps[0].thread);
    } else {
      OneResponseOnePop(c, states, steps, d, i - 1);
      InvAlong(c, states, steps, i - 1);
      UnpreparedStep(c, states[i - 1], steps[i - 1], d);
    }
  }

  // ------------------------------------------------------------------ wake-up and radio

  /** No lost wake-up: while the scheduler sleeps and some queue is not empty, the token is there or
      an enqueuer is about to put it there. */
  lemma NoLostWakeup(c: Config, s: State, d: Device)
    requires Reachable(c, s) && s.sched.Waiting? && d in s.mem.queues && s.mem.queues[d] != []
    ensures s.notify || exists t :: t in s.enqueuers && s.enqueuers[t].Appended?
  {
    ReachableInv(c, s);
    hide Base, Prepared, Attempts, HeldLeftByAck, Settled, Reports, RadioHeld;
    assert WakePending(s);
  }

  /** Radio hold: when a frame goes out, the item of the frame before it has left its queue by then,
      or that frame's full response timeout has passed. */
  lemma RadioHold(c: Config, s: State, k: nat)
    requires Reachable(c, s) && 1 <= k < |s.frames|
    ensures s.frames[k].at - s.frames[k - 1].at >= c.responseTimeout
            || exists e :: 0 <= e < |s.mem.ends| && s.mem.ends[e].id == s.frames[k - 1].id && s.mem.ends[e].at <= s.frames[k].at
  {
    ReachableInv(c, s);
    hide Base, Prepared, Attempts, HeldLeftByAck, Settled, Reports, WakeInv;
    assert Released(c, s.mem.ends, s.frames[k - 1], s.frames[k].at);
  }

  /** After Stop at most one more frame is written. */
  lemma {:induction false} OneFrameAfterStop(c: Config, states: seq<State>, steps: seq<Step>, i: nat)
    requires IsRun(c, states, steps) && states[0].stopped && i <= |steps|
    ensures states[i].stopped && |states[i].frames| + Committed(states[i].sched) <= |states[0].frames| + Committed(states[0].sched)
    ensures |states[i].frames| <= |states[0].frames| + 1
  {
    hide Apply, Enabled;
    if i > 0 {
      OneFrameAfterStop(c, states, steps, i - 1);
      StoppedStep(c, states[i - 1], steps[i - 1]);
    }
  }
}
