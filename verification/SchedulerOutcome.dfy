/** How items end, over every run: once each, exhausted ones after exactly the allowed number of
    attempts and reported once, dropped ones never sent, acknowledged ones never reported. */
module SchedulerOutcome {
  import opened WriteItems
  import opened Scheduler
  import opened SchedulerMemory
  import opened SchedulerSafety

  /** What is known of an item from the way it ended. */
  ghost predicate SettledAs(c: Config, s: State, id: nat, outcome: Outcome)
  {
    && id < |s.mem.items| == |s.attempts|
    && match outcome
       case Acked => s.mem.items[id].message.Some?
       case Exhausted => s.mem.items[id].retryCount == s.attempts[id] == Limit(c.maxRetry)
       case Dropped => s.mem.items[id].message.None? && s.attempts[id] == 0
  }

  ghost predicate Settled(c: Config, s: State)
  {
    forall k | 0 <= k < |s.mem.ends| :: SettledAs(c, s, s.mem.ends[k].id, s.mem.ends[k].outcome)
  }

  /** An item that leaves while the scheduler has it in hand left by an acknowledgement. */
  ghost predicate HeldLeftByAck(s: State)
  {
    Holds(s.sched) && !s.sched.Reporting? && ItemAt(s.mem, s.sched.id).done ==> ItemAt(s.mem, s.sched.id).acked
  }

  /** The departures grow by at most one per step, the head of the queue that was popped. */
  lemma EndsStep(c: Config, s: State, step: Step)
    requires Base(s) && Enabled(c, s, step)
    ensures var n := Apply(c, s, step);
            || n.mem.ends == s.mem.ends
            || (step.Dequeue? && var r := s.receivers[step.thread];
                Queue(s.mem, r.device) != [] && Acks(ItemAt(s.mem, Queue(s.mem, r.device)[0]), r.messageId)
                && n.mem.ends == s.mem.ends + [End(Queue(s.mem, r.device)[0], Acked, s.now)])
            || (step.Drop? && n.mem.ends == s.mem.ends + [End(s.sched.id, Dropped, s.now)])
            || (step.RemoveExhausted? && IsHead(s.mem, s.sched.device, s.sched.id)
                && n.mem.ends == s.mem.ends + [End(s.sched.id, Exhausted, s.now)])
    ensures step.RemoveExhausted? && IsHead(s.mem, s.sched.device, s.sched.id) ==>
              |Apply(c, s, step).mem.ends| == |s.mem.ends| + 1
  {
    hide Base, PopHead, AppendItem, AddQueue, WithItem, ItemAt, Acks, CountWrite, PeekDevice, PeekIndex, Resume;
    match step {
      case Register(_, d) => AppendEndsKept(s.mem, d);
      case Append(t) => AppendEndsKept(s.mem, s.enqueuers[t].device);
      case Dequeue(t) => PopEndsGrow(s, s.receivers[t].device, Acked);
      case Drop => PopEndsGrow(s, s.sched.device, Dropped);
      case RemoveExhausted => PopEndsGrow(s, s.sched.device, Exhausted);
      case Prepare(_, _) => WithItemEndsKept(s.mem);
      case CountAttempt => WithItemEndsKept(s.mem);
      case _ =>
    }
  }

  lemma PopEndsGrow(s: State, d: Device, outcome: Outcome)
    requires Base(s)
    ensures Queue(s.mem, d) != [] ==>
              PopHead(s.mem, d, outcome, s.now).ends == s.mem.ends + [End(Queue(s.mem, d)[0], outcome, s.now)]
    ensures Queue(s.mem, d) == [] ==> PopHead(s.mem, d, outcome, s.now) == s.mem
  {
    hide MemInv, PopHead;
    if Queue(s.mem, d) != [] {
      PopRegisters(s.mem, d, outcome, s.now);
    } else {
      assert PopHead(s.mem, d, outcome, s.now) == s.mem by { PopNothing(s.mem, d, outcome, s.now); }
    }
  }

  lemma PopNothing(m: Mem, d: Device, outcome: Outcome, at: nat)
    requires Queue(m, d) == []
    ensures PopHead(m, d, outcome, at) == m
  {}

  lemma WithItemEndsKept(m: Mem)
    ensures forall id, item :: WithItem(m, id, item).ends == m.ends
  {}

  lemma AppendEndsKept(m: Mem, d: Device)
    ensures AppendItem(m, d).ends == m.ends && AddQueue(m, d).ends == m.ends
  {}

  lemma HeldLeftByAckStep(c: Config, s: State, step: Step)
    requires Base(s) && HeldLeftByAck(s) && Enabled(c, s, step)
    ensures HeldLeftByAck(Apply(c, s, step))
  {
    hide Base;
    if step.Dequeue? {
      HeldWhileDequeue(c, s, step.thread);
    } else if step.Peek? {
      PickedIsNotDone(c, s);
    } else {
      HeldOtherwise(c, s, step);
    }
  }

  lemma HeldWhileDequeue(c: Config, s: State, t: nat)
    requires Base(s) && HeldLeftByAck(s) && Enabled(c, s, Dequeue(t))
    ensures HeldLeftByAck(Apply(c, s, Dequeue(t)))
  {
    hide MemInv, PopHead;
    var d := s.receivers[t].device;
    if Holds(s.sched) && Queue(s.mem, d) != [] {
      PopHeadItems(s.mem, d, Acked, s.now, s.sched.id);
    }
  }

  lemma PickedIsNotDone(c: Config, s: State)
    requires Base(s) && Enabled(c, s, Peek)
    ensures HeldLeftByAck(Apply(c, s, Peek))
  {
    hide Base;
    if Queue(s.mem, PeekDevice(s)) != [] {
      FreshlyPicked(s);
    }
  }

  /** What a scheduler step other than a pick may still hold, it held before. */
  lemma HoldingStep(c: Config, s: State, step: Step)
    requires Enabled(c, s, step) && !Outside(step) && !step.Peek?
    ensures var n := Apply(c, s, step);
            Holds(n.sched) && !n.sched.Reporting? ==>
              Holds(s.sched) && n.sched.id == s.sched.id && !s.sched.Reporting? && !step.Drop? && !step.RemoveExhausted?
  {
    hide Queue, PopHead, RemoveItem, WithItem, CountWrite, IsHead;
  }

  lemma HeldOtherwise(c: Config, s: State, step: Step)
    requires Base(s) && HeldLeftByAck(s) && Enabled(c, s, step) && !step.Dequeue? && !step.Peek?
    ensures HeldLeftByAck(Apply(c, s, step))
  {
    hide Base, Apply, Enabled;
    if Outside(step) {
      OutsideKeepsSched(c, s, step);
    } else {
      HoldingStep(c, s, step);
    }
    if Holds(s.sched) {
      HeldInRange(s);
      ItemStep(c, s, step, s.sched.id);
    }
  }

  lemma SettledStep(c: Config, s: State, step: Step)
    requires Base(s) && Prepared(s) && Attempts(c, s) && HeldLeftByAck(s) && Settled(c, s) && Enabled(c, s, step)
    ensures Settled(c, Apply(c, s, step))
  {
    hide Base, Prepared, Attempts, HeldLeftByAck, SettledAs, Apply, Enabled;
    var n := Apply(c, s, step);
    EndsStep(c, s, step);
    forall k | 0 <= k < |n.mem.ends|
      ensures SettledAs(c, n, n.mem.ends[k].id, n.mem.ends[k].outcome)
    {
      if k < |s.mem.ends| {
        assert SettledAs(c, s, s.mem.ends[k].id, s.mem.ends[k].outcome);
        SettledStays(c, s, step, k);
      } else {
        SettledNow(c, s, step);
      }
    }
  }

  /** An item that has ended otherwise than by an acknowledgement is not in the scheduler's hand. */
  lemma NotHeldAgain(s: State, k: nat)
    requires Base(s) && HeldLeftByAck(s) && k < |s.mem.ends| && s.mem.ends[k].outcome != Acked
    ensures Holds(s.sched) && s.sched.id == s.mem.ends[k].id ==> s.sched.Reporting?
  {
    hide Registry, Conserved, Owned, DoneMeansFinished, OnlyHeadsTouched;
    assert ItemAt(s.mem, s.mem.ends[k].id).done;
  }

  /** Only a write on the held item counts an attempt. */
  lemma AttemptsOfHeld(c: Config, s: State, step: Step, id: nat)
    requires Enabled(c, s, step) && id < |s.attempts|
    ensures var n := Apply(c, s, step);
            && id < |n.attempts|
            && (n.attempts[id] == s.attempts[id] || (s.sched.Writing? && s.sched.id == id))
    ensures step.CountAttempt? ==> s.sched.Failing?
    ensures step.Prepare? ==> s.sched.Sending?
  {
    hide Queue, PopHead, AddQueue, AppendItem, AckHead, RemoveItem, WithItem, ItemAt, Resume, IsHead, PeekDevice, PeekIndex;
  }

  lemma SettledStays(c: Config, s: State, step: Step, k: nat)
    requires Base(s) && Attempts(c, s) && HeldLeftByAck(s) && Enabled(c, s, step)
    requires k < |s.mem.ends| && SettledAs(c, s, s.mem.ends[k].id, s.mem.ends[k].outcome)
    ensures SettledAs(c, Apply(c, s, step), s.mem.ends[k].id, s.mem.ends[k].outcome)
  {
    hide Base, Apply, Enabled, AttemptsOf, Limit;
    var id := s.mem.ends[k].id;
    AttemptsLength(c, s, step);
    AttemptsOfHeld(c, s, step, id);
    ItemStep(c, s, step, id);
    if s.mem.ends[k].outcome != Acked {
      NotHeldAgain(s, k);
    }
  }

  lemma SettledNow(c: Config, s: State, step: Step)
    requires Base(s) && Prepared(s) && Attempts(c, s) && Enabled(c, s, step)
    requires Apply(c, s, step).mem.ends != s.mem.ends
    ensures var n := Apply(c, s, step);
            |n.mem.ends| == |s.mem.ends| + 1
            && SettledAs(c, n, n.mem.ends[|s.mem.ends|].id, n.mem.ends[|s.mem.ends|].outcome)
  {
    hide Base, AppendItem, AddQueue, RemoveItem, AckHead, AttemptsOf, Apply, Enabled;
    EndsStep(c, s, step);
    if step.Dequeue? {
      AckedNow(c, s, step.thread);
    } else {
      GivenUpNow(c, s, step);
    }
  }

  lemma AckedNow(c: Config, s: State, t: nat)
    requires Base(s) && Attempts(c, s) && Enabled(c, s, Dequeue(t))
    requires Apply(c, s, Dequeue(t)).mem.ends != s.mem.ends
    ensures SettledAs(c, Apply(c, s, Dequeue(t)), Queue(s.mem, s.receivers[t].device)[0], Acked)
  {
    hide Base, AttemptsOf;
    var id := QueueHead(s, s.receivers[t].device);
    ItemStep(c, s, Dequeue(t), id);
  }

  lemma QueueHead(s: State, d: Device) returns (id: nat)
    requires Base(s) && Queue(s.mem, d) != []
    ensures id == Queue(s.mem, d)[0] && id < |s.mem.items|
  {
    id := Queue(s.mem, d)[0];
    QueuedInRange(s.mem, d, 0);
  }

  lemma GivenUpNow(c: Config, s: State, step: Step)
    requires Base(s) && Prepared(s) && Attempts(c, s) && Enabled(c, s, step) && (step.Drop? || step.RemoveExhausted?)
    ensures SettledAs(c, Apply(c, s, step), s.sched.id, if step.Drop? then Dropped else Exhausted)
  {
    hide Base, RemoveItem, Limit;
    HeldInRange(s);
    assert AttemptsOf(c, s, s.sched.id);
    ItemStep(c, s, step, s.sched.id);
  }

  // ------------------------------------------------------------------ reports

  ghost predicate EndedExhausted(m: Mem, id: nat)
  {
    exists k: nat :: EndedAt(m, id, k) && m.ends[k].outcome == Exhausted
  }

  /** onWriteExhausted has been called once for every item that ended exhausted, except the one it is
      about to be called for, and for no other item. */
  ghost predicate Reports(s: State)
  {
    && (forall i, j | 0 <= i < j < |s.reported| :: s.reported[i] != s.reported[j])
    && (forall i | 0 <= i < |s.reported| :: EndedExhausted(s.mem, s.reported[i]))
    && (forall k | 0 <= k < |s.mem.ends| && s.mem.ends[k].outcome == Exhausted ::
          s.mem.ends[k].id in s.reported || (s.sched.Reporting? && s.sched.id == s.mem.ends[k].id))
    && (s.sched.Reporting? ==> EndedExhausted(s.mem, s.sched.id) && s.sched.id !in s.reported)
  }

  lemma ReportsStep(c: Config, s: State, step: Step)
    requires Base(s) && Reports(s) && Enabled(c, s, step)
    ensures Reports(Apply(c, s, step))
  {
    hide Base;
    if step.RemoveExhausted? {
      ExhaustedReports(c, s);
    } else {
      EndsStep(c, s, step);
      OtherReports(c, s, step);
    }
  }

  lemma EndedStays(m: Mem, n: Mem, id: nat)
    requires m.ends <= n.ends && EndedExhausted(m, id)
    ensures EndedExhausted(n, id)
  {
    var k: nat :| EndedAt(m, id, k) && m.ends[k].outcome == Exhausted;
    assert EndedAt(n, id, k);
  }

  /** Outside RemoveExhausted no report becomes due; the one that is due is made by Report. */
  lemma ReportingStep(c: Config, s: State, step: Step)
    requires Enabled(c, s, step) && !step.RemoveExhausted?
    ensures var n := Apply(c, s, step);
            && n.reported == s.reported + (if step.Report? then [s.sched.id] else [])
            && (step.Report? ==> s.sched.Reporting?)
            && (n.sched.Reporting? <==> s.sched.Reporting? && !step.Report?)
            && (n.sched.Reporting? ==> n.sched.id == s.sched.id)
  {
    ReportedStep(c, s, step);
    if Outside(step) {
      hide Apply;
      OutsideKeepsSched(c, s, step);
    } else {
      hide Queue, PopHead, RemoveItem, WithItem, CountWrite, IsHead;
    }
  }

  lemma ReportedStep(c: Config, s: State, step: Step)
    requires Enabled(c, s, step)
    ensures Apply(c, s, step).reported == s.reported + (if step.Report? then [s.sched.id] else [])
  {
    hide Queue, PopHead, AddQueue, AppendItem, WithItem, AckHead, RemoveItem;
  }

  lemma OtherReports(c: Config, s: State, step: Step)
    requires Reports(s) && Enabled(c, s, step) && !step.RemoveExhausted?
    requires var n := Apply(c, s, step);
             n.mem.ends == s.mem.ends || exists e: End :: e.outcome != Exhausted && n.mem.ends == s.mem.ends + [e]
    ensures Reports(Apply(c, s, step))
  {
    hide Apply, Enabled, EndedExhausted;
    var n := Apply(c, s, step);
    ReportingStep(c, s, step);
    forall id | EndedExhausted(s.mem, id)
      ensures EndedExhausted(n.mem, id)
    {
      EndedStays(s.mem, n.mem, id);
    }
  }

  lemma ExhaustedReports(c: Config, s: State)
    requires Base(s) && Reports(s) && Enabled(c, s, RemoveExhausted)
    ensures Reports(Apply(c, s, RemoveExhausted))
  {
    hide Base;
    var n := Apply(c, s, RemoveExhausted);
    EndsStep(c, s, RemoveExhausted);
    forall id | EndedExhausted(s.mem, id)
      ensures EndedExhausted(n.mem, id)
    {
      EndedStays(s.mem, n.mem, id);
    }
    if IsHead(s.mem, s.sched.device, s.sched.id) {
      NotEndedBefore(c, s);
      assert EndedAt(n.mem, s.sched.id, |s.mem.ends|);
      forall i | 0 <= i < |s.reported|
        ensures s.reported[i] != s.sched.id
      {
        var k: nat :| EndedAt(s.mem, s.reported[i], k) && s.mem.ends[k].outcome == Exhausted;
      }
    }
  }

  lemma NotEndedBefore(c: Config, s: State)
    requires Base(s) && s.sched.Removing? && IsHead(s.mem, s.sched.device, s.sched.id)
    ensures forall k: nat :: !EndedAt(s.mem, s.sched.id, k)
  {
    HeldDoneAfterRemove(s.mem, s.sched.device, s.sched.id, Exhausted, s.now);
    forall k: nat
      ensures !EndedAt(s.mem, s.sched.id, k)
    {
      if k < |s.mem.ends| {
        assert ItemAt(s.mem, s.mem.ends[k].id).done;
      }
    }
  }
}
