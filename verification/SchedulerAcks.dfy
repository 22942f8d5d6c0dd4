/** Who acknowledges what: an item leaves as acknowledged only by a RESPONSE callback that carries
    exactly the message id it was prepared with. */
module SchedulerAcks {
  import opened Words
  import opened WriteItems
  import opened Scheduler
  import opened SchedulerMemory
  import opened SchedulerSafety
  import opened SchedulerOutcome
  import opened SchedulerRuns

  /** A dequeue with a message id, for every memory: nothing changes unless the head has a message with
      this very id; then exactly that head leaves, as acknowledged. */
  lemma DequeueExactly(m: Mem, d: Device, messageId: byte, at: nat)
    requires MemInv(m)
    ensures var n, queue := AckHead(m, d, messageId, at), Queue(m, d);
            if queue == [] || ItemAt(m, queue[0]).message.None? || ItemAt(m, queue[0]).messageId != messageId then n == m
            else
              && queue[0] < |m.items| && !m.items[queue[0]].done
              && n.items == m.items[queue[0] := m.items[queue[0]].(done := true, acked := true)]
              && n.queues == m.queues[d := queue[1..]] && n.order == m.order
              && n.ends == m.ends + [End(queue[0], Acked, at)]
  {
    hide MemInv, PopHead;
    if Queue(m, d) != [] {
      PoppedItems(m, d, Acked, at);
      PopRegisters(m, d, Acked, at);
    }
  }

  /** Step j of a run looks the device's queue up for a RESPONSE with this id. */
  ghost predicate LooksUp(steps: seq<Step>, j: nat, t: nat, d: Device, messageId: byte)
  {
    j < |steps| && steps[j] == Lookup(t, d, messageId)
  }

  lemma ReceiversStep(c: Config, s: State, step: Step, t: nat)
    requires Enabled(c, s, step) && t in Apply(c, s, step).receivers
    ensures var r := Apply(c, s, step).receivers[t];
            (t in s.receivers && s.receivers[t] == r && !(step.Dequeue? && step.thread == t)) || step == Lookup(t, r.device, r.messageId)
  {
    hide PopHead, AppendItem, AddQueue, Queue, AckHead, RemoveItem, WithItem, ItemAt;
  }

  /** A callback that is about to dequeue carries what its RESPONSE carried. */
  lemma {:induction false} ReceiverLookedUp(c: Config, states: seq<State>, steps: seq<Step>, i: nat, t: nat)
    requires IsRun(c, states, steps) && states[0] == INIT && i <= |steps| && t in states[i].receivers
    ensures exists j: nat :: j < i && LooksUp(steps, j, t, states[i].receivers[t].device, states[i].receivers[t].messageId)
  {
    hide Apply, Enabled;
    if i > 0 {
      ReceiversStep(c, states[i - 1], steps[i - 1], t);
      var r := states[i].receivers[t];
      if t in states[i - 1].receivers && states[i - 1].receivers[t] == r {
        ReceiverLookedUp(c, states, steps, i - 1, t);
        var j: nat :| j < i - 1 && LooksUp(steps, j, t, r.device, r.messageId);
      } else {
        assert LooksUp(steps, i - 1, t, r.device, r.messageId);
      }
    }
  }

  /** In this step, departure k of m: a callback pops its device's head, which carries the callback's id. */
  ghost predicate AckedBy(s: State, step: Step, m: Mem, k: nat)
  {
    && step.Dequeue? && step.thread in s.receivers && k < |m.ends| && |s.mem.ends| == k && m.ends[k].at == s.now
    && var id, r := m.ends[k].id, s.receivers[step.thread];
    && IsHead(s.mem, r.device, id)
    && id < |m.items| && m.items[id].device == r.device
    && m.items[id].message.Some? && m.items[id].messageId == r.messageId
  }

  lemma AckedNow(c: Config, s: State, step: Step)
    requires Base(s) && Enabled(c, s, step)
    requires var n := Apply(c, s, step).mem; |n.ends| > |s.mem.ends| && n.ends[|s.mem.ends|].outcome == Acked
    ensures AckedBy(s, step, Apply(c, s, step).mem, |s.mem.ends|)
  {
    hide Base, Apply, Enabled;
    EndsStep(c, s, step);
    AckedHead(c, s, step.thread);
  }

  lemma AckedHead(c: Config, s: State, t: nat)
    requires Base(s) && Enabled(c, s, Dequeue(t)) && Apply(c, s, Dequeue(t)).mem.ends != s.mem.ends
    ensures AckedBy(s, Dequeue(t), Apply(c, s, Dequeue(t)).mem, |s.mem.ends|)
  {
    hide MemInv, AckHead;
    var d := s.receivers[t].device;
    DequeueExactly(s.mem, d, s.receivers[t].messageId, s.now);
    QueuedInRange(s.mem, d, 0);
  }

  lemma EndsGrow(c: Config, s: State, step: Step)
    requires Base(s) && Enabled(c, s, step)
    ensures s.mem.ends <= Apply(c, s, step).mem.ends && |Apply(c, s, step).mem.ends| <= |s.mem.ends| + 1
  {
    hide Base, Apply, Enabled;
    EndsStep(c, s, step);
  }

  lemma AckedByStays(c: Config, s: State, next: Step, popping: State, step: Step, k: nat)
    requires Base(s) && Enabled(c, s, next) && AckedBy(popping, step, s.mem, k)
    ensures AckedBy(popping, step, Apply(c, s, next).mem, k)
  {
    hide Base, Apply, Enabled;
    EndsGrow(c, s, next);
    ItemStep(c, s, next, s.mem.ends[k].id);
    PreparedStaysPrepared(c, s, next, s.mem.ends[k].id);
  }

  /** Over every run from the empty manager: each item that ended as acknowledged was popped, as the head
      of its own queue, by a callback whose RESPONSE carried exactly the id the item was prepared with. */
  lemma {:induction false} AckedByItsId(c: Config, states: seq<State>, steps: seq<Step>, i: nat, k: nat)
    requires IsRun(c, states, steps) && states[0] == INIT && i <= |steps|
    requires k < |states[i].mem.ends| && states[i].mem.ends[k].outcome == Acked
    ensures exists j: nat, l: nat :: l < j < i && AckedBy(states[j], steps[j], states[i].mem, k)
              && LooksUp(steps, l, steps[j].thread, states[j].receivers[steps[j].thread].device, states[i].mem.items[states[i].mem.ends[k].id].messageId)
  {
    hide Apply, Enabled, Inv, AckedBy;
    if i > 0 {
      InvInit(c);
      InvAlong(c, states, steps, i - 1);
      InvGivesBase(c, states[i - 1]);
      var j := AckedAt(c, states, steps, i, k);
      AckedFacts(states[j], steps[j], states[i].mem, k);
      ReceiverLookedUp(c, states, steps, j, steps[j].thread);
    }
  }

  lemma AckedFacts(s: State, step: Step, m: Mem, k: nat)
    requires AckedBy(s, step, m, k)
    ensures step.Dequeue? && step.thread in s.receivers && k < |m.ends| && m.ends[k].id < |m.items|
            && m.items[m.ends[k].id].messageId == s.receivers[step.thread].messageId
  {}

  lemma {:induction false} AckedAt(c: Config, states: seq<State>, steps: seq<Step>, i: nat, k: nat) returns (j: nat)
    requires IsRun(c, states, steps) && states[0] == INIT && i <= |steps|
    requires k < |states[i].mem.ends| && states[i].mem.ends[k].outcome == Acked
    ensures j < i && AckedBy(states[j], steps[j], states[i].mem, k)
    decreases i
  {
    hide Apply, Enabled, Inv, AckedBy;
    InvInit(c);
    if i > 0 {
      InvAlong(c, states, steps, i - 1);
      InvGivesBase(c, states[i - 1]);
      EndsGrow(c, states[i - 1], steps[i - 1]);
      if k < |states[i - 1].mem.ends| {
        j := AckedAt(c, states, steps, i - 1, k);
        AckedByStays(c, states[i - 1], steps[i - 1], states[j], steps[j], k);
      } else {
        j := i - 1;
        AckedNow(c, states[j], steps[j]);
      }
    }
  }
}
