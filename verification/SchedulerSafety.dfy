/** Safety of the scheduler over every run: what it holds, what is conserved, how often an item is
    sent, and which items are reported exhausted. */
module SchedulerSafety {
  import opened Words
  import opened Wrappers
  import opened WriteItems
  import opened Scheduler
  import opened SchedulerMemory

  /** Threads refer to registered queues; the scheduler's item is its queue's head or already done;
      the round-robin index stays unreduced but never past the end of the order. */
  ghost predicate Threads(s: State)
  {
    && s.rrIndex <= |s.mem.order|
    && (forall t | t in s.enqueuers && s.enqueuers[t].Registered? :: s.enqueuers[t].device in s.mem.queues)
    && (s.sched.Scanning? ==> s.sched.n == |s.mem.order| && s.sched.i <= s.sched.n)
    && (Holds(s.sched) ==> HeadOrDone(s.mem, s.sched.device, s.sched.id))
  }

  ghost predicate Base(s: State)
  {
    MemInv(s.mem) && Threads(s)
  }

  // ------------------------------------------------------------------ the held item

  lemma HeldAfterAppend(m: Mem, device: Device, d: Device, id: nat)
    requires MemInv(m) && device in m.queues && HeadOrDone(m, d, id)
    ensures HeadOrDone(AppendItem(m, device), d, id)
  {}

  lemma HeldAfterPop(m: Mem, device: Device, outcome: Outcome, at: nat, d: Device, id: nat)
    requires MemInv(m) && Queue(m, device) != [] && HeadOrDone(m, d, id)
    ensures HeadOrDone(PopHead(m, device, outcome, at), d, id)
    ensures IsHead(m, device, id) ==> PopHead(m, device, outcome, at).items[id].done
  {
    PopHeadItems(m, device, outcome, at, id);
  }

  lemma PeekedDevice(s: State)
    requires Base(s) && s.sched.Scanning? && s.sched.i < s.sched.n
    ensures PeekIndex(s) < |s.mem.order| && PeekDevice(s) in s.mem.queues
  {
    assert PeekDevice(s) in s.mem.order;
  }

  lemma FreshlyPicked(s: State)
    requires Base(s) && s.sched.Scanning? && s.sched.i < s.sched.n && Queue(s.mem, PeekDevice(s)) != []
    ensures var d := PeekDevice(s); var id := Queue(s.mem, d)[0]; HeadOrDone(s.mem, d, id) && !s.mem.items[id].done
  {
    PeekedDevice(s);
    QueuedInRange(s.mem, PeekDevice(s), 0);
  }

  // ------------------------------------------------------------------ every step keeps the base

  lemma BaseStep(c: Config, s: State, step: Step)
    requires Base(s) && Enabled(c, s, step)
    ensures Base(Apply(c, s, step))
  {
    hide Base;
    match step {
      case Register(t, d) => RegisterKeeps(c, s, t, d);
      case Append(t) => AppendKeeps(c, s, t);
      case Dequeue(t) => DequeueKeeps(c, s, t);
      case Peek => PeekKeeps(c, s);
      case Prepare(messageId, message) => PrepareKeeps(c, s, messageId, message);
      case CountAttempt => CountKeeps(c, s);
      case Drop => RemoveKeeps(c, s, step, Dropped);
      case RemoveExhausted => RemoveKeeps(c, s, step, Exhausted);
      case _ => QuietKeeps(c, s, step);
    }
  }

  /** Steps that touch neither queues nor items. */
  predicate Quiet(step: Step)
  {
    !(step.Register? || step.Append? || step.Dequeue? || step.Peek? || step.Prepare? || step.CountAttempt?
      || step.Drop? || step.RemoveExhausted?)
  }

  lemma QuietKeeps(c: Config, s: State, step: Step)
    requires Base(s) && Enabled(c, s, step) && Quiet(step)
    ensures Base(Apply(c, s, step))
  {
    hide MemInv, HeadOrDone;
    assert Apply(c, s, step).mem == s.mem;
  }

  lemma PeekKeeps(c: Config, s: State)
    requires Base(s) && Enabled(c, s, Peek)
    ensures Base(Apply(c, s, Peek))
  {
    hide MemInv, HeadOrDone;
    PeekedDevice(s);
    if Queue(s.mem, PeekDevice(s)) != [] {
      FreshlyPicked(s);
    }
  }

  lemma PrepareKeeps(c: Config, s: State, messageId: byte, message: seq<byte>)
    requires Base(s) && Enabled(c, s, Prepare(messageId, message))
    ensures Base(Apply(c, s, Prepare(messageId, message)))
  {
    hide MemInv;
    var item := ItemAt(s.mem, s.sched.id);
    ItemStepKeeps(c, s, Prepare(messageId, message), item.(messageId := messageId, message := Some(message)));
  }

  lemma CountKeeps(c: Config, s: State)
    requires Base(s) && Enabled(c, s, CountAttempt)
    ensures Base(Apply(c, s, CountAttempt))
  {
    hide MemInv;
    var item := ItemAt(s.mem, s.sched.id);
    ItemStepKeeps(c, s, CountAttempt, item.(retryCount := item.retryCount + 1));
  }

  lemma RegisterKeeps(c: Config, s: State, t: nat, d: Device)
    requires Base(s) && Enabled(c, s, Register(t, d))
    ensures Base(Apply(c, s, Register(t, d)))
  {
    hide MemInv;
    AddQueueKeeps(s.mem, d);
  }

  lemma AppendKeeps(c: Config, s: State, t: nat)
    requires Base(s) && Enabled(c, s, Append(t))
    ensures Base(Apply(c, s, Append(t)))
  {
    hide MemInv, HeadOrDone;
    var d := s.enqueuers[t].device;
    AppendItemKeeps(s.mem, d);
    AppendRegisters(s.mem, d);
    if Holds(s.sched) {
      HeldAfterAppend(s.mem, d, s.sched.device, s.sched.id);
    }
  }

  lemma AppendRegisters(m: Mem, d: Device)
    requires MemInv(m) && d in m.queues
    ensures AppendItem(m, d).order == m.order && AppendItem(m, d).queues.Keys == m.queues.Keys
    ensures AppendItem(m, d).queues == m.queues[d := m.queues[d] + [|m.items|]]
    ensures AppendItem(m, d).items == m.items + [NewItem(d)]
  {}

  lemma PopRegisters(m: Mem, d: Device, outcome: Outcome, at: nat)
    requires MemInv(m) && Queue(m, d) != []
    ensures var n := PopHead(m, d, outcome, at);
            n.order == m.order && n.queues.Keys == m.queues.Keys && |n.items| == |m.items|
            && n.queues == m.queues[d := m.queues[d][1..]]
            && n.ends == m.ends + [End(m.queues[d][0], outcome, at)]
  {}

  /** The whole effect of a departure on items, queues and order. */
  lemma PoppedItems(m: Mem, d: Device, outcome: Outcome, at: nat)
    requires MemInv(m) && Queue(m, d) != []
    ensures var id, n := Queue(m, d)[0], PopHead(m, d, outcome, at);
            && id < |m.items| && m.items[id].device == d && !m.items[id].done
            && n.items == m.items[id := MarkDone(m.items[id], outcome == Acked)]
            && n.queues == m.queues[d := m.queues[d][1..]] && n.order == m.order
  {
    hide MemInv, PopHead;
    PopRegisters(m, d, outcome, at);
    QueuedInRange(m, d, 0);
    PopHeadItems(m, d, outcome, at, m.queues[d][0]);
    forall id | 0 <= id < |m.items|
      ensures ItemAt(PopHead(m, d, outcome, at), id)
              == if id == m.queues[d][0] then MarkDone(m.items[id], outcome == Acked) else m.items[id]
    {
      PopHeadItems(m, d, outcome, at, id);
    }
  }

  lemma DequeueKeeps(c: Config, s: State, t: nat)
    requires Base(s) && Enabled(c, s, Dequeue(t))
    ensures Base(Apply(c, s, Dequeue(t)))
  {
    hide MemInv, HeadOrDone, PopHead;
    var r := s.receivers[t];
    AckHeadKeeps(s.mem, r.device, r.messageId, s.now);
    if Queue(s.mem, r.device) != [] {
      PopRegisters(s.mem, r.device, Acked, s.now);
      if Holds(s.sched) {
        HeldAfterPop(s.mem, r.device, Acked, s.now, s.sched.device, s.sched.id);
      }
    }
  }

  lemma ItemStepKeeps(c: Config, s: State, step: Step, item: Item)
    requires Base(s) && Enabled(c, s, step) && Holds(s.sched)
    requires item.device == s.sched.device && item.done == ItemAt(s.mem, s.sched.id).done && item.acked == ItemAt(s.mem, s.sched.id).acked
    requires var n := Apply(c, s, step);
             && n.mem == WithItem(s.mem, s.sched.id, item) && n.rrIndex == s.rrIndex && n.enqueuers == s.enqueuers
             && !n.sched.Scanning? && (Holds(n.sched) ==> n.sched.device == s.sched.device && n.sched.id == s.sched.id)
    ensures Base(Apply(c, s, step))
  {
    hide MemInv, Apply;
    WithItemKeeps(s.mem, s.sched.device, s.sched.id, item);
  }

  lemma RemoveKeeps(c: Config, s: State, step: Step, outcome: Outcome)
    requires Base(s) && Enabled(c, s, step) && Holds(s.sched)
    requires var n := Apply(c, s, step);
             && n.mem == RemoveItem(s.mem, s.sched.device, s.sched.id, outcome, s.now) && n.rrIndex == s.rrIndex && n.enqueuers == s.enqueuers
             && !n.sched.Scanning? && (Holds(n.sched) ==> n.sched.device == s.sched.device && n.sched.id == s.sched.id)
    ensures Base(Apply(c, s, step))
    ensures var n := Apply(c, s, step); n.mem.items[s.sched.id].done
  {
    hide MemInv, Apply, PopHead, HeadOrDone;
    var d, id := s.sched.device, s.sched.id;
    RemoveItemKeeps(s.mem, d, id, outcome, s.now);
    HeldDoneAfterRemove(s.mem, d, id, outcome, s.now);
    if IsHead(s.mem, d, id) {
      PopRegisters(s.mem, d, outcome, s.now);
    }
  }

  lemma HeldDoneAfterRemove(m: Mem, d: Device, id: nat, outcome: Outcome, at: nat)
    requires MemInv(m) && HeadOrDone(m, d, id)
    ensures var n := RemoveItem(m, d, id, outcome, at); HeadOrDone(n, d, id) && n.items[id].done
    ensures IsHead(m, d, id) ==> !m.items[id].done
  {
    if IsHead(m, d, id) {
      HeldAfterPop(m, d, outcome, at, d, id);
      PopHeadItems(m, d, outcome, at, id);
    }
  }

  // ------------------------------------------------------------------ what a step does to one item

  /** What may happen to an item in one step: it is prepared or its attempt counted while the
      scheduler holds it, or it leaves its queue; nothing else, and never twice. */
  ghost predicate ItemEffect(s: State, step: Step, a: Item, b: Item, held: bool)
  {
    && b.device == a.device
    && b.retryCount == a.retryCount + (if step.CountAttempt? && held then 1 else 0)
    && (step.Prepare? && held ==> a.message.None? && b.message == Some(step.message) && b.messageId == step.messageId)
    && (!(step.Prepare? && held) ==> b.message == a.message && b.messageId == a.messageId)
    && (a.done ==> b.done && b.acked == a.acked)
    && (!a.done && b.done ==> step.Dequeue? || (held && (step.Drop? || step.RemoveExhausted?)))
    && (!a.done && !b.done ==> b.acked == a.acked)
  }

  lemma ItemStep(c: Config, s: State, step: Step, id: nat)
    requires Base(s) && Enabled(c, s, step) && id < |s.mem.items|
    ensures var n := Apply(c, s, step);
            && |n.mem.items| == |s.mem.items| + (if step.Append? then 1 else 0)
            && ItemEffect(s, step, s.mem.items[id], n.mem.items[id], Holds(s.sched) && s.sched.id == id)
  {
    hide Base, Apply, Enabled, ItemEffect;
    match step {
      case Append(t) => AppendItemStep(c, s, t, id);
      case Dequeue(t) => DequeueItemStep(c, s, t, id);
      case Drop => RemovalItemStep(c, s, step, id);
      case RemoveExhausted => RemovalItemStep(c, s, step, id);
      case Prepare(_, _) => EditItemStep(c, s, step, id);
      case CountAttempt => EditItemStep(c, s, step, id);
      case _ => QuietItemStep(c, s, step, id);
    }
  }

  lemma AppendItemStep(c: Config, s: State, t: nat, id: nat)
    requires Base(s) && Enabled(c, s, Append(t)) && id < |s.mem.items|
    ensures var n := Apply(c, s, Append(t));
            && |n.mem.items| == |s.mem.items| + 1
            && ItemEffect(s, Append(t), s.mem.items[id], n.mem.items[id], Holds(s.sched) && s.sched.id == id)
  {
    hide MemInv, AppendItem;
    AppendRegisters(s.mem, s.enqueuers[t].device);
  }

  lemma QuietItemStep(c: Config, s: State, step: Step, id: nat)
    requires Enabled(c, s, step) && id < |s.mem.items| && (Quiet(step) || step.Register? || step.Peek?)
    ensures var n := Apply(c, s, step);
            && n.mem.items == s.mem.items
            && ItemEffect(s, step, s.mem.items[id], n.mem.items[id], Holds(s.sched) && s.sched.id == id)
  {}

  lemma EditItemStep(c: Config, s: State, step: Step, id: nat)
    requires Enabled(c, s, step) && id < |s.mem.items| && (step.Prepare? || step.CountAttempt?)
    ensures var n := Apply(c, s, step);
            && |n.mem.items| == |s.mem.items|
            && ItemEffect(s, step, s.mem.items[id], n.mem.items[id], Holds(s.sched) && s.sched.id == id)
  {
    hide Queue, PopHead, AddQueue, AppendItem, AckHead, RemoveItem;
  }

  lemma RemovalItemStep(c: Config, s: State, step: Step, id: nat)
    requires Base(s) && Enabled(c, s, step) && id < |s.mem.items| && (step.Drop? || step.RemoveExhausted?)
    ensures var n := Apply(c, s, step);
            && |n.mem.items| == |s.mem.items|
            && ItemEffect(s, step, s.mem.items[id], n.mem.items[id], Holds(s.sched) && s.sched.id == id)
  {
    hide MemInv, RemoveItem;
    RemoveItemStep(s.mem, s.sched.device, s.sched.id, if step.Drop? then Dropped else Exhausted, s.now, id);
  }

  lemma DequeueItemStep(c: Config, s: State, t: nat, id: nat)
    requires Base(s) && Enabled(c, s, Dequeue(t)) && id < |s.mem.items|
    ensures var n := Apply(c, s, Dequeue(t));
            && |n.mem.items| == |s.mem.items|
            && ItemEffect(s, Dequeue(t), s.mem.items[id], n.mem.items[id], Holds(s.sched) && s.sched.id == id)
  {
    hide MemInv, PopHead;
    var d := s.receivers[t].device;
    if Queue(s.mem, d) != [] {
      PopHeadItems(s.mem, d, Acked, s.now, id);
    }
  }

  lemma RemoveItemStep(m: Mem, d: Device, head: nat, outcome: Outcome, at: nat, id: nat)
    requires MemInv(m) && HeadOrDone(m, d, head) && id < |m.items|
    ensures var n := RemoveItem(m, d, head, outcome, at);
            && |n.items| == |m.items|
            && n.items[id] == if id == head && IsHead(m, d, head) then MarkDone(m.items[id], outcome == Acked) else m.items[id]
  {
    hide MemInv, PopHead;
    if IsHead(m, d, head) {
      PopHeadItems(m, d, outcome, at, id);
    }
  }

  // ------------------------------------------------------------------ prepared messages

  /** Past preparation the held item has its message; being dropped, it has none. */
  ghost predicate Prepared(s: State)
  {
    && (s.sched.Writing? || s.sched.Holding? || s.sched.Failing? || s.sched.Removing? || s.sched.Reporting? ==>
          ItemAt(s.mem, s.sched.id).message.Some?)
    && (s.sched.Dropping? ==> ItemAt(s.mem, s.sched.id).message.None?)
  }

  /** The scheduler is at a point where its item has been prepared. */
  predicate PastPreparing(sched: Sched)
  {
    sched.Writing? || sched.Holding? || sched.Failing? || sched.Removing? || sched.Reporting?
  }

  /** The other threads and the clock leave the scheduler where it is. */
  lemma OutsideKeepsSched(c: Config, s: State, step: Step)
    requires Enabled(c, s, step) && Outside(step)
    ensures Apply(c, s, step).sched == s.sched
  {
    hide PopHead, AppendItem, AddQueue, Queue, AckHead;
  }

  /** A scheduler step gets past preparing with the item it holds, which has its message by then. */
  lemma PreparingStep(c: Config, s: State, step: Step)
    requires Enabled(c, s, step) && !Outside(step)
    ensures var n := Apply(c, s, step);
            && (PastPreparing(n.sched) ==>
                  && Holds(s.sched) && n.sched.id == s.sched.id
                  && (PastPreparing(s.sched) || step.Prepare? || (step.Reuse? && ItemAt(s.mem, s.sched.id).message.Some?)))
            && (n.sched.Dropping? ==>
                  step.PrepareFails? && Holds(s.sched) && n.sched.id == s.sched.id && ItemAt(s.mem, s.sched.id).message.None?)
  {
    hide Queue, PopHead, RemoveItem, WithItem, CountWrite, IsHead, AddQueue, AppendItem, AckHead, PeekDevice, PeekIndex;
  }

  lemma PreparedStep(c: Config, s: State, step: Step)
    requires Base(s) && Prepared(s) && Enabled(c, s, step)
    ensures Prepared(Apply(c, s, step))
  {
    hide Base, Apply, Enabled;
    if Outside(step) {
      OutsideKeepsSched(c, s, step);
    } else {
      PreparingStep(c, s, step);
    }
    if Holds(s.sched) {
      HeldInRange(s);
      ItemStep(c, s, step, s.sched.id);
    }
  }

  lemma HeldInRange(s: State)
    requires Base(s) && Holds(s.sched)
    ensures s.sched.id < |s.mem.items|
  {}

  // ------------------------------------------------------------------ attempts

  ghost predicate InFlight(sched: Sched, id: nat)
  {
    (sched.Holding? || sched.Failing?) && sched.id == id
  }

  /** Attempts against the retry count of one item. */
  ghost predicate AttemptsOf(c: Config, s: State, id: nat)
    requires id < |s.attempts| && id < |s.mem.items|
  {
    var limit, item, tries := Limit(c.maxRetry), s.mem.items[id], s.attempts[id];
    && tries <= limit && item.retryCount <= limit
    && (item.message.None? ==> tries == 0)
    && (!item.done && !(s.sched.Removing? && s.sched.id == id) ==> item.retryCount < limit)
    && (!item.done && !s.stopped && !InFlight(s.sched, id) ==> tries == item.retryCount)
    && (Holds(s.sched) && s.sched.id == id ==>
          if s.sched.Picked? then item.retryCount < limit && (s.stopped || tries == item.retryCount)
          else if InFlight(s.sched, id) then tries == item.retryCount + 1
          else if s.sched.Removing? || s.sched.Reporting? then tries == item.retryCount == limit
          else tries == item.retryCount < limit)
  }

  ghost predicate Attempts(c: Config, s: State)
  {
    && |s.attempts| == |s.mem.items|
    && (forall id | 0 <= id < |s.attempts| :: AttemptsOf(c, s, id))
  }

  lemma AttemptsStep(c: Config, s: State, step: Step)
    requires Base(s) && Prepared(s) && Attempts(c, s) && Enabled(c, s, step)
    ensures Attempts(c, Apply(c, s, step))
  {
    hide MemInv, Base;
    AttemptsLength(c, s, step);
    forall id | 0 <= id < |Apply(c, s, step).attempts|
      ensures AttemptsOf(c, Apply(c, s, step), id)
    {
      if id < |s.attempts| {
        AttemptsOneStep(c, s, step, id);
      } else {
        NewItemAttempts(c, s, step);
      }
    }
  }

  lemma AttemptsLength(c: Config, s: State, step: Step)
    requires Base(s) && Enabled(c, s, step) && |s.attempts| == |s.mem.items|
    ensures |Apply(c, s, step).attempts| == |Apply(c, s, step).mem.items| == |s.attempts| + (if step.Append? then 1 else 0)
  {
    hide Base, Apply, Enabled, ItemEffect;
    AttemptsGrow(c, s, step);
    if |s.mem.items| > 0 {
      ItemStep(c, s, step, 0);
    } else {
      NoItemsToPop(c, s, step);
    }
  }

  lemma AttemptsGrow(c: Config, s: State, step: Step)
    requires Enabled(c, s, step)
    ensures |Apply(c, s, step).attempts| == |s.attempts| + (if step.Append? then 1 else 0)
  {
    hide Queue, PopHead, AddQueue, AppendItem, AckHead, RemoveItem, WithItem;
  }

  lemma NoItemsToPop(c: Config, s: State, step: Step)
    requires Base(s) && Enabled(c, s, step) && s.mem.items == []
    ensures |Apply(c, s, step).mem.items| == if step.Append? then 1 else 0
  {
    hide MemInv, PopHead, AppendItem;
    if step.Append? {
      AppendRegisters(s.mem, s.enqueuers[step.thread].device);
    } else if step.Dequeue? && Queue(s.mem, s.receivers[step.thread].device) != [] {
      QueuedInRange(s.mem, s.receivers[step.thread].device, 0);
    }
  }

  lemma NewItemAttempts(c: Config, s: State, step: Step)
    requires Base(s) && Attempts(c, s) && Enabled(c, s, step) && step.Append?
    ensures var n := Apply(c, s, step);
            |n.attempts| == |n.mem.items| == |s.attempts| + 1 && AttemptsOf(c, n, |s.attempts|)
  {
    hide MemInv;
    AppendRegisters(s.mem, s.enqueuers[step.thread].device);
  }

  lemma AttemptsOneStep(c: Config, s: State, step: Step, id: nat)
    requires Base(s) && Prepared(s) && Enabled(c, s, step)
    requires id < |s.attempts| == |s.mem.items| && AttemptsOf(c, s, id)
    ensures var n := Apply(c, s, step); id < |n.attempts| && id < |n.mem.items| && AttemptsOf(c, n, id)
  {
    hide Base, Prepared, AttemptsOf, Apply, Enabled;
    if Outside(step) {
      OutsideAttempts(c, s, step, id);
    } else if Editing(step) {
      EditingAttempts(c, s, step, id);
    } else if step.Peek? {
      PeekAttempts(c, s, id);
    } else {
      MovingAttempts(c, s, step, id);
    }
  }

  /** Steps of the other threads and of the clock. */
  predicate Outside(step: Step)
  {
    step.Register? || step.Append? || step.Wake? || step.Lookup? || step.Dequeue? || step.Stop? || step.Tick?
  }

  /** Scheduler steps that write the attempt count or the item. */
  predicate Editing(step: Step)
  {
    step.Prepare? || step.Drop? || step.WriteOk? || step.WriteFails? || step.CountAttempt? || step.RemoveExhausted?
  }

  lemma OutsideAttempts(c: Config, s: State, step: Step, id: nat)
    requires Base(s) && Enabled(c, s, step) && Outside(step)
    requires id < |s.attempts| == |s.mem.items| && AttemptsOf(c, s, id)
    ensures var n := Apply(c, s, step); id < |n.attempts| && id < |n.mem.items| && AttemptsOf(c, n, id)
  {
    hide Base, AppendItem, AckHead, AddQueue, Limit;
    ItemStep(c, s, step, id);
  }

  lemma PeekAttempts(c: Config, s: State, id: nat)
    requires Base(s) && Enabled(c, s, Peek)
    requires id < |s.attempts| == |s.mem.items| && AttemptsOf(c, s, id)
    ensures var n := Apply(c, s, Peek); id < |n.attempts| && id < |n.mem.items| && AttemptsOf(c, n, id)
  {
    hide Base, Limit;
    if Queue(s.mem, PeekDevice(s)) != [] {
      FreshlyPicked(s);
    }
  }

  lemma MovingAttempts(c: Config, s: State, step: Step, id: nat)
    requires Enabled(c, s, step) && !Outside(step) && !Editing(step) && !step.Peek?
    requires id < |s.attempts| == |s.mem.items| && AttemptsOf(c, s, id)
    ensures var n := Apply(c, s, step); id < |n.attempts| && id < |n.mem.items| && AttemptsOf(c, n, id)
  {
    hide Limit;
  }

  lemma EditingAttempts(c: Config, s: State, step: Step, id: nat)
    requires Base(s) && Prepared(s) && Enabled(c, s, step) && Editing(step)
    requires id < |s.attempts| == |s.mem.items| && AttemptsOf(c, s, id)
    ensures var n := Apply(c, s, step); id < |n.attempts| && id < |n.mem.items| && AttemptsOf(c, n, id)
  {
    hide Base, Prepared, AttemptsOf, Apply, Enabled;
    if step.CountAttempt? {
      CountAttempts(c, s, id);
    } else if step.RemoveExhausted? {
      RemoveAttempts(c, s, id);
    } else if step.Prepare? || step.Drop? {
      PrepareAttempts(c, s, step, id);
    } else {
      WriteAttempts(c, s, step, id);
    }
  }

  lemma CountAttempts(c: Config, s: State, id: nat)
    requires Base(s) && Enabled(c, s, CountAttempt)
    requires id < |s.attempts| == |s.mem.items| && AttemptsOf(c, s, id)
    ensures var n := Apply(c, s, CountAttempt); id < |n.attempts| && id < |n.mem.items| && AttemptsOf(c, n, id)
  {
    hide Base, Limit;
    ItemStep(c, s, CountAttempt, id);
    LimitComparison(c.maxRetry, ItemAt(s.mem, s.sched.id).retryCount + 1);
  }

  lemma RemoveAttempts(c: Config, s: State, id: nat)
    requires Base(s) && Enabled(c, s, RemoveExhausted)
    requires id < |s.attempts| == |s.mem.items| && AttemptsOf(c, s, id)
    ensures var n := Apply(c, s, RemoveExhausted); id < |n.attempts| && id < |n.mem.items| && AttemptsOf(c, n, id)
  {
    hide Base, Limit, RemoveItem;
    ItemStep(c, s, RemoveExhausted, id);
    RemoveKeeps(c, s, RemoveExhausted, Exhausted);
  }

  lemma PrepareAttempts(c: Config, s: State, step: Step, id: nat)
    requires Base(s) && Enabled(c, s, step) && (step.Prepare? || step.Drop?)
    requires id < |s.attempts| == |s.mem.items| && AttemptsOf(c, s, id)
    ensures var n := Apply(c, s, step); id < |n.attempts| && id < |n.mem.items| && AttemptsOf(c, n, id)
  {
    hide Base, Limit, RemoveItem;
    ItemStep(c, s, step, id);
  }

  lemma WriteAttempts(c: Config, s: State, step: Step, id: nat)
    requires Prepared(s) && Enabled(c, s, step) && (step.WriteOk? || step.WriteFails?)
    requires id < |s.attempts| == |s.mem.items| && AttemptsOf(c, s, id)
    ensures var n := Apply(c, s, step); id < |n.attempts| && id < |n.mem.items| && AttemptsOf(c, n, id)
  {
    hide Limit;
  }
}
