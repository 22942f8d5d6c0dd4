/** The write queue manager: its methods change linked queue and item objects, and each of them has
    exactly the effect on the shared memory that the corresponding protocol step has. */
module WriteQueueManager {
  import opened Words
  import opened Wrappers
  import opened WriteItems
  import opened WriteQueue
  import opened Scheduler
  import opened SchedulerMemory
  import opened SchedulerSafety

  /** The device a scan that starts at index rr comes to after k others. */
  function ScanDevice(m: Mem, rr: nat, k: nat): Device
  {
    if m.order == [] then "" else m.order[(rr + k) % |m.order|]
  }

  /** The first offset from i on at which the scan finds a queue non-empty. */
  function NextOffset(m: Mem, rr: nat, i: nat): (k: Option<nat>)
    ensures k.Some? ==> i <= k.value < |m.order| && Queue(m, ScanDevice(m, rr, k.value)) != []
    ensures k.Some? ==> forall j: nat | i <= j < k.value :: Queue(m, ScanDevice(m, rr, j)) == []
    ensures k.None? ==> forall j: nat | i <= j < |m.order| :: Queue(m, ScanDevice(m, rr, j)) == []
    decreases |m.order| - i
  {
    if i >= |m.order| then None
    else if Queue(m, ScanDevice(m, rr, i)) != [] then Some(i)
    else NextOffset(m, rr, i + 1)
  }

  lemma OffsetStep(m: Mem, rr: nat, i: nat)
    requires i < |m.order|
    ensures 0 <= (rr + i) % |m.order| < |m.order| && ScanDevice(m, rr, i) == m.order[(rr + i) % |m.order|]
    ensures NextOffset(m, rr, i) == if Queue(m, ScanDevice(m, rr, i)) != [] then Some(i) else NextOffset(m, rr, i + 1)
  {}

  lemma OffsetEnds(m: Mem, rr: nat, i: nat)
    requires i >= |m.order|
    ensures NextOffset(m, rr, i) == None
  {}

  /** w lists the objects of the ids in q. */
  ghost predicate Mirrors(w: seq<PendingPointWrite>, q: seq<nat>, all: seq<PendingPointWrite>)
  {
    |w| == |q| && forall j | 0 <= j < |w| :: q[j] < |all| && w[j] == all[q[j]]
  }

  lemma NothingMirrors(all: seq<PendingPointWrite>)
    ensures Mirrors([], [], all)
  {}

  lemma MirrorsAppend(w: seq<PendingPointWrite>, q: seq<nat>, all: seq<PendingPointWrite>, more: PendingPointWrite)
    requires Mirrors(w, q, all)
    ensures Mirrors(w, q, all + [more]) && Mirrors(w + [more], q + [|all|], all + [more])
  {}

  lemma MirrorsTail(w: seq<PendingPointWrite>, q: seq<nat>, all: seq<PendingPointWrite>)
    requires Mirrors(w, q, all) && w != []
    ensures q != [] && q[0] < |all| && w[0] == all[q[0]] && Mirrors(w[1..], q[1..], all)
  {}

  /** The objects hold what the protocol's items hold. */
  ghost predicate Shows(all: seq<PendingPointWrite>, items: seq<Item>)
    reads all
  {
    |all| == |items| && forall i | 0 <= i < |all| :: all[i].View() == items[i]
  }

  ghost predicate Distinct(all: seq<PendingPointWrite>)
  {
    forall i, j | 0 <= i < j < |all| :: all[i] != all[j]
  }

  ghost predicate Apart(queues: map<Device, PointWriteQueue>)
  {
    forall d, e | d in queues && e in queues && d != e :: queues[d] != queues[e]
  }

  lemma StillDistinct(all: seq<PendingPointWrite>, more: PendingPointWrite)
    requires Distinct(all) && more !in all
    ensures Distinct(all + [more])
  {}

  lemma OnlyIndex(all: seq<PendingPointWrite>, id: nat)
    requires Distinct(all) && id < |all|
    ensures forall i | 0 <= i < |all| :: all[i] == all[id] ==> i == id
  {}

  /** The head object is an item's exactly when the head id is. */
  lemma HeadObject(w: seq<PendingPointWrite>, q: seq<nat>, all: seq<PendingPointWrite>, id: nat)
    requires Mirrors(w, q, all) && Distinct(all) && w != [] && id < |all|
    ensures q != [] && (w[0] == all[id] <==> q[0] == id)
  {
    OnlyIndex(all, id);
  }

  lemma OnlyQueue(queues: map<Device, PointWriteQueue>, d: Device)
    requires Apart(queues) && d in queues
    ensures forall e | e in queues && e != d :: queues[e] != queues[d]
  {}

  /** m with the head of d's queue gone and marked done. */
  ghost predicate Popped(m: Mem, n: Mem, d: Device, acked: bool)
    requires Queue(m, d) != []
  {
    var id := Queue(m, d)[0];
    && id < |m.items| && m.items[id].device == d
    && n.items == m.items[id := MarkDone(m.items[id], acked)]
    && n.queues == m.queues[d := m.queues[d][1..]] && n.order == m.order
  }

  lemma AckCases(m: Mem, d: Device, messageId: byte, at: nat)
    requires MemInv(m)
    ensures var n := AckHead(m, d, messageId, at);
            if Queue(m, d) != [] && ItemAt(m, Queue(m, d)[0]).message.Some? && ItemAt(m, Queue(m, d)[0]).messageId == messageId
            then Popped(m, n, d, true) && !ItemAt(m, Queue(m, d)[0]).done
            else n == m
    ensures Queue(m, d) != [] ==> Queue(m, d)[0] < |m.items|
  {
    hide MemInv, PopHead;
    if Queue(m, d) != [] {
      PoppedItems(m, d, Acked, at);
    }
  }

  lemma RemoveCases(m: Mem, d: Device, id: nat, outcome: Outcome, at: nat)
    requires MemInv(m) && outcome != Acked
    ensures var n := Scheduler.RemoveItem(m, d, id, outcome, at);
            if IsHead(m, d, id) then Queue(m, d)[0] == id && Popped(m, n, d, false) else n == m
  {
    hide MemInv, PopHead;
    if Queue(m, d) != [] {
      PoppedItems(m, d, outcome, at);
    }
  }

  /** How the wait after a written frame ends. */
  datatype Wait = SawDone | TimedOut | SawStop

  /** finishAttempt on the shared memory. */
  function FinishEffect(m: Mem, maxRetry: int, d: Device, id: nat, now: nat): Mem
  {
    var count := ItemAt(m, id).retryCount + 1;
    var counted := WithItem(m, id, ItemAt(m, id).(retryCount := count));
    if count < maxRetry then counted else Scheduler.RemoveItem(counted, d, id, Exhausted, now)
  }

  /** prepareMessage on the shared memory, when it succeeds. */
  function PrepareEffect(m: Mem, id: nat, prepared: (byte, seq<byte>)): Mem
  {
    WithItem(m, id, ItemAt(m, id).(messageId := prepared.0, message := Some(prepared.1)))
  }

  /** transmit on the shared memory: an item that cannot be prepared is dropped, a failed write or a
      timeout counts the attempt, and an ack or stop leaves it uncounted. */
  function TransmitEffect(m: Mem, maxRetry: int, d: Device, id: nat, prepared: Option<(byte, seq<byte>)>, written: bool, wait: Wait, now: nat): Mem
  {
    if ItemAt(m, id).message.None? && prepared.None? then Scheduler.RemoveItem(m, d, id, Dropped, now)
    else
      var ready := if ItemAt(m, id).message.None? then PrepareEffect(m, id, prepared.value) else m;
      if written && !wait.TimedOut? then ready else FinishEffect(ready, maxRetry, d, id, now)
  }

  class PointWriteQueueManager {
    var queues: map<Device, PointWriteQueue>
    var order: seq<Device>
    var rrIndex: nat
    var notify: bool
    var stopped: bool
    const maxRetry: int
    ghost var mem: Mem                          // the shared memory as the protocol sees it
    ghost var all: seq<PendingPointWrite>       // every item ever enqueued: item i is all[i]

    ghost predicate Valid()
      reads this, queues.Values, all
    {
      && MemInv(mem)
      && queues.Keys == mem.queues.Keys && order == mem.order && rrIndex <= |order|
      && Apart(queues) && Distinct(all)
      && (forall d | d in queues :: Mirrors(queues[d].writeQueue, mem.queues[d], all))
      && Shows(all, mem.items)
    }

    constructor (retries: int)
      ensures Valid() && mem == EMPTY_MEM && rrIndex == 0 && !notify && !stopped && maxRetry == retries
    {
      queues, order, rrIndex, notify, stopped := map[], [], 0, false, false;
      maxRetry := retries;
      mem, all := EMPTY_MEM, [];
    }

    method Stop()
      requires Valid()
      modifies this`stopped
      ensures Valid() && stopped
    {
      stopped := true;
    }

    method Wake()
      requires Valid()
      modifies this`notify
      ensures Valid() && notify
    {
      notify := true;
    }

    method GetOrCreateQueue(deviceUUID: Device) returns (queue: PointWriteQueue)
      requires Valid()
      modifies this`queues, this`order, this`mem
      ensures Valid() && mem == AddQueue(old(mem), deviceUUID)
      ensures deviceUUID in queues && queue == queues[deviceUUID]
      ensures queue in old(queues.Values) || fresh(queue)
    {
      hide MemInv, Mirrors, Shows, Distinct;
      AddQueueKeeps(mem, deviceUUID);
      if deviceUUID in queues {
        assert queues[deviceUUID] in queues.Values;
        return queues[deviceUUID];
      }
      queue := new PointWriteQueue();
      ghost var before := queues;
      queues := queues[deviceUUID := queue];
      order := order + [deviceUUID];
      mem := AddQueue(mem, deviceUUID);
      assert forall d | d in before :: before[d] in before.Values;
      NothingMirrors(all);
    }

    /** The append of EnqueuePoint: the queue is already registered. */
    method AppendTo(deviceUUID: Device) returns (ppWrite: PendingPointWrite)
      requires Valid() && deviceUUID in queues
      modifies this`mem, this`all, queues[deviceUUID]
      ensures Valid() && mem == AppendItem(old(mem), deviceUUID)
      ensures all == old(all) + [ppWrite] && fresh(ppWrite)
    {
      hide MemInv, Mirrors, Apart, Distinct, AppendItem, NewItem, PendingPointWrite.View;
      AppendItemKeeps(mem, deviceUUID);
      AppendRegisters(mem, deviceUUID);
      OnlyQueue(queues, deviceUUID);
      ghost var before, known := mem, all;
      ppWrite := queues[deviceUUID].EnqueueWriteQueue(deviceUUID);
      mem := AppendItem(mem, deviceUUID);
      all := all + [ppWrite];
      StillDistinct(known, ppWrite);
      forall d | d in queues
        ensures Mirrors(queues[d].writeQueue, mem.queues[d], all)
      {
        MirrorsAppend(old(queues[d].writeQueue), before.queues[d], known, ppWrite);
      }
    }

    method EnqueuePoint(deviceUUID: Device)
      requires Valid()
      modifies this`queues, this`order, this`mem, this`all, this`notify, queues.Values
      ensures Valid() && notify
      ensures mem == AppendItem(AddQueue(old(mem), deviceUUID), deviceUUID)
    {
      hide MemInv, Mirrors, Apart, Distinct, Shows, AddQueue, AppendItem;
      var queue := GetOrCreateQueue(deviceUUID);
      assert mem == AddQueue(old(mem), deviceUUID);
      var ppWrite := AppendTo(deviceUUID);
      assert mem == AppendItem(AddQueue(old(mem), deviceUUID), deviceUUID);
      Wake();
    }

    /** The RESPONSE path: acknowledges the head of the device's queue if it carries the id. */
    method DequeueUsingMessageId(deviceUUID: Device, messageId: byte, ghost now: nat) returns (point: Option<Device>)
      requires Valid()
      modifies this`mem, queues.Values, all
      ensures Valid() && mem == AckHead(old(mem), deviceUUID, messageId, now)
      ensures point == if deviceUUID in queues && old(queues[deviceUUID].writeQueue) != []
                          && old(queues[deviceUUID].writeQueue[0].Message).Some?
                          && old(queues[deviceUUID].writeQueue[0].MessageId) == messageId
                       then Some(deviceUUID) else None
      ensures point.Some? ==>
                && queues[deviceUUID].writeQueue == old(queues[deviceUUID].writeQueue)[1..]
                && old(queues[deviceUUID].writeQueue)[0].done && old(queues[deviceUUID].writeQueue)[0].acked
      ensures point.None? ==> mem == old(mem) && forall d | d in queues :: queues[d].writeQueue == old(queues[d].writeQueue)
    {
      hide MemInv, Mirrors, Apart, Distinct, PopHead, AckHead;
      AckHeadKeeps(mem, deviceUUID, messageId, now);
      AckCases(mem, deviceUUID, messageId, now);
      if deviceUUID !in queues {
        return None;
      }
      ghost var list := queues[deviceUUID].writeQueue;
      SameEnds(deviceUUID);
      OnlyQueue(queues, deviceUUID);
      if list != [] {
        MirrorsTail(list, mem.queues[deviceUUID], all);
        OnlyIndex(all, mem.queues[deviceUUID][0]);
      }
      var item := queues[deviceUUID].Dequeue(Some(messageId));
      if item == null {
        return None;
      }
      mem := AckHead(mem, deviceUUID, messageId, now);
      return Some(item.Point);
    }

    lemma SameEnds(d: Device)
      requires Valid() && d in queues
      ensures queues[d].writeQueue == [] <==> Queue(mem, d) == []
    {}

    /** nextPending: the first non-empty queue in cyclic order from rrIndex, or nil when all are empty. */
    method NextPending() returns (deviceUUID: Device, item: PendingPointWrite?)
      requires Valid()
      modifies this`rrIndex
      ensures Valid()
      ensures item == null <==> forall d | d in queues :: queues[d].writeQueue == []
      ensures match NextOffset(mem, old(rrIndex), 0)
              case None => item == null && rrIndex == old(rrIndex)
              case Some(k) =>
                && deviceUUID == ScanDevice(mem, old(rrIndex), k)
                && deviceUUID in queues && item != null && queues[deviceUUID].writeQueue != [] && item == queues[deviceUUID].writeQueue[0]
                && rrIndex == (old(rrIndex) + k) % |order| + 1
    {
      hide MemInv, Mirrors, Apart, Distinct, Shows, NextOffset, ScanDevice;
      var n := |order|;
      var i := 0;
      while i < n
        invariant i <= n && rrIndex == old(rrIndex)
        invariant NextOffset(mem, rrIndex, 0) == NextOffset(mem, rrIndex, i)
      {
        OffsetStep(mem, rrIndex, i);
        var idx := (rrIndex + i) % n;
        deviceUUID := order[idx];
        OrderRegistered(idx);
        SameEnds(deviceUUID);
        item := queues[deviceUUID].Peek();
        if item != null {
          rrIndex := idx + 1;
          return;
        }
        i := i + 1;
      }
      OffsetEnds(mem, rrIndex, n);
      AllSeen(rrIndex);
      return "", null;
    }

    lemma OrderRegistered(idx: nat)
      requires Valid() && idx < |order|
      ensures order[idx] in queues
    {
      assert order[idx] in mem.order;
    }

    lemma AllSeen(rr: nat)
      requires Valid() && rr <= |order| && NextOffset(mem, rr, 0).None?
      ensures forall d | d in queues :: queues[d].writeQueue == []
    {
      hide Conserved, Owned, DoneMeansFinished, OnlyHeadsTouched, EndsOnce, Mirrors, Shows, NextOffset;
      forall d | d in queues
        ensures queues[d].writeQueue == []
      {
        assert d in mem.order;
        var p: nat :| p < |mem.order| && mem.order[p] == d;
        var k := Reaches(rr, |order|, p);
        assert ScanDevice(mem, rr, k) == d;
        SameEnds(d);
      }
    }

    /** prepareMessage's outcome stored on the item. */
    method SetMessage(queue: PointWriteQueue, item: PendingPointWrite, ghost id: nat, messageId: byte, message: seq<byte>)
      requires Valid() && id < |all| && all[id] == item && HeadOrDone(mem, mem.items[id].device, id)
      modifies this`mem, item
      ensures Valid() && item.Message == Some(message)
      ensures mem == PrepareEffect(old(mem), id, (messageId, message))
    {
      hide MemInv, Mirrors, Apart, Distinct;
      OnlyIndex(all, id);
      WithItemKeeps(mem, mem.items[id].device, id, mem.items[id].(messageId := messageId, message := Some(message)));
      queue.SetMessage(item, messageId, message);
      mem := WithItem(mem, id, mem.items[id].(messageId := messageId, message := Some(message)));
    }

    /** finishAttempt: counts the attempt; gives up on the item when it was the last one allowed and
        the item is still the head. */
    method FinishAttempt(deviceUUID: Device, queue: PointWriteQueue, item: PendingPointWrite, ghost id: nat, ghost now: nat)
      returns (exhausted: bool)
      requires Valid() && deviceUUID in queues && queue == queues[deviceUUID]
      requires id < |all| && all[id] == item && HeadOrDone(mem, deviceUUID, id)
      modifies this`mem, queue, item
      ensures Valid()
      ensures mem == FinishEffect(old(mem), maxRetry, deviceUUID, id, now)
      ensures exhausted <==> old(mem).items[id].retryCount + 1 >= maxRetry && IsHead(old(mem), deviceUUID, id)
    {
      hide MemInv, Mirrors, Apart, Distinct, Shows, PopHead;
      var count := CountAttempt(deviceUUID, queue, item, id);
      if count < maxRetry {
        return false;
      }
      exhausted := TakeOut(deviceUUID, queue, item, id, Exhausted, now);
    }

    /** transmit, with the outcomes of preparing, writing and waiting given: what it does to the item,
        and the frame it hands to the serial writer. */
    method Transmit(deviceUUID: Device, queue: PointWriteQueue, item: PendingPointWrite, ghost id: nat,
                    prepared: Option<(byte, seq<byte>)>, written: bool, wait: Wait, ghost now: nat)
      returns (frame: Option<seq<byte>>, exhausted: bool, backOff: bool)
      requires Valid() && deviceUUID in queues && queue == queues[deviceUUID]
      requires id < |all| && all[id] == item && HeadOrDone(mem, deviceUUID, id)
      modifies this`mem, queue, item
      ensures Valid()
      ensures mem == TransmitEffect(old(mem), maxRetry, deviceUUID, id, prepared, written, wait, now)
      ensures frame == if old(mem).items[id].message.Some? then old(mem).items[id].message
                       else if prepared.Some? then Some(prepared.value.1) else None
      ensures exhausted <==>
                frame.Some? && !(written && !wait.TimedOut?)
                && old(mem).items[id].retryCount + 1 >= maxRetry && IsHead(old(mem), deviceUUID, id)
      ensures backOff <==> frame.Some? && !written
    {
      hide MemInv, Mirrors, Apart, Distinct, PopHead;
      frame, exhausted, backOff := None, false, false;
      if item.Message.None? {
        match prepared {
          case None =>
            var removed := TakeOut(deviceUUID, queue, item, id, Dropped, now);
            return;
          case Some(message) =>
            SetMessage(queue, item, id, message.0, message.1);
        }
      }
      frame := item.Message;
      if !written {
        exhausted := FinishAttempt(deviceUUID, queue, item, id, now);
        backOff := true;
        return;
      }
      match wait {
        case SawDone =>
        case SawStop =>
        case TimedOut =>
          exhausted := FinishAttempt(deviceUUID, queue, item, id, now);
      }
    }

    method CountAttempt(ghost deviceUUID: Device, queue: PointWriteQueue, item: PendingPointWrite, ghost id: nat) returns (count: nat)
      requires Valid() && id < |all| && all[id] == item && HeadOrDone(mem, deviceUUID, id)
      modifies this`mem, item
      ensures Valid() && count == old(mem).items[id].retryCount + 1
      ensures mem == WithItem(old(mem), id, old(mem).items[id].(retryCount := count))
    {
      hide MemInv, Mirrors, Apart, Distinct;
      WithItemKeeps(mem, deviceUUID, id, mem.items[id].(retryCount := mem.items[id].retryCount + 1));
      OnlyIndex(all, id);
      count := queue.IncRetry(item);
      mem := WithItem(mem, id, mem.items[id].(retryCount := count));
    }

    /** RemoveItem on the manager's memory. */
    method TakeOut(deviceUUID: Device, queue: PointWriteQueue, item: PendingPointWrite, ghost id: nat, ghost outcome: Outcome, ghost now: nat)
      returns (removed: bool)
      requires Valid() && deviceUUID in queues && queue == queues[deviceUUID] && outcome != Acked
      requires id < |all| && all[id] == item
      modifies this`mem, queue, item
      ensures Valid() && mem == Scheduler.RemoveItem(old(mem), deviceUUID, id, outcome, now)
      ensures removed <==> IsHead(old(mem), deviceUUID, id)
    {
      hide MemInv, Mirrors, Apart, Distinct, PopHead, Scheduler.RemoveItem, IsHead;
      RemoveItemKeeps(mem, deviceUUID, id, outcome, now);
      RemoveCases(mem, deviceUUID, id, outcome, now);
      HeadHere(deviceUUID, id);
      removed := queue.RemoveItem(item);
      if !removed {
        return;
      }
      OnlyQueue(queues, deviceUUID);
      OnlyIndex(all, id);
      mem := Scheduler.RemoveItem(mem, deviceUUID, id, outcome, now);
    }

    lemma HeadHere(d: Device, id: nat)
      requires Valid() && d in queues && id < |all|
      ensures var w := queues[d].writeQueue;
              && (IsHead(mem, d, id) <==> w != [] && w[0] == all[id])
              && (w != [] ==> mem.queues[d] != [] && Mirrors(w[1..], mem.queues[d][1..], all))
    {
      hide MemInv, Shows, Apart;
      var w := queues[d].writeQueue;
      if w != [] {
        MirrorsTail(w, mem.queues[d], all);
        HeadObject(w, mem.queues[d], all, id);
      }
    }
  }

  /** Where a scan that no other thread interrupts leaves the protocol. */
  function ScanResult(s: State): State
    requires s.sched.Scanning?
  {
    match NextOffset(s.mem, s.rrIndex, s.sched.i)
    case None => s.(sched := Waiting)
    case Some(k) =>
      var d := ScanDevice(s.mem, s.rrIndex, k);
      s.(rrIndex := (s.rrIndex + k) % |s.mem.order| + 1, sched := Picked(d, Queue(s.mem, d)[0]), picks := s.picks + [d])
  }

  /** The protocol's scan, taken without interruption, does what NextPending does: the same queue, the
      same head, the same index. */
  lemma {:induction false} UninterruptedScan(c: Config, s: State) returns (states: seq<State>, steps: seq<Step>)
    requires Base(s) && s.sched.Scanning?
    ensures IsRun(c, states, steps) && states[0] == s && states[|steps|] == ScanResult(s)
    ensures forall i | 0 <= i < |steps| :: steps[i].Peek? || steps[i].EndScan?
    decreases s.sched.n - s.sched.i
  {
    hide MemInv, HeadOrDone, NextOffset, ScanDevice;
    var step := if s.sched.i < s.sched.n then Peek else EndScan;
    var next := Apply(c, s, step);
    if s.sched.i >= s.sched.n {
      OffsetEnds(s.mem, s.rrIndex, s.sched.i);
      states, steps := [s, next], [EndScan];
    } else {
      OffsetStep(s.mem, s.rrIndex, s.sched.i);
      if Queue(s.mem, PeekDevice(s)) != [] {
        states, steps := [s, next], [Peek];
      } else {
        PeekKeeps(c, s);
        var rest, more := UninterruptedScan(c, next);
        states, steps := [s] + rest, [Peek] + more;
      }
    }
  }

  lemma OneMore(c: Config, s: State, step: Step, states: seq<State>, steps: seq<Step>)
    requires IsRun(c, states, steps) && Enabled(c, s, step) && Apply(c, s, step) == states[0]
    ensures IsRun(c, [s] + states, [step] + steps)
  {
    hide Apply, Enabled;
  }

  /** The protocol's finishing steps, uninterrupted. */
  lemma UninterruptedFinish(c: Config, s: State) returns (states: seq<State>, steps: seq<Step>)
    requires s.sched.Failing?
    ensures IsRun(c, states, steps) && states[0] == s
    ensures forall i | 0 <= i < |steps| :: !Outside(steps[i])
    ensures var last, d, id := states[|steps|], s.sched.device, s.sched.id;
            && last.mem == FinishEffect(s.mem, c.maxRetry, d, id, s.now)
            && last.sched == (if s.sched.slow then BackingOff(s.now) else Top) && last.frames == s.frames && last.now == s.now
            && last.reported == s.reported + (if ItemAt(s.mem, id).retryCount + 1 >= c.maxRetry && IsHead(s.mem, d, id) then [id] else [])
  {
    hide PopHead, Scheduler.RemoveItem;
    var counted := Apply(c, s, CountAttempt);
    if !counted.sched.Removing? {
      states, steps := [s, counted], [CountAttempt];
    } else {
      states, steps := UninterruptedRemoval(c, counted);
      OneMore(c, s, CountAttempt, states, steps);
      states, steps := [s] + states, [CountAttempt] + steps;
    }
  }

  lemma UninterruptedRemoval(c: Config, s: State) returns (states: seq<State>, steps: seq<Step>)
    requires s.sched.Removing?
    ensures IsRun(c, states, steps) && states[0] == s
    ensures forall i | 0 <= i < |steps| :: !Outside(steps[i])
    ensures var last, d, id := states[|steps|], s.sched.device, s.sched.id;
            && last.mem == Scheduler.RemoveItem(s.mem, d, id, Exhausted, s.now)
            && last.sched == (if s.sched.slow then BackingOff(s.now) else Top) && last.frames == s.frames && last.now == s.now
            && last.reported == s.reported + (if IsHead(s.mem, d, id) then [id] else [])
  {
    hide PopHead, Scheduler.RemoveItem, IsHead;
    var removed := Apply(c, s, RemoveExhausted);
    if !removed.sched.Reporting? {
      states, steps := [s, removed], [RemoveExhausted];
    } else {
      states, steps := [s, removed, Apply(c, removed, Report)], [RemoveExhausted, Report];
    }
  }

  /** The protocol's writing and waiting steps, uninterrupted. */
  lemma UninterruptedWrite(c: Config, s: State, written: bool, wait: Wait) returns (states: seq<State>, steps: seq<Step>)
    requires s.sched.Writing?
    requires (wait.SawDone? ==> ItemAt(s.mem, s.sched.id).done) && (wait.SawStop? ==> s.stopped)
    ensures IsRun(c, states, steps) && states[0] == s
    ensures forall i | 0 <= i < |steps| :: !Outside(steps[i]) || steps[i].Tick?
    ensures var last, d, id := states[|steps|], s.sched.device, s.sched.id;
            && last.mem == (if written && !wait.TimedOut? then s.mem else FinishEffect(s.mem, c.maxRetry, d, id, last.now))
            && last.sched == (if written then Top else BackingOff(last.now))
            && last.frames == s.frames + (if written then [Frame(id, s.now)] else [])
  {
    hide FinishEffect;
    if !written {
      var failed := Apply(c, s, WriteFails);
      states, steps := UninterruptedFinish(c, failed);
      OneMore(c, s, WriteFails, states, steps);
      states, steps := [s] + states, [WriteFails] + steps;
    } else {
      var held := Apply(c, s, WriteOk);
      if wait.TimedOut? {
        states, steps := UninterruptedTimeout(c, held);
      } else {
        var seen := if wait.SawDone? then SeeDone else StopWhileHolding;
        states, steps := [held, Apply(c, held, seen)], [seen];
      }
      OneMore(c, s, WriteOk, states, steps);
      states, steps := [s] + states, [WriteOk] + steps;
    }
  }

  lemma UninterruptedTimeout(c: Config, s: State) returns (states: seq<State>, steps: seq<Step>)
    requires s.sched.Holding? && s.sched.since == s.now
    ensures IsRun(c, states, steps) && states[0] == s
    ensures forall i | 0 <= i < |steps| :: !Outside(steps[i]) || steps[i].Tick?
    ensures var last := states[|steps|];
            && last.mem == FinishEffect(s.mem, c.maxRetry, s.sched.device, s.sched.id, last.now)
            && last.sched == Top && last.frames == s.frames
  {
    hide FinishEffect, PopHead, Queue;
    var wakeUp := Tick(if c.responseTimeout > 0 then c.responseTimeout else 0);
    var later := Apply(c, s, wakeUp);
    var failed := Apply(c, later, Timeout);
    states, steps := UninterruptedFinish(c, failed);
    OneMore(c, later, Timeout, states, steps);
    OneMore(c, s, wakeUp, [later] + states, [Timeout] + steps);
    states, steps := [s] + ([later] + states), [wakeUp] + ([Timeout] + steps);
  }

  lemma UninterruptedDrop(c: Config, s: State) returns (states: seq<State>, steps: seq<Step>)
    requires s.sched.Sending? && ItemAt(s.mem, s.sched.id).message.None?
    ensures IsRun(c, states, steps) && states[0] == s
    ensures forall i | 0 <= i < |steps| :: !Outside(steps[i])
    ensures var last := states[|steps|];
            && last.mem == Scheduler.RemoveItem(s.mem, s.sched.device, s.sched.id, Dropped, s.now)
            && last.sched == Top && last.frames == s.frames && last.now == s.now
  {
    hide PopHead, Scheduler.RemoveItem, Queue;
    var dropping := Apply(c, s, PrepareFails);
    states, steps := [s, dropping, Apply(c, dropping, Drop)], [PrepareFails, Drop];
  }

  lemma ReadyToWrite(c: Config, s: State, prepared: Option<(byte, seq<byte>)>) returns (step: Step, ready: State)
    requires s.sched.Sending? && (ItemAt(s.mem, s.sched.id).message.Some? || prepared.Some?)
    ensures Enabled(c, s, step) && ready == Apply(c, s, step) && !Outside(step)
    ensures ready.sched == Writing(s.sched.device, s.sched.id) && ready.frames == s.frames && ready.stopped == s.stopped && ready.now == s.now
    ensures ready.mem == if ItemAt(s.mem, s.sched.id).message.Some? then s.mem else PrepareEffect(s.mem, s.sched.id, prepared.value)
    ensures ItemAt(ready.mem, s.sched.id).done == ItemAt(s.mem, s.sched.id).done
  {
    step := if ItemAt(s.mem, s.sched.id).message.Some? then Reuse else Prepare(prepared.value.0, prepared.value.1);
    ready := Apply(c, s, step);
  }

  /** The protocol's transmit, taken without interruption, does to the shared memory what Transmit
      does to the linked objects, and writes the same frames. */
  lemma UninterruptedTransmit(c: Config, s: State, prepared: Option<(byte, seq<byte>)>, written: bool, wait: Wait)
    returns (states: seq<State>, steps: seq<Step>)
    requires s.sched.Sending?
    requires (wait.SawDone? ==> ItemAt(s.mem, s.sched.id).done) && (wait.SawStop? ==> s.stopped)
    ensures IsRun(c, states, steps) && states[0] == s
    ensures forall i | 0 <= i < |steps| :: !Outside(steps[i]) || steps[i].Tick?
    ensures var last, d, id := states[|steps|], s.sched.device, s.sched.id;
            var attempted := ItemAt(s.mem, id).message.Some? || prepared.Some?;
            && last.mem == TransmitEffect(s.mem, c.maxRetry, d, id, prepared, written, wait, last.now)
            && last.sched == (if attempted && !written then BackingOff(last.now) else Top)
            && last.frames == s.frames + (if attempted && written then [Frame(id, s.now)] else [])
  {
    hide FinishEffect, Scheduler.RemoveItem, Apply, Enabled, PrepareEffect, IsRun;
    var id := s.sched.id;
    if ItemAt(s.mem, id).message.None? && prepared.None? {
      states, steps := UninterruptedDrop(c, s);
    } else {
      var step, ready := ReadyToWrite(c, s, prepared);
      states, steps := UninterruptedWrite(c, ready, written, wait);
      OneMore(c, s, step, states, steps);
      states, steps := [s] + states, [step] + steps;
    }
  }

  lemma Reaches(rr: nat, n: nat, p: nat) returns (k: nat)
    requires rr <= n && p < n
    ensures k < n && (rr + k) % n == p
  {
    if rr <= p {
      k := p - rr;
      DivModUnique(rr + k, n, 0, p);
    } else {
      k := p + n - rr;
      DivModUnique(rr + k, n, 1, p);
    }
  }
}
