/** No wake-up is lost, and the radio is held: when the scheduler sleeps on non-empty queues someone
    is about to wake it, and between two frames the earlier write was settled or timed out. */
module SchedulerWakeup {
  import opened Words
  import opened WriteItems
  import opened Scheduler
  import opened SchedulerMemory
  import opened SchedulerSafety
  import opened SchedulerOutcome

  /** The notify token is there, or an enqueuer stands between its append and its wake. */
  ghost predicate WakePending(s: State)
  {
    s.notify || exists t :: t in s.enqueuers && s.enqueuers[t].Appended?
  }

  /** Position k of the running scan, as an index into the order. */
  function ScanIndex(s: State, k: nat): nat
    requires s.sched.Scanning? && s.sched.n > 0
  {
    (s.rrIndex + k) % s.sched.n
  }

  ghost predicate PassedEmpty(s: State, k: nat)
    requires s.sched.Scanning? && s.sched.n > 0
  {
    ScanIndex(s, k) < |s.mem.order| && (Queue(s.mem, s.mem.order[ScanIndex(s, k)]) != [] ==> WakePending(s))
  }

  /** A queue the scan has passed, or any queue once the scheduler sleeps, is empty unless a wake-up
      is pending. */
  ghost predicate WakeInv(s: State)
  {
    && (s.sched.Scanning? && s.sched.n > 0 ==> forall k: nat | k < s.sched.i :: PassedEmpty(s, k))
    && (s.sched.Waiting? ==> forall d | d in s.mem.queues :: s.mem.queues[d] != [] ==> WakePending(s))
  }

  lemma WakeStep(c: Config, s: State, step: Step)
    requires Base(s) && WakeInv(s) && Enabled(c, s, step)
    ensures WakeInv(Apply(c, s, step))
  {
    hide Base, WakeInv, Apply, Enabled;
    match step {
      case EndScan => ScanEnds(c, s);
      case Peek => ScanAdvances(c, s);
      case Append(t) => AppendWakes(c, s, t);
      case Wake(t) => WakeWakes(c, s, t);
      case Register(t, d) => RegisterWakes(c, s, t, d);
      case Dequeue(t) => DequeueWakes(c, s, t);
      case _ => OtherWakes(c, s, step);
    }
  }

  /** The scan visits every index of the order. */
  lemma ScanCovers(s: State, p: nat) returns (k: nat)
    requires s.sched.Scanning? && s.sched.n > 0 && s.rrIndex <= s.sched.n && p < s.sched.n
    ensures k < s.sched.n && ScanIndex(s, k) == p
  {
    var n := s.sched.n;
    if s.rrIndex <= p {
      k := p - s.rrIndex;
      DivModUnique(p, n, 0, p);
    } else {
      k := p + n - s.rrIndex;
      DivModUnique(p + n, n, 1, p);
    }
  }

  lemma ScanEnds(c: Config, s: State)
    requires Base(s) && WakeInv(s) && Enabled(c, s, EndScan)
    ensures WakeInv(Apply(c, s, EndScan))
  {
    hide Conserved, Owned, DoneMeansFinished, OnlyHeadsTouched, EndsOnce, HeadOrDone;
    var n := Apply(c, s, EndScan);
    forall d | d in s.mem.queues && s.mem.queues[d] != []
      ensures WakePending(n)
    {
      assert d in s.mem.order;
      var p :| 0 <= p < |s.mem.order| && s.mem.order[p] == d;
      var k := ScanCovers(s, p);
      assert PassedEmpty(s, k);
    }
  }

  lemma ScanAdvances(c: Config, s: State)
    requires Base(s) && WakeInv(s) && Enabled(c, s, Peek)
    ensures WakeInv(Apply(c, s, Peek))
  {
    hide MemInv, HeadOrDone;
    var n := Apply(c, s, Peek);
    PeekedDevice(s);
    if n.sched.Scanning? {
      forall k: nat | k < n.sched.i
        ensures PassedEmpty(n, k)
      {
        if k < s.sched.i {
          assert PassedEmpty(s, k);
        }
      }
    }
  }

  lemma AppendWakes(c: Config, s: State, t: nat)
    requires Base(s) && WakeInv(s) && Enabled(c, s, Append(t))
    ensures WakeInv(Apply(c, s, Append(t)))
  {
    hide MemInv, HeadOrDone;
    var n := Apply(c, s, Append(t));
    AppendRegisters(s.mem, s.enqueuers[t].device);
    assert t in n.enqueuers && n.enqueuers[t].Appended?;
    if n.sched.Scanning? && n.sched.n > 0 {
      forall k: nat | k < n.sched.i
        ensures PassedEmpty(n, k)
      {
        assert PassedEmpty(s, k);
      }
    }
  }

  lemma WakeWakes(c: Config, s: State, t: nat)
    requires WakeInv(s) && Enabled(c, s, Wake(t))
    ensures WakeInv(Apply(c, s, Wake(t)))
  {
    var n := Apply(c, s, Wake(t));
    if n.sched.Scanning? && n.sched.n > 0 {
      forall k: nat | k < n.sched.i
        ensures PassedEmpty(n, k)
      {
        assert PassedEmpty(s, k);
      }
    }
  }

  lemma RegisterWakes(c: Config, s: State, t: nat, d: Device)
    requires WakeInv(s) && Enabled(c, s, Register(t, d))
    ensures WakeInv(Apply(c, s, Register(t, d)))
  {
    var n := Apply(c, s, Register(t, d));
    if s.sched.Waiting? {
      forall e | e in n.mem.queues && n.mem.queues[e] != []
        ensures WakePending(n)
      {
        assert e in s.mem.queues && s.mem.queues[e] != [];
        PendingKept(s, n, t);
      }
    }
  }

  lemma PendingKept(s: State, n: State, t: nat)
    requires WakePending(s) && t !in s.enqueuers && n.notify == s.notify
    requires forall u | u in s.enqueuers :: u in n.enqueuers && n.enqueuers[u] == s.enqueuers[u]
    ensures WakePending(n)
  {
    if !s.notify {
      var u :| u in s.enqueuers && s.enqueuers[u].Appended?;
      assert u in n.enqueuers && n.enqueuers[u].Appended?;
    }
  }

  lemma DequeueWakes(c: Config, s: State, t: nat)
    requires Base(s) && WakeInv(s) && Enabled(c, s, Dequeue(t))
    ensures WakeInv(Apply(c, s, Dequeue(t)))
  {
    hide MemInv, HeadOrDone, PopHead;
    var n := Apply(c, s, Dequeue(t));
    var d := s.receivers[t].device;
    if Queue(s.mem, d) != [] {
      PopRegisters(s.mem, d, Acked, s.now);
    }
    if n.sched.Scanning? && n.sched.n > 0 {
      forall k: nat | k < n.sched.i
        ensures PassedEmpty(n, k)
      {
        assert PassedEmpty(s, k);
      }
    }
  }

  lemma OtherWakes(c: Config, s: State, step: Step)
    requires WakeInv(s) && Enabled(c, s, step)
    requires !(step.EndScan? || step.Peek? || step.Append? || step.Wake? || step.Register? || step.Dequeue?)
    ensures WakeInv(Apply(c, s, step))
  {
    var n := Apply(c, s, step);
    if n.sched.Scanning? && s.sched.Scanning? && n.sched.n > 0 {
      forall k: nat | k < n.sched.i
        ensures PassedEmpty(n, k)
      {
        assert PassedEmpty(s, k);
      }
    }
  }

  // ------------------------------------------------------------------ radio hold

  /** The frame no longer holds the radio at time t: its item has left its queue, or its response
      timeout has run out. */
  ghost predicate Released(c: Config, ends: seq<End>, frame: Frame, t: nat)
  {
    t - frame.at >= c.responseTimeout || exists k :: 0 <= k < |ends| && ends[k].id == frame.id && ends[k].at <= t
  }

  /** Every frame but the last was released by the time the next one was sent. */
  ghost predicate FramesSettled(c: Config, s: State)
  {
    && (forall k | 0 <= k < |s.frames| :: s.frames[k].at <= s.now)
    && (forall k | 0 <= k < |s.mem.ends| :: s.mem.ends[k].at <= s.now)
    && (forall k | 1 <= k < |s.frames| :: Released(c, s.mem.ends, s.frames[k - 1], s.frames[k].at))
  }

  /** The last frame is the one being held, or is released wherever another may still be written. */
  ghost predicate LastFrameHeld(c: Config, s: State)
  {
    && (s.sched.Holding? ==> s.frames != [] && s.frames[|s.frames| - 1] == Frame(s.sched.id, s.sched.since))
    && (s.frames != [] && !s.sched.Holding? && (s.stopped ==> s.sched.Sending? || s.sched.Writing?) ==>
          Released(c, s.mem.ends, s.frames[|s.frames| - 1], s.now))
  }

  ghost predicate RadioHeld(c: Config, s: State)
  {
    FramesSettled(c, s) && LastFrameHeld(c, s)
  }

  lemma ReleasedLater(c: Config, ends: seq<End>, more: seq<End>, frame: Frame, t: nat, u: nat)
    requires ends <= more && t <= u && Released(c, ends, frame, t)
    ensures Released(c, more, frame, u)
  {
    if t - frame.at < c.responseTimeout {
      var k :| 0 <= k < |ends| && ends[k].id == frame.id && ends[k].at <= t;
      assert more[k] == ends[k];
    }
  }

  lemma FramesStep(c: Config, s: State, step: Step)
    requires Enabled(c, s, step)
    ensures var n := Apply(c, s, step);
            && n.frames == s.frames + (if step.WriteOk? then [Frame(s.sched.id, s.now)] else [])
            && n.now == s.now + (if step.Tick? then step.elapsed else 0)
  {
    hide Queue, PopHead, AddQueue, AppendItem, WithItem, AckHead, RemoveItem, CountWrite, Resume, IsHead, PeekDevice, PeekIndex;
  }

  lemma RadioStep(c: Config, s: State, step: Step)
    requires Base(s) && RadioHeld(c, s) && Enabled(c, s, step)
    ensures RadioHeld(c, Apply(c, s, step))
  {
    hide Base, FramesSettled, LastFrameHeld, Apply, Enabled, Released;
    PastFrames(c, s, step);
    if step.WriteOk? || s.sched.Holding? {
      HeldFrame(c, s, step);
    } else {
      FreeFrame(c, s, step);
    }
  }

  lemma PastFrames(c: Config, s: State, step: Step)
    requires Base(s) && RadioHeld(c, s) && Enabled(c, s, step)
    ensures FramesSettled(c, Apply(c, s, step))
    ensures s.mem.ends <= Apply(c, s, step).mem.ends
  {
    hide Base, Apply, Released;
    var n := Apply(c, s, step);
    EndsStep(c, s, step);
    FramesStep(c, s, step);
    forall k | 1 <= k < |n.frames|
      ensures Released(c, n.mem.ends, n.frames[k - 1], n.frames[k].at)
    {
      if k < |s.frames| {
        ReleasedLater(c, s.mem.ends, n.mem.ends, s.frames[k - 1], s.frames[k].at, s.frames[k].at);
      } else {
        ReleasedLater(c, s.mem.ends, n.mem.ends, s.frames[k - 1], s.now, s.now);
      }
    }
  }

  lemma DoneReleases(c: Config, s: State)
    requires Base(s) && RadioHeld(c, s) && s.sched.Holding? && ItemAt(s.mem, s.sched.id).done
    ensures Released(c, s.mem.ends, s.frames[|s.frames| - 1], s.now)
  {
    hide Registry, Conserved, Owned, DoneMeansFinished, OnlyHeadsTouched;
    var k: nat :| EndedAt(s.mem, s.sched.id, k);
  }

  lemma HeldFrame(c: Config, s: State, step: Step)
    requires Base(s) && RadioHeld(c, s) && Enabled(c, s, step) && (step.WriteOk? || s.sched.Holding?)
    ensures LastFrameHeld(c, Apply(c, s, step))
  {
    hide Base, Queue, PopHead, AddQueue, AppendItem, WithItem;
    FramesStep(c, s, step);
    if step.SeeDone? {
      DoneReleases(c, s);
    }
  }

  lemma FreeFrame(c: Config, s: State, step: Step)
    requires Base(s) && RadioHeld(c, s) && Enabled(c, s, step) && !step.WriteOk? && !s.sched.Holding?
    ensures LastFrameHeld(c, Apply(c, s, step))
  {
    hide Base, Released, FramesSettled;
    var n := Apply(c, s, step);
    PastFrames(c, s, step);
    FramesStep(c, s, step);
    if s.frames != [] && Released(c, s.mem.ends, s.frames[|s.frames| - 1], s.now) {
      ReleasedLater(c, s.mem.ends, n.mem.ends, s.frames[|s.frames| - 1], s.now, n.now);
    }
    FreeStates(c, s, step);
  }

  /** A scheduler that is not holding a frame does not start to by any step but a write, and after
      Stop reaches no further attempt. */
  lemma FreeStates(c: Config, s: State, step: Step)
    requires Enabled(c, s, step) && !step.WriteOk? && !s.sched.Holding?
    ensures var n := Apply(c, s, step);
            && !n.sched.Holding?
            && (s.stopped ==> n.stopped)
            && (n.stopped && (n.sched.Sending? || n.sched.Writing?) && s.stopped ==> s.sched.Sending? || s.sched.Writing?)
  {
    hide Queue, PopHead, AddQueue, AppendItem, WithItem;
  }

  // ------------------------------------------------------------------ after Stop

  /** Whether a frame may still be written without passing the stop check again. */
  function Committed(sched: Sched): nat
  {
    if sched.Sending? || sched.Writing? then 1 else 0
  }

  lemma StoppedStep(c: Config, s: State, step: Step)
    requires s.stopped && Enabled(c, s, step)
    ensures var n := Apply(c, s, step);
            n.stopped && |n.frames| + Committed(n.sched) <= |s.frames| + Committed(s.sched)
  {
    FramesStep(c, s, step);
    hide Queue, PopHead, AddQueue, AppendItem, WithItem;
  }
}
