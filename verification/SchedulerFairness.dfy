/** Round-robin fairness: while one device's queue waits non-empty, no other device is served twice,
    however many devices are registered meanwhile; and a scan gives up only after it has seen every
    queue empty. */
module SchedulerFairness {
  import opened Words
  import opened WriteItems
  import opened Scheduler
  import opened SchedulerMemory
  import opened SchedulerSafety
  import opened SchedulerOutcome
  import opened SchedulerWakeup
  import opened SchedulerRuns

  /** Going round from index rr, p comes strictly before q. No length is involved: growing the order
      changes nothing. */
  predicate Before(rr: nat, p: nat, q: nat)
  {
    rr <= p < q || p < q < rr || q < rr <= p
  }

  lemma BeforeAfterPick(rr: nat, q: nat, p: nat, r: nat)
    requires Before(rr, q, p) && Before(rr, p, r)
    ensures q != r && Before(q + 1, p, r)
  {}

  lemma BeforeFreshPick(q: nat, p: nat)
    requires p != q
    ensures Before(q + 1, p, q)
  {}

  /** Picked since the wait began, and now behind index p. */
  ghost predicate Behind(s: State, p: nat, device: Device)
  {
    exists q: nat :: q < |s.mem.order| && s.mem.order[q] == device && Before(s.rrIndex, p, q)
  }

  /** The running scan has not passed index p. */
  ghost predicate NotPassed(s: State, p: nat)
  {
    s.sched.Scanning? && s.sched.n > 0 ==> forall k: nat | k < s.sched.i :: ScanIndex(s, k) != p
  }

  /** Since pick number `from`, every device picked is behind index p, and none was picked twice. */
  ghost predicate FairSince(s: State, from: nat, p: nat)
  {
    && from <= |s.picks| && p < |s.mem.order|
    && (forall j | from <= j < |s.picks| :: Behind(s, p, s.picks[j]))
    && (forall j, k | from <= j < k < |s.picks| :: s.picks[j] != s.picks[k])
    && (from < |s.picks| ==> NotPassed(s, p))
  }

  // ------------------------------------------------------------------ what a step does to the turn

  /** No step but a successful Peek moves the index or picks, the order only grows, and a scan only
      starts over or goes on. */
  lemma TurnStep(c: Config, s: State, step: Step)
    requires Base(s) && Enabled(c, s, step) && !step.Peek?
    ensures var n := Apply(c, s, step);
            && n.picks == s.picks && n.rrIndex == s.rrIndex && s.mem.order <= n.mem.order
            && (n.sched.Scanning? ==> n.sched.i == 0 || n.sched == s.sched)
  {
    hide MemInv, HeadOrDone, PopHead, Queue;
    if step.Dequeue? {
      PopKeepsOrder(s.mem, s.receivers[step.thread].device, Acked, s.now);
    } else if step.Drop? || step.RemoveExhausted? {
      PopKeepsOrder(s.mem, s.sched.device, if step.Drop? then Dropped else Exhausted, s.now);
    }
  }

  lemma PopKeepsOrder(m: Mem, d: Device, outcome: Outcome, at: nat)
    ensures PopHead(m, d, outcome, at).order == m.order
  {}

  lemma ScanIndexValue(s: State, k: nat)
    requires s.sched.Scanning? && s.rrIndex <= s.sched.n && k < s.sched.n
    ensures ScanIndex(s, k) == if s.rrIndex + k < s.sched.n then s.rrIndex + k else s.rrIndex + k - s.sched.n
  {
    var n, sum := s.sched.n, s.rrIndex + k;
    if sum < n {
      DivModUnique(sum, n, 0, sum);
    } else {
      DivModUnique(sum, n, 1, sum - n);
    }
  }

  /** A scan that has not passed p peeks at p or at an index before p. */
  lemma PeekBefore(s: State, p: nat)
    requires Base(s) && s.sched.Scanning? && s.sched.i < s.sched.n && p < s.sched.n && NotPassed(s, p)
    ensures PeekIndex(s) == p || Before(s.rrIndex, PeekIndex(s), p)
  {
    hide MemInv, HeadOrDone, ScanIndex;
    var k := ScanCovers(s, p);
    ScanIndexValue(s, k);
    ScanIndexValue(s, s.sched.i);
    assert PeekIndex(s) == ScanIndex(s, s.sched.i) by { PeekIsScanIndex(s); }
  }

  lemma PeekIsScanIndex(s: State)
    requires s.sched.Scanning? && s.sched.n > 0
    ensures PeekIndex(s) == ScanIndex(s, s.sched.i)
  {}

  // ------------------------------------------------------------------ fairness is kept

  lemma FairStep(c: Config, s: State, step: Step, from: nat, p: nat)
    requires Base(s) && FairSince(s, from, p) && Enabled(c, s, step)
    requires Queue(s.mem, s.mem.order[p]) != []
    requires var n := Apply(c, s, step); |n.picks| > |s.picks| ==> n.picks[|s.picks|] != s.mem.order[p]
    ensures FairSince(Apply(c, s, step), from, p)
    ensures s.mem.order <= Apply(c, s, step).mem.order
  {
    hide Base;
    if !step.Peek? {
      FairQuiet(c, s, step, from, p);
    } else {
      OrderWhilePeeking(s);
      if Queue(s.mem, PeekDevice(s)) == [] {
        FairPassing(c, s, from, p);
      } else {
        FairPick(c, s, from, p);
      }
    }
  }

  lemma OrderWhilePeeking(s: State)
    requires Base(s) && s.sched.Scanning? && s.sched.i < s.sched.n
    ensures s.sched.n == |s.mem.order| && s.rrIndex <= s.sched.n && PeekIndex(s) < |s.mem.order|
  {
    PeekedDevice(s);
  }

  lemma FairQuiet(c: Config, s: State, step: Step, from: nat, p: nat)
    requires Base(s) && FairSince(s, from, p) && Enabled(c, s, step) && !step.Peek?
    ensures FairSince(Apply(c, s, step), from, p)
    ensures s.mem.order <= Apply(c, s, step).mem.order
  {
    hide Base, Apply, Enabled, Behind, ScanIndex;
    var n := Apply(c, s, step);
    TurnStep(c, s, step);
    forall j | from <= j < |n.picks|
      ensures Behind(n, p, n.picks[j])
    {
      BehindStays(s, n, p, s.picks[j]);
    }
    if NotPassed(s, p) {
      SameScan(s, n, p);
    }
  }

  lemma SameScan(s: State, n: State, p: nat)
    requires n.rrIndex == s.rrIndex && (n.sched.Scanning? ==> n.sched.i == 0 || n.sched == s.sched) && NotPassed(s, p)
    ensures NotPassed(n, p)
  {
    if n.sched.Scanning? && n.sched.n > 0 {
      forall k: nat | k < n.sched.i
        ensures ScanIndex(n, k) != p
      {
        assert ScanIndex(s, k) != p;
      }
    }
  }

  lemma BehindStays(s: State, n: State, p: nat, device: Device)
    requires Behind(s, p, device) && s.mem.order <= n.mem.order && n.rrIndex == s.rrIndex
    ensures Behind(n, p, device)
  {
    var q: nat :| q < |s.mem.order| && s.mem.order[q] == device && Before(s.rrIndex, p, q);
    assert n.mem.order[q] == device;
  }

  lemma FairPassing(c: Config, s: State, from: nat, p: nat)
    requires Base(s) && FairSince(s, from, p) && Enabled(c, s, Peek)
    requires Queue(s.mem, PeekDevice(s)) == [] && Queue(s.mem, s.mem.order[p]) != [] && PeekIndex(s) < |s.mem.order|
    ensures FairSince(Apply(c, s, Peek), from, p)
    ensures s.mem.order <= Apply(c, s, Peek).mem.order
  {
    hide Base, Queue;
    var n := Apply(c, s, Peek);
    forall j | from <= j < |n.picks|
      ensures Behind(n, p, n.picks[j])
    {
      BehindStays(s, n, p, s.picks[j]);
    }
    if NotPassed(s, p) && n.sched.n > 0 {
      forall k: nat | k < n.sched.i
        ensures ScanIndex(n, k) != p
      {
        if k < s.sched.i {
          assert ScanIndex(s, k) != p;
        }
      }
    }
  }

  lemma FairPick(c: Config, s: State, from: nat, p: nat)
    requires Base(s) && FairSince(s, from, p) && Enabled(c, s, Peek)
    requires Queue(s.mem, PeekDevice(s)) != [] && PeekDevice(s) != s.mem.order[p]
    requires s.sched.n == |s.mem.order| && PeekIndex(s) < |s.mem.order|
    ensures FairSince(Apply(c, s, Peek), from, p)
    ensures s.mem.order <= Apply(c, s, Peek).mem.order
  {
    hide Base, Queue, Before, NotPassed, ScanIndex;
    var n, q := Apply(c, s, Peek), PeekIndex(s);
    assert n.picks == s.picks + [s.mem.order[q]] && n.rrIndex == q + 1 && n.mem == s.mem;
    assert p != q;
    BeforeFreshPick(q, p);
    assert Behind(n, p, s.mem.order[q]);
    forall j | from <= j < |s.picks|
      ensures Behind(n, p, s.picks[j]) && s.picks[j] != s.mem.order[q]
    {
      PeekBefore(s, p);
      EarlierPick(s, n, p, q, s.picks[j]);
    }
    assert NotPassed(n, p) by { NotScanning(n, p); }
  }

  lemma NotScanning(s: State, p: nat)
    requires !s.sched.Scanning?
    ensures NotPassed(s, p)
  {}

  lemma EarlierPick(s: State, n: State, p: nat, q: nat, device: Device)
    requires Base(s) && Behind(s, p, device) && q < |s.mem.order| && Before(s.rrIndex, q, p)
    requires n.mem == s.mem && n.rrIndex == q + 1
    ensures Behind(n, p, device) && device != s.mem.order[q]
  {
    hide Conserved, Owned, DoneMeansFinished, OnlyHeadsTouched, EndsOnce, HeadOrDone, Before;
    var r: nat :| r < |s.mem.order| && s.mem.order[r] == device && Before(s.rrIndex, p, r);
    BeforeAfterPick(s.rrIndex, q, p, r);
  }

  // ------------------------------------------------------------------ over runs

  /** Device d waits throughout a stretch of a run: its queue is never empty and it is not picked. */
  ghost predicate WaitsThroughout(states: seq<State>, d: Device)
    requires states != []
  {
    && (forall i | 0 <= i < |states| :: Queue(states[i].mem, d) != [])
    && (forall i, j | 0 <= i < |states| && |states[0].picks| <= j < |states[i].picks| :: states[i].picks[j] != d)
  }

  lemma {:induction false} FairAlong(c: Config, states: seq<State>, steps: seq<Step>, p: nat, i: nat)
    requires IsRun(c, states, steps) && i <= |steps| && Inv(c, states[0]) && p < |states[0].mem.order|
    requires WaitsThroughout(states, states[0].mem.order[p])
    ensures FairSince(states[i], |states[0].picks|, p) && states[0].mem.order <= states[i].mem.order
  {
    hide Inv, Apply, Enabled, FairSince, Queue;
    var from := |states[0].picks|;
    if i == 0 {
      FairFromNow(states[0], p);
    } else {
      FairAlong(c, states, steps, p, i - 1);
      InvAlong(c, states, steps, i - 1);
      InvGivesBase(c, states[i - 1]);
      FairBounds(states[i - 1], from, p);
      var d := states[0].mem.order[p];
      assert states[i - 1].mem.order[p] == d;
      assert |states[i].picks| > |states[i - 1].picks| ==> states[i].picks[|states[i - 1].picks|] != d;
      FairStep(c, states[i - 1], steps[i - 1], from, p);
    }
  }

  lemma FairFromNow(s: State, p: nat)
    requires p < |s.mem.order|
    ensures FairSince(s, |s.picks|, p)
  {}

  lemma FairBounds(s: State, from: nat, p: nat)
    requires FairSince(s, from, p)
    ensures p < |s.mem.order| && from <= |s.picks|
  {}

  /** Round-robin fairness. While d waits, every other device is picked at most once, though devices
      may be registered all along; so d waits for at most as many picks as there are other devices. */
  lemma RoundRobin(c: Config, states: seq<State>, steps: seq<Step>, d: Device)
    requires IsRun(c, states, steps) && Reachable(c, states[0])
    requires WaitsThroughout(states, d)
    ensures var (first, last) := (states[0], states[|steps|]);
            && |first.picks| <= |last.picks|
            && (forall j, k | |first.picks| <= j < k < |last.picks| :: last.picks[j] != last.picks[k])
            && |last.picks| - |first.picks| < |last.mem.order|
  {
    hide Inv, Apply, Enabled, Queue;
    ReachableInv(c, states[0]);
    var p := WaitingIndex(c, states[0], d);
    FairAlong(c, states, steps, p, |steps|);
    var last, from := states[|steps|], |states[0].picks|;
    PickedOrWaiting(last, from, p, d);
  }

  lemma WaitingIndex(c: Config, s: State, d: Device) returns (p: nat)
    requires Inv(c, s) && Queue(s.mem, d) != []
    ensures p < |s.mem.order| && s.mem.order[p] == d
  {
    hide Prepared, Attempts, HeldLeftByAck, Settled, Reports, WakeInv, RadioHeld;
    p :| 0 <= p < |s.mem.order| && s.mem.order[p] == d;
  }

  lemma PickedOrWaiting(s: State, from: nat, p: nat, d: Device)
    requires FairSince(s, from, p) && s.mem.order[p] == d && d !in s.picks[from..]
    ensures |s.picks| - from < |s.mem.order|
  {
    hide NotPassed;
    var chosen := s.picks[from..] + [d];
    forall j | 0 <= j < |chosen|
      ensures chosen[j] in s.mem.order
    {
      if j < |chosen| - 1 {
        assert Behind(s, p, s.picks[from + j]);
      }
    }
    DistinctAmong(chosen, s.mem.order);
  }

  lemma {:induction false} DistinctAmong(few: seq<Device>, many: seq<Device>)
    requires forall i, j | 0 <= i < j < |few| :: few[i] != few[j]
    requires forall i | 0 <= i < |few| :: few[i] in many
    ensures |few| <= |many|
    decreases |few|
  {
    if few != [] {
      var last := few[|few| - 1];
      var k :| 0 <= k < |many| && many[k] == last;
      var front, rest := few[..|few| - 1], many[..k] + many[k + 1..];
      forall i | 0 <= i < |front|
        ensures front[i] in rest
      {
        var m :| 0 <= m < |many| && many[m] == few[i];
        assert rest[if m < k then m else m - 1] == few[i];
      }
      DistinctAmong(front, rest);
    }
  }

  /** rrIndex is stored unreduced, one past the queue picked, and never leaves 0..len(order). */
  lemma IndexWithinOrder(c: Config, s: State)
    requires Reachable(c, s)
    ensures s.rrIndex <= |s.mem.order|
    ensures s.sched.Scanning? && s.sched.i < s.sched.n ==> PeekIndex(s) < |s.mem.order| && PeekDevice(s) in s.mem.queues
  {
    ReachableInv(c, s);
    InvGivesBase(c, s);
    if s.sched.Scanning? && s.sched.i < s.sched.n {
      PeekedDevice(s);
    }
  }

  // ------------------------------------------------------------------ a scan that finds nothing

  /** Step j of a run peeks at index p and finds that queue empty. */
  ghost predicate SawEmpty(states: seq<State>, steps: seq<Step>, p: nat, j: nat)
  {
    && j < |steps| && j < |states| && steps[j].Peek? && states[j].sched.Scanning? && PeekIndex(states[j]) == p
    && p < |states[j].mem.order| && Queue(states[j].mem, states[j].mem.order[p]) == []
  }

  /** A scan: it begins with the first step and is still running after every later one. */
  ghost predicate IsScan(states: seq<State>, steps: seq<Step>)
  {
    && 0 < |steps| && |states| == |steps| + 1 && steps[0].BeginScan?
    && forall i | 1 <= i < |states| :: states[i].sched.Scanning?
  }

  lemma {:induction false} ScanSaw(c: Config, states: seq<State>, steps: seq<Step>, i: nat, k: nat)
    requires IsRun(c, states, steps) && Inv(c, states[0]) && IsScan(states, steps)
    requires 1 <= i <= |steps| && k < states[i].sched.i && states[i].sched.n > 0
    ensures exists j: nat :: j < i && SawEmpty(states, steps, ScanIndex(states[i], k), j)
    decreases i
  {
    hide Inv, Base, Enabled, Apply, Queue, ScanIndex, IsRun;
    InvAlong(c, states, steps, i - 1);
    InvGivesBase(c, states[i - 1]);
    ScanMoves(c, states, steps, i);
    if i > 1 && k < states[i - 1].sched.i {
      ScanSaw(c, states, steps, i - 1, k);
      var j: nat :| j < i - 1 && SawEmpty(states, steps, ScanIndex(states[i - 1], k), j);
      assert SawEmpty(states, steps, ScanIndex(states[i], k), j);
    } else {
      assert SawEmpty(states, steps, ScanIndex(states[i], k), i - 1);
    }
  }

  /** One step of a scan: it begins, passes an empty queue, or is interrupted by another thread. */
  lemma ScanMoves(c: Config, states: seq<State>, steps: seq<Step>, i: nat)
    requires IsRun(c, states, steps) && IsScan(states, steps) && 1 <= i <= |steps| && Base(states[i - 1])
    ensures i == 1 ==> states[i].sched.i == 0
    ensures i > 1 ==>
              && states[i].sched.n == states[i - 1].sched.n && states[i].rrIndex == states[i - 1].rrIndex
              && (states[i].sched.n > 0 ==> forall k: nat :: ScanIndex(states[i], k) == ScanIndex(states[i - 1], k))
              && (states[i].sched.i == states[i - 1].sched.i
                  || (states[i].sched.i == states[i - 1].sched.i + 1
                      && (states[i].sched.n > 0 ==> SawEmpty(states, steps, ScanIndex(states[i], states[i].sched.i - 1), i - 1))))
  {
    var s, step := states[i - 1], steps[i - 1];
    assert Enabled(c, s, step) && states[i] == Apply(c, s, step);
    if i > 1 {
      if step.Peek? {
        hide Base;
        PeekedDevice(s);
      } else {
        TurnStep(c, s, step);
        NotBeginning(c, s, step);
      }
    }
  }

  lemma NotBeginning(c: Config, s: State, step: Step)
    requires Enabled(c, s, step) && s.sched.Scanning? && !step.Peek? && Apply(c, s, step).sched.Scanning?
    ensures Apply(c, s, step).sched == s.sched
  {
    hide PopHead, AppendItem, AddQueue;
  }

  /** nextPending returns nil only after its scan has found every queue empty, each at its own moment. */
  lemma NilOnlyIfAllEmpty(c: Config, states: seq<State>, steps: seq<Step>, p: nat)
    requires IsRun(c, states, steps) && Reachable(c, states[0]) && IsScan(states, steps)
    requires Enabled(c, states[|steps|], EndScan) && p < |states[|steps|].mem.order|
    ensures exists j: nat :: SawEmpty(states, steps, p, j)
  {
    hide Inv, Base, Apply, ScanIndex, IsRun, SawEmpty;
    ReachableInv(c, states[0]);
    InvAlong(c, states, steps, |steps|);
    InvGivesBase(c, states[|steps|]);
    var last := states[|steps|];
    ScanBounds(last);
    var k := ScanCovers(last, p);
    ScanSaw(c, states, steps, |steps|, k);
  }

  lemma ScanBounds(s: State)
    requires Base(s) && s.sched.Scanning?
    ensures s.sched.n == |s.mem.order| && s.rrIndex <= s.sched.n
  {
    hide MemInv, HeadOrDone;
  }
}
