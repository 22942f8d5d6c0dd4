/** When the scheduler pauses, when an attempt counts as failed, and what Stop does: properties of
    every run, stated on the steps and the clock. */
module SchedulerPauses {
  import opened WriteItems
  import opened Scheduler
  import opened SchedulerMemory
  import opened SchedulerSafety
  import opened SchedulerOutcome
  import opened SchedulerWakeup
  import opened SchedulerRuns
  import opened SchedulerFairness
  import opened SchedulerDrain

  // ------------------------------------------------------------------ the pause after a serial error

  /** A failed write at time t0 still keeps the scheduler from its next scan, or its pause is over. */
  ghost predicate Pausing(c: Config, s: State, t0: nat)
  {
    && t0 <= s.now
    && (s.now - t0 >= c.backoff
        || ((s.sched.Failing? || s.sched.Removing? || s.sched.Reporting?) && s.sched.slow)
        || (s.sched.BackingOff? && s.sched.since >= t0))
  }

  lemma PauseStep(c: Config, s: State, step: Step, t0: nat)
    requires Enabled(c, s, step) && Pausing(c, s, t0)
    ensures Pausing(c, Apply(c, s, step), t0)
    ensures step.BeginScan? || step.Peek? || step.WriteOk? || step.WriteFails? ==> s.now - t0 >= c.backoff
  {
    hide Queue, PopHead, AddQueue, AppendItem, AckHead, RemoveItem, WithItem, ItemAt, IsHead, CountWrite, PeekDevice, PeekIndex;
  }

  lemma {:induction false} PauseAlong(c: Config, states: seq<State>, steps: seq<Step>, i: nat, j: nat)
    requires IsRun(c, states, steps) && i < j <= |steps| && steps[i].WriteFails?
    ensures Pausing(c, states[j], states[i].now)
    decreases j
  {
    hide Pausing;
    if j == i + 1 {
      PauseBegins(c, states[i]);
    } else {
      hide Apply, Enabled;
      PauseAlong(c, states, steps, i, j - 1);
      PauseStep(c, states[j - 1], steps[j - 1], states[i].now);
    }
  }

  lemma PauseBegins(c: Config, s: State)
    requires Enabled(c, s, WriteFails)
    ensures Pausing(c, Apply(c, s, WriteFails), s.now)
  {}

  /** After the serial port has rejected a frame, the scheduler neither scans, peeks nor writes until the
      whole back-off has passed. */
  lemma BackoffPause(c: Config, states: seq<State>, steps: seq<Step>, i: nat, j: nat)
    requires IsRun(c, states, steps) && i < j < |steps| && steps[i].WriteFails?
    requires steps[j].BeginScan? || steps[j].Peek? || steps[j].WriteOk? || steps[j].WriteFails?
    ensures states[j].now - states[i].now >= c.backoff
  {
    hide Apply, Enabled, Pausing;
    PauseAlong(c, states, steps, i, j);
    PauseStep(c, states[j], steps[j], states[i].now);
  }

  /** A timed-out attempt is being settled: no sleep on the way back to the loop. */
  predicate Settling(sched: Sched)
  {
    ((sched.Failing? || sched.Removing? || sched.Reporting?) && !sched.slow) || sched.Top?
  }

  lemma SettlingStep(c: Config, s: State, step: Step)
    requires Enabled(c, s, step) && (step.Timeout? || (Settling(s.sched) && !step.BeginScan?))
    ensures Settling(Apply(c, s, step).sched)
  {
    hide Queue, PopHead, AddQueue, AppendItem, AckHead, RemoveItem, WithItem, ItemAt, IsHead, CountWrite;
  }

  /** After a response timeout the scheduler does not pause: until its next scan it only settles the
      attempt. */
  lemma {:induction false} NoPauseAfterTimeout(c: Config, states: seq<State>, steps: seq<Step>, i: nat, j: nat)
    requires IsRun(c, states, steps) && i < j <= |steps| && steps[i].Timeout?
    requires forall k | i < k < j :: !steps[k].BeginScan?
    ensures Settling(states[j].sched) && !states[j].sched.BackingOff?
    decreases j
  {
    hide Apply, Enabled;
    if j > i + 1 {
      NoPauseAfterTimeout(c, states, steps, i, j - 1);
    }
    SettlingStep(c, states[j - 1], steps[j - 1]);
  }

  // ------------------------------------------------------------------ what counts as a failed attempt

  /** In this step the attempt on item id failed: its write was rejected, or its whole response timeout
      ran out. */
  ghost predicate Fails(c: Config, s: State, step: Step, id: nat)
  {
    || (step.WriteFails? && s.sched.Writing? && s.sched.id == id)
    || (step.Timeout? && s.sched.Holding? && s.sched.id == id && s.now - s.sched.since >= c.responseTimeout)
  }

  lemma FailingStep(c: Config, s: State, step: Step)
    requires Enabled(c, s, step) && Apply(c, s, step).sched.Failing?
    ensures (Outside(step) && Apply(c, s, step).sched == s.sched) || Fails(c, s, step, Apply(c, s, step).sched.id)
  {
    hide Queue, PopHead, AddQueue, AppendItem, AckHead, RemoveItem, WithItem, ItemAt, IsHead, CountWrite, PeekDevice, PeekIndex;
  }

  /** An attempt is counted only after it failed, once per failure: between a CountAttempt and the failure
      before it the scheduler has done nothing else. An acknowledgement or Stop counts nothing. */
  lemma {:induction false} CountedAfterFailure(c: Config, states: seq<State>, steps: seq<Step>, j: nat)
    requires IsRun(c, states, steps) && states[0] == INIT && j <= |steps| && states[j].sched.Failing?
    ensures exists i: nat :: i < j && Fails(c, states[i], steps[i], states[j].sched.id) && forall k | i < k < j :: Outside(steps[k])
  {
    hide Apply, Enabled, Fails;
    if j > 0 {
      FailingStep(c, states[j - 1], steps[j - 1]);
      if Outside(steps[j - 1]) && states[j].sched == states[j - 1].sched {
        CountedAfterFailure(c, states, steps, j - 1);
        var i: nat :| i < j - 1 && Fails(c, states[i], steps[i], states[j - 1].sched.id) && forall k | i < k < j - 1 :: Outside(steps[k]);
        assert Fails(c, states[i], steps[i], states[j].sched.id);
      } else {
        assert Fails(c, states[j - 1], steps[j - 1], states[j].sched.id);
      }
    }
  }

  // ------------------------------------------------------------------ Stop

  lemma StopStops(c: Config, s: State)
    ensures Enabled(c, s, Stop) && Apply(c, s, Stop) == s.(stopped := true)
  {}

  /** Once Stop has been called -- at any moment, by step k -- at most one more frame is written. */
  lemma FramesAfterStop(c: Config, states: seq<State>, steps: seq<Step>, k: nat, i: nat)
    requires IsRun(c, states, steps) && k < i <= |steps| && steps[k].Stop?
    ensures states[i].stopped && |states[i].frames| <= |states[k].frames| + 1
  {
    hide Apply, Enabled;
    StopStops(c, states[k]);
    var after, more := states[k + 1..], steps[k + 1..];
    assert IsRun(c, after, more) by {
      forall l | 0 <= l < |more|
        ensures Enabled(c, after[l], more[l]) && after[l + 1] == Apply(c, after[l], more[l])
      {
        assert Enabled(c, states[k + 1 + l], steps[k + 1 + l]);
      }
    }
    OneFrameAfterStop(c, after, more, i - (k + 1));
  }

  /** Scheduler steps from here to its exit or to a wait with no token, once stopped. */
  function ExitDistance(sched: Sched, order: nat): nat
  {
    match sched
    case Exited => 0
    case Picked(_, _) => 1
    case Waiting => 2
    case Scanning(n, i) => if i <= n then 3 + n - i else 0
    case Top => order + 4
    case BackingOff(_) => order + 5
    case Reporting(_, _, _) => order + 6
    case Removing(_, _, _) => order + 7
    case Failing(_, _, _) => order + 8
    case Holding(_, _, _) => order + 9
    case Writing(_, _) => order + 10
    case Dropping(_, _) => order + 10
    case Sending(_, _) => order + 11
  }

  ghost function ExitPotential(s: State, order: nat): nat
  {
    (order + 3) * Wakeups(s) + ExitDistance(s.sched, order)
  }

  lemma StaysStopped(c: Config, s: State, step: Step)
    requires Enabled(c, s, step) && s.stopped
    ensures Apply(c, s, step).stopped
  {
    hide PopHead, AppendItem, AddQueue, Queue, WithItem, AckHead, RemoveItem, ItemAt, CountWrite, IsHead, PeekDevice, PeekIndex;
  }

  lemma ExitDistanceStep(c: Config, s: State, step: Step, order: nat)
    requires Base(s) && Enabled(c, s, step) && s.stopped && |s.mem.order| <= order
    ensures var n := Apply(c, s, step);
            if Outside(step) then n.sched == s.sched
            else if step.TakeNotify? then ExitDistance(n.sched, order) + 1 == ExitDistance(s.sched, order) + (order + 3)
            else ExitDistance(n.sched, order) < ExitDistance(s.sched, order)
  {
    hide Apply, Enabled, MemInv, HeadOrDone, ExitDistance;
    if Outside(step) {
      OutsideKeepsSched(c, s, step);
    } else {
      OwnExitStep(c, s, step, order);
    }
  }

  lemma OwnExitStep(c: Config, s: State, step: Step, order: nat)
    requires Enabled(c, s, step) && !Outside(step) && s.stopped && |s.mem.order| <= order
    requires s.sched.Scanning? ==> s.sched.i <= s.sched.n
    ensures var n := Apply(c, s, step);
            if step.TakeNotify? then ExitDistance(n.sched, order) + 1 == ExitDistance(s.sched, order) + (order + 3)
            else ExitDistance(n.sched, order) < ExitDistance(s.sched, order)
  {
    hide PopHead, Queue, AddQueue, AppendItem, AckHead, RemoveItem, WithItem, ItemAt, CountWrite, IsHead, PeekDevice, PeekIndex;
  }

  lemma ExitStepBound(c: Config, s: State, step: Step, order: nat)
    requires Base(s) && Enabled(c, s, step) && s.stopped && |s.mem.order| <= order
    ensures Apply(c, s, step).stopped
    ensures ExitPotential(Apply(c, s, step), order) + (if Outside(step) then 0 else 1)
            <= ExitPotential(s, order) + (if step.Append? then order + 3 else 0)
  {
    hide Base, Apply, Enabled, Wakeups, ExitDistance;
    var n := Apply(c, s, step);
    StaysStopped(c, s, step);
    ExitDistanceStep(c, s, step, order);
    WakeupsStep(c, s, step);
    Scaled(order + 3, Wakeups(n), Wakeups(s) + (if step.Append? then 1 else 0));
    Product2(order + 3, Wakeups(s), if step.Append? then 1 else 0);
  }

  /** The stopped scheduler has a step of its own as soon as its timer has run out, until it has exited. */
  lemma RestIsExit(c: Config, s: State)
    requires s.stopped
    ensures AtRest(c, s) <==> s.sched.Exited?
  {
    var own := if s.sched.Waiting? then StopWhileWaiting else OwnStep(s);
    if !s.sched.Exited? {
      assert Enabled(c, TimedOut(c, s), own) && !Outside(own);
    }
  }

  /** Stop ends the scheduler: over every run from a stopped state its steps are bounded, whoever goes on
      enqueueing; and it comes to rest exactly by having exited. */
  lemma {:induction false} StopEnds(c: Config, states: seq<State>, steps: seq<Step>, order: nat)
    requires IsRun(c, states, steps) && Inv(c, states[0]) && states[0].stopped && |states[|steps|].mem.order| <= order
    ensures var last := states[|steps|];
            && last.stopped && (AtRest(c, last) <==> last.sched.Exited?)
            && SchedulerSteps(steps) + ExitPotential(last, order) <= ExitPotential(states[0], order) + Appends(steps) * (order + 3)
    decreases |steps|
  {
    hide Inv, Apply, Enabled, ExitPotential, Base, AtRest;
    if steps != [] {
      var last := |steps| - 1;
      InvAlong(c, states, steps, last);
      InvGivesBase(c, states[last]);
      OrderStep(c, states[last], steps[last]);
      StopEnds(c, states[..|steps|], steps[..last], order);
      ExitStepBound(c, states[last], steps[last], order);
      Product2(order + 3, Appends(steps[..last]), if steps[last].Append? then 1 else 0);
    }
    RestIsExit(c, states[|steps|]);
  }
}
