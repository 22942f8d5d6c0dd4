/** Draining: without new writes the scheduler picks at most as often as attempts are left, does a
    bounded amount of work, and goes idle with every queue empty. */
module SchedulerDrain {
  import opened WriteItems
  import opened Scheduler
  import opened SchedulerMemory
  import opened SchedulerSafety
  import opened SchedulerOutcome
  import opened SchedulerWakeup
  import opened SchedulerRuns
  import opened SchedulerFairness

  // ------------------------------------------------------------------ attempts left

  /** Attempts an item has left: none once it is done. */
  function Left(c: Config, item: Item): nat
  {
    if item.done || item.retryCount >= Limit(c.maxRetry) then 0 else Limit(c.maxRetry) - item.retryCount
  }

  /** The sum of (limit - RetryCount) over the queued items. */
  function Budget(c: Config, items: seq<Item>): nat
  {
    if items == [] then 0 else Budget(c, items[..|items| - 1]) + Left(c, items[|items| - 1])
  }

  lemma {:induction false} BudgetFalls(c: Config, a: seq<Item>, b: seq<Item>, id: nat, k: nat)
    requires |a| == |b| && forall i | 0 <= i < |a| :: Left(c, b[i]) <= Left(c, a[i])
    requires k == 0 || (id < |a| && Left(c, b[id]) + k <= Left(c, a[id]))
    ensures Budget(c, b) + k <= Budget(c, a)
  {
    hide Left;
    if a != [] {
      var last := |a| - 1;
      if k > 0 && id == last {
        BudgetFalls(c, a[..last], b[..last], id, 0);
      } else {
        BudgetFalls(c, a[..last], b[..last], id, k);
      }
    }
  }

  // ------------------------------------------------------------------ rounds

  /** A pick-and-transmit round is under way and its attempt is not counted yet. */
  predicate InRound(sched: Sched)
  {
    sched.Picked? || sched.Sending? || sched.Dropping? || sched.Writing? || sched.Holding? || sched.Failing?
  }

  /** The attempt the running round still has to pay for. */
  function Unpaid(s: State): nat
  {
    if InRound(s.sched) && !ItemAt(s.mem, s.sched.id).done then 1 else 0
  }

  /** Attempts left that no round has been started for. */
  function Backlog(c: Config, s: State): int
  {
    Budget(c, s.mem.items) - Unpaid(s)
  }

  lemma LeftFalls(c: Config, s: State, step: Step, id: nat)
    requires Base(s) && Enabled(c, s, step) && id < |s.mem.items|
    ensures var n := Apply(c, s, step);
            id < |n.mem.items| && Left(c, n.mem.items[id]) <= Left(c, s.mem.items[id])
  {
    hide Base, Apply, Enabled, Limit;
    ItemStep(c, s, step, id);
  }

  lemma BudgetStep(c: Config, s: State, step: Step, id: nat, k: nat)
    requires Base(s) && Enabled(c, s, step) && !step.Append?
    requires k == 0 || (id < |s.mem.items| && id < |Apply(c, s, step).mem.items|
                        && Left(c, Apply(c, s, step).mem.items[id]) + k <= Left(c, s.mem.items[id]))
    ensures Budget(c, Apply(c, s, step).mem.items) + k <= Budget(c, s.mem.items)
  {
    hide Base, Apply, Enabled, Left, Budget;
    var n := Apply(c, s, step);
    ItemsKept(c, s, step);
    forall i | 0 <= i < |s.mem.items|
      ensures Left(c, n.mem.items[i]) <= Left(c, s.mem.items[i])
    {
      LeftFalls(c, s, step, i);
    }
    BudgetFalls(c, s.mem.items, n.mem.items, id, k);
  }

  lemma ItemsKept(c: Config, s: State, step: Step)
    requires Base(s) && Enabled(c, s, step) && !step.Append?
    ensures |Apply(c, s, step).mem.items| == |s.mem.items|
  {
    hide Base, Apply, Enabled;
    if s.mem.items == [] {
      NoItemsToPop(c, s, step);
    } else {
      ItemStep(c, s, step, 0);
    }
  }

  /** How a step leaves a round: its item is done by then, or its attempt has been counted. */
  lemma RoundStep(c: Config, s: State, step: Step)
    requires Base(s) && Enabled(c, s, step) && InRound(s.sched) && !s.stopped && !step.CountAttempt?
    ensures var n := Apply(c, s, step);
            || (InRound(n.sched) && n.sched.id == s.sched.id)
            || ItemAt(n.mem, s.sched.id).done
  {
    hide MemInv, PopHead, AppendItem, AddQueue, RemoveItem;
    if step.Drop? {
      HeldDoneAfterRemove(s.mem, s.sched.device, s.sched.id, Dropped, s.now);
    }
  }

  /** Left of the held item falls when its round ends. */
  lemma RoundPaid(c: Config, s: State, step: Step)
    requires Base(s) && Attempts(c, s) && Enabled(c, s, step) && InRound(s.sched) && !s.stopped
    requires !ItemAt(s.mem, s.sched.id).done && Unpaid(Apply(c, s, step)) == 0
    ensures var id, n := s.sched.id, Apply(c, s, step);
            id < |s.mem.items| && id < |n.mem.items| && Left(c, n.mem.items[id]) + 1 <= Left(c, s.mem.items[id])
  {
    hide Base, Apply, Enabled, Limit, Attempts;
    HeldInRange(s);
    var id := s.sched.id;
    ItemStep(c, s, step, id);
    HeldHasLeft(c, s);
    if !step.CountAttempt? {
      RoundStep(c, s, step);
    }
  }

  lemma HeldHasLeft(c: Config, s: State)
    requires Attempts(c, s) && Base(s) && InRound(s.sched) && !ItemAt(s.mem, s.sched.id).done
    ensures Left(c, ItemAt(s.mem, s.sched.id)) >= 1 && Budget(c, s.mem.items) >= 1
  {
    hide MemInv, Limit, Budget;
    var id := s.sched.id;
    assert AttemptsOf(c, s, id);
    BudgetFalls(c, s.mem.items, s.mem.items[id := s.mem.items[id].(done := true)], id, 1);
  }

  lemma BacklogIsNat(c: Config, s: State)
    requires Attempts(c, s) && Base(s)
    ensures Backlog(c, s) >= 0
  {
    hide Attempts, Base, Budget;
    if Unpaid(s) == 1 {
      HeldHasLeft(c, s);
    }
  }

  /** Every pick takes one attempt out of the backlog, and no step puts one back. */
  lemma BacklogStep(c: Config, s: State, step: Step)
    requires Base(s) && Attempts(c, s) && Enabled(c, s, step) && !s.stopped && !step.Append?
    ensures var n := Apply(c, s, step); |n.picks| + Backlog(c, n) <= |s.picks| + Backlog(c, s) && |n.picks| >= |s.picks|
  {
    hide Base, Attempts, Apply, Enabled, Budget;
    var n := Apply(c, s, step);
    PicksStep(c, s, step);
    if Unpaid(s) == 1 && Unpaid(n) == 0 {
      RoundPaid(c, s, step);
      BudgetStep(c, s, step, s.sched.id, 1);
    } else {
      BudgetStep(c, s, step, 0, 0);
    }
  }

  /** A pick starts a round on an item that is not done. */
  lemma PicksStep(c: Config, s: State, step: Step)
    requires Base(s) && Enabled(c, s, step)
    ensures var n := Apply(c, s, step);
            || n.picks == s.picks
            || (|n.picks| == |s.picks| + 1 && step.Peek? && Unpaid(n) == 1 && Unpaid(s) == 0)
  {
    hide Base, Queue, Apply, Enabled;
    if step.Peek? {
      PickStarts(c, s);
    } else {
      TurnStep(c, s, step);
    }
  }

  lemma PickStarts(c: Config, s: State)
    requires Base(s) && Enabled(c, s, Peek)
    ensures var n := Apply(c, s, Peek);
            if Queue(s.mem, PeekDevice(s)) == [] then n.picks == s.picks && n.sched == Scanning(s.sched.n, s.sched.i + 1)
            else |n.picks| == |s.picks| + 1 && n.sched.Picked? && Unpaid(n) == 1
    ensures Unpaid(s) == 0
  {
    hide Base;
    if Queue(s.mem, PeekDevice(s)) != [] {
      FreshlyPicked(s);
    }
  }

  ghost predicate NoNewWrites(steps: seq<Step>)
  {
    forall i | 0 <= i < |steps| :: !steps[i].Append? && !steps[i].Stop?
  }

  lemma StaysRunning(c: Config, s: State, step: Step)
    requires Enabled(c, s, step) && !s.stopped && !step.Stop?
    ensures !Apply(c, s, step).stopped
  {
    hide PopHead, AppendItem, AddQueue, Queue, WithItem;
  }

  lemma InvGivesAttempts(c: Config, s: State)
    requires Inv(c, s)
    ensures Base(s) && Attempts(c, s)
  {
    hide Base, Prepared, Attempts, HeldLeftByAck, Settled, Reports, WakeInv, RadioHeld;
  }

  /** While no write is added and Stop is not called, the attempts left pay for the picks, one each:
      between two picks the sum over the queued items falls by at least one. */
  lemma {:induction false} PicksPaid(c: Config, states: seq<State>, steps: seq<Step>, i: nat)
    requires IsRun(c, states, steps) && Inv(c, states[0]) && !states[0].stopped && NoNewWrites(steps) && i <= |steps|
    ensures !states[i].stopped && |states[i].picks| >= |states[0].picks|
    ensures |states[i].picks| - |states[0].picks| <= Backlog(c, states[0]) - Backlog(c, states[i])
    ensures |states[i].picks| - |states[0].picks| <= Budget(c, states[0].mem.items)
  {
    hide Inv, Apply, Enabled, Budget, Base, Attempts, Backlog;
    InvAlong(c, states, steps, i);
    InvGivesAttempts(c, states[i]);
    BacklogIsNat(c, states[i]);
    if i > 0 {
      PicksPaid(c, states, steps, i - 1);
      InvAlong(c, states, steps, i - 1);
      InvGivesAttempts(c, states[i - 1]);
      BacklogStep(c, states[i - 1], steps[i - 1]);
      StaysRunning(c, states[i - 1], steps[i - 1]);
    }
    BacklogAtMost(c, states[0]);
  }

  /** The sum over the queued items falls in every pick-and-transmit round: by the time a later pick
      has been made it is smaller than at the earlier one. */
  lemma RoundFalls(c: Config, states: seq<State>, steps: seq<Step>, i: nat)
    requires IsRun(c, states, steps) && Inv(c, states[0]) && !states[0].stopped && NoNewWrites(steps) && i <= |steps|
    requires states[0].sched.Picked? && !ItemAt(states[0].mem, states[0].sched.id).done && |states[i].picks| > |states[0].picks|
    ensures Budget(c, states[i].mem.items) < Budget(c, states[0].mem.items)
  {
    hide Inv, Apply, Enabled, Budget, IsRun;
    PicksPaid(c, states, steps, i);
  }

  lemma BacklogAtMost(c: Config, s: State)
    ensures Backlog(c, s) <= Budget(c, s.mem.items)
  {}

  // ------------------------------------------------------------------ work

  /** The enqueuers that have appended and not yet woken the scheduler. */
  ghost function Wakers(s: State): set<nat>
  {
    set t | t in s.enqueuers && s.enqueuers[t].Appended?
  }

  ghost function Wakeups(s: State): nat
  {
    |Wakers(s)| + (if s.notify then 1 else 0)
  }

  /** Scheduler steps from here to the end of the next empty scan. */
  function Distance(sched: Sched, order: nat): nat
  {
    match sched
    case Waiting => 0
    case Exited => 0
    case Scanning(n, i) => if i <= n then 1 + n - i else 0
    case Top => order + 2
    case BackingOff(_) => order + 3
    case Reporting(_, _, _) => order + 4
    case Removing(_, _, _) => order + 5
    case Failing(_, _, _) => order + 6
    case Holding(_, _, _) => order + 7
    case Writing(_, _) => order + 8
    case Dropping(_, _) => order + 8
    case Sending(_, _) => order + 9
    case Picked(_, _) => order + 10
  }

  /** Scheduler steps one pick or one wake-up can cost, with so many devices registered. */
  function RoundCost(order: nat): nat
  {
    order + 10
  }

  /** A bound on the scheduler steps still to come when no more writes are added. */
  ghost function Potential(c: Config, s: State, order: nat): int
  {
    RoundCost(order) * (Backlog(c, s) + Wakeups(s)) + Distance(s.sched, order)
  }

  /** Scheduler steps one more write can cost: its attempts and its wake-up. */
  function WriteCost(c: Config, order: nat): nat
  {
    RoundCost(order) * (Limit(c.maxRetry) + 1)
  }

  /** What a step does to the token and the enqueuers. */
  lemma NotifyStep(c: Config, s: State, step: Step)
    requires Enabled(c, s, step)
    ensures var n := Apply(c, s, step);
            match step
            case Register(t, d) => t !in s.enqueuers && n.enqueuers == s.enqueuers[t := Registered(d)] && n.notify == s.notify
            case Append(t) => t in s.enqueuers && n.enqueuers == s.enqueuers[t := Appended] && n.notify == s.notify
            case Wake(t) => t in s.enqueuers && s.enqueuers[t].Appended? && n.enqueuers == s.enqueuers - {t}
            case _ => n.enqueuers == s.enqueuers && n.notify == (s.notify && !step.TakeNotify?) && (step.TakeNotify? ==> s.notify)
  {
    hide PopHead, Queue, WithItem, AppendItem, AddQueue;
  }

  lemma WakeupsStep(c: Config, s: State, step: Step)
    requires Enabled(c, s, step)
    ensures var n := Apply(c, s, step);
            && Wakeups(n) <= Wakeups(s) + (if step.Append? then 1 else 0)
            && (step.TakeNotify? ==> Wakeups(n) == Wakeups(s) - 1)
  {
    hide Apply, Enabled;
    var n := Apply(c, s, step);
    NotifyStep(c, s, step);
    if step.Wake? {
      assert Wakers(n) == Wakers(s) - {step.thread};
      assert step.thread in Wakers(s);
    } else if step.Append? {
      assert Wakers(n) == Wakers(s) + {step.thread};
    } else {
      assert Wakers(n) == Wakers(s);
    }
  }

  lemma OrderStep(c: Config, s: State, step: Step)
    requires Base(s) && Enabled(c, s, step)
    ensures |s.mem.order| <= |Apply(c, s, step).mem.order|
  {
    hide Base;
    if step.Peek? {
      hide Queue;
    } else {
      hide Apply;
      TurnStep(c, s, step);
    }
  }

  /** A scheduler step goes nearer to the end of an empty scan, or uses up a pick or a wake-up;
      the other threads leave the scheduler where it is. */
  lemma DistanceStep(c: Config, s: State, step: Step, order: nat)
    requires Base(s) && Enabled(c, s, step) && !s.stopped && !step.Peek? && !step.TakeNotify? && |s.mem.order| <= order
    ensures var n := Apply(c, s, step);
            if Outside(step) then n.sched == s.sched
            else Distance(n.sched, order) < Distance(s.sched, order)
  {
    hide MemInv, HeadOrDone, PopHead, Queue, AddQueue, AppendItem;
  }

  lemma DistanceOr(c: Config, s: State, step: Step, order: nat)
    requires Base(s) && Enabled(c, s, step) && !s.stopped && |s.mem.order| <= order
    ensures var n := Apply(c, s, step);
            || (Distance(n.sched, order) + (if Outside(step) then 0 else 1) <= Distance(s.sched, order))
            || (|n.picks| == |s.picks| + 1 && Distance(n.sched, order) + 1 <= RoundCost(order) + Distance(s.sched, order))
            || (step.TakeNotify? && Distance(n.sched, order) + 1 <= RoundCost(order) + Distance(s.sched, order))
  {
    hide Base, Queue;
    if step.Peek? {
      hide Apply;
      PickStarts(c, s);
      ScanBounds(s);
    } else if !step.TakeNotify? {
      hide Apply, Distance;
      DistanceStep(c, s, step, order);
    }
  }

  lemma BudgetOfAppend(c: Config, items: seq<Item>, d: Device)
    ensures Budget(c, items + [NewItem(d)]) == Budget(c, items) + Limit(c.maxRetry)
  {
    hide Limit;
    assert (items + [NewItem(d)])[..|items|] == items;
  }

  /** A new write adds its attempts to the backlog, and nothing else. */
  lemma BacklogAppend(c: Config, s: State, t: nat)
    requires Base(s) && Enabled(c, s, Append(t))
    ensures var n := Apply(c, s, Append(t)); n.picks == s.picks && Backlog(c, n) == Backlog(c, s) + Limit(c.maxRetry)
  {
    hide MemInv, AppendItem, Budget;
    var d := s.enqueuers[t].device;
    AppendRegisters(s.mem, d);
    BudgetOfAppend(c, s.mem.items, d);
    if InRound(s.sched) {
      HeldInRange(s);
    }
  }

  lemma PotentialStep(c: Config, s: State, step: Step, order: nat)
    requires Base(s) && Attempts(c, s) && Enabled(c, s, step) && !s.stopped && |s.mem.order| <= order
    ensures Potential(c, Apply(c, s, step), order) + (if Outside(step) then 0 else 1)
            <= Potential(c, s, order) + (if step.Append? then WriteCost(c, order) else 0)
  {
    hide Base, Attempts, Apply, Enabled, Backlog, Wakeups, Distance, RoundCost, Limit;
    var n := Apply(c, s, step);
    WakeupsStep(c, s, step);
    DistanceOr(c, s, step, order);
    var before, after := Backlog(c, s) + Wakeups(s), Backlog(c, n) + Wakeups(n);
    if step.Append? {
      BacklogAppend(c, s, step.thread);
      Scaled(RoundCost(order), after, before + Limit(c.maxRetry) + 1);
      Product2(RoundCost(order), before, Limit(c.maxRetry) + 1);
    } else {
      BacklogStep(c, s, step);
      Scaled(RoundCost(order), after, before);
    }
  }

  lemma Product2(cost: nat, a: int, b: int)
    ensures cost * (a + b) == cost * a + cost * b
  {}

  lemma Scaled(cost: nat, after: int, before: int)
    requires after <= before
    ensures cost * after <= cost * before
    ensures after < before ==> cost * after + cost <= cost * before
  {
    var fall: nat := before - after;
    Product(cost, fall);
    assert cost * before == cost * after + cost * fall;
  }

  lemma {:induction false} Product(a: nat, b: nat)
    ensures a * b >= (if b > 0 then a else 0)
  {
    if b > 0 {
      Product(a, b - 1);
      assert a * b == a * (b - 1) + a;
    }
  }

  function SchedulerSteps(steps: seq<Step>): nat
  {
    if steps == [] then 0
    else SchedulerSteps(steps[..|steps| - 1]) + (if Outside(steps[|steps| - 1]) then 0 else 1)
  }

  function Appends(steps: seq<Step>): nat
  {
    if steps == [] then 0
    else Appends(steps[..|steps| - 1]) + (if steps[|steps| - 1].Append? then 1 else 0)
  }

  ghost predicate NoStop(steps: seq<Step>)
  {
    forall i | 0 <= i < |steps| :: !steps[i].Stop?
  }

  /** However the threads and the clock interleave, and whoever registers or enqueues meanwhile, the
      scheduler makes at most as many steps as the potential of the first state and the price of the
      writes added: it cannot stay busy on a finite number of writes. */
  lemma {:induction false} BoundedWork(c: Config, states: seq<State>, steps: seq<Step>, order: nat)
    requires IsRun(c, states, steps) && Inv(c, states[0]) && !states[0].stopped && NoStop(steps)
    requires |states[|steps|].mem.order| <= order
    ensures SchedulerSteps(steps) + Potential(c, states[|steps|], order)
            <= Potential(c, states[0], order) + Appends(steps) * WriteCost(c, order)
    ensures !states[|steps|].stopped && Potential(c, states[|steps|], order) >= 0
    decreases |steps|
  {
    hide Inv, Apply, Enabled, Potential, Base, Attempts, WriteCost;
    InvAlong(c, states, steps, |steps|);
    InvGivesAttempts(c, states[|steps|]);
    PotentialIsNat(c, states[|steps|], order);
    if steps != [] {
      var last := |steps| - 1;
      InvAlong(c, states, steps, last);
      InvGivesAttempts(c, states[last]);
      OrderStep(c, states[last], steps[last]);
      BoundedWork(c, states[..|steps|], steps[..last], order);
      PotentialStep(c, states[last], steps[last], order);
      StaysRunning(c, states[last], steps[last]);
      Product2(WriteCost(c, order), Appends(steps[..last]), if steps[last].Append? then 1 else 0);
    }
  }

  lemma PotentialIsNat(c: Config, s: State, order: nat)
    requires Base(s) && Attempts(c, s)
    ensures Potential(c, s, order) >= 0
  {
    hide Base, Attempts, Backlog, Wakeups, RoundCost;
    BacklogIsNat(c, s);
    Scaled(RoundCost(order), 0, Backlog(c, s) + Wakeups(s));
  }

  // ------------------------------------------------------------------ going idle

  /** Blocked with nothing to wake it. */
  predicate Idle(s: State)
  {
    s.sched.Waiting? && !s.notify
  }

  /** How long the scheduler's timer still runs. */
  function TimerLeft(c: Config, s: State): nat
  {
    match s.sched
    case Holding(_, _, since) => if s.now - since < c.responseTimeout then c.responseTimeout - (s.now - since) else 0
    case BackingOff(since) => if s.now - since < c.backoff then c.backoff - (s.now - since) else 0
    case _ => 0
  }

  /** The state once the scheduler's timer has run out. */
  function TimedOut(c: Config, s: State): State
  {
    s.(now := s.now + TimerLeft(c, s))
  }

  /** A step the scheduler can take once its timer has run out. */
  function OwnStep(s: State): Step
  {
    match s.sched
    case Top => BeginScan
    case Scanning(n, i) => if i < n then Peek else EndScan
    case Waiting => TakeNotify
    case Picked(_, _) => CheckStop
    case Sending(_, id) => if ItemAt(s.mem, id).message.Some? then Reuse else PrepareFails
    case Dropping(_, _) => Drop
    case Writing(_, _) => WriteOk
    case Holding(_, _, _) => Timeout
    case Failing(_, _, _) => CountAttempt
    case Removing(_, _, _) => RemoveExhausted
    case Reporting(_, _, _) => Report
    case BackingOff(_) => EndBackoff
    case Exited => Tick(0)
  }

  /** The scheduler has no step of its own left, however long it waits. */
  ghost predicate AtRest(c: Config, s: State)
  {
    forall step | !Outside(step) :: !Enabled(c, TimedOut(c, s), step)
  }

  /** A running scheduler has a step of its own as soon as its timer has run out, except when idle. */
  lemma RestIsIdle(c: Config, s: State)
    requires !s.stopped && !s.sched.Exited?
    ensures AtRest(c, s) <==> Idle(s)
  {
    if !Idle(s) {
      assert Enabled(c, TimedOut(c, s), OwnStep(s)) && !Outside(OwnStep(s));
    }
  }

  lemma ExitStep(c: Config, s: State, step: Step)
    requires Enabled(c, s, step) && (s.sched.Exited? ==> s.stopped)
    ensures Apply(c, s, step).sched.Exited? ==> Apply(c, s, step).stopped
  {
    hide PopHead, AppendItem, AddQueue, Queue, WithItem;
  }

  lemma {:induction false} ExitAlong(c: Config, states: seq<State>, steps: seq<Step>, i: nat)
    requires IsRun(c, states, steps) && i <= |steps| && (states[0].sched.Exited? ==> states[0].stopped)
    ensures states[i].sched.Exited? ==> states[i].stopped
  {
    hide Apply, Enabled;
    if i > 0 {
      ExitAlong(c, states, steps, i - 1);
      ExitStep(c, states[i - 1], steps[i - 1]);
    }
  }

  /** The scheduler exits only after Stop. */
  lemma ExitsOnlyWhenStopped(c: Config, s: State)
    requires Reachable(c, s)
    ensures s.sched.Exited? ==> s.stopped
  {
    var states, steps :| IsRun(c, states, steps) && states[0] == INIT && states[|steps|] == s;
    ExitAlong(c, states, steps, |steps|);
  }

  /** Drain, for every run without Stop: the scheduler's steps are bounded by the work there is; it comes
      to rest exactly where it is idle; and idle, with no enqueuer about to wake it, it has emptied
      every queue. So once no more writes come it goes idle, whatever happens to its attempts. */
  lemma Drains(c: Config, states: seq<State>, steps: seq<Step>)
    requires IsRun(c, states, steps) && Reachable(c, states[0]) && !states[0].stopped && NoStop(steps)
    ensures var last := states[|steps|];
            var order := |last.mem.order|;
            && SchedulerSteps(steps) <= Potential(c, states[0], order) + Appends(steps) * WriteCost(c, order)
            && (AtRest(c, last) <==> Idle(last))
            && (Idle(last) && Wakers(last) == {} ==> forall d | d in last.mem.queues :: last.mem.queues[d] == [])
  {
    hide Inv, Apply, Enabled, Potential, WriteCost, AtRest, Idle, Wakers;
    var last := states[|steps|];
    ReachableInv(c, states[0]);
    BoundedWork(c, states, steps, |last.mem.order|);
    ExitsOnlyWhenStopped(c, states[0]);
    ExitAlong(c, states, steps, |steps|);
    RestIsIdle(c, last);
    InvAlong(c, states, steps, |steps|);
    if Idle(last) && Wakers(last) == {} {
      IdleIsEmpty(c, last);
    }
  }

  lemma PendingMeansWaker(s: State)
    ensures WakePending(s) ==> s.notify || Wakers(s) != {}
  {
    if WakePending(s) && !s.notify {
      var t :| t in s.enqueuers && s.enqueuers[t].Appended?;
      assert t in Wakers(s);
    }
  }

  lemma IdleIsEmpty(c: Config, s: State)
    requires Inv(c, s) && Idle(s) && Wakers(s) == {}
    ensures forall d | d in s.mem.queues :: s.mem.queues[d] == []
  {
    hide Base, Prepared, Attempts, HeldLeftByAck, Settled, Reports, RadioHeld, WakePending, Wakers;
    PendingMeansWaker(s);
  }
}
