/** The half-duplex write scheduler as a transition system: enqueuers, the scheduler and the RESPONSE
    path interleave, one step per critical section. */
module Scheduler {
  import opened Words
  import opened Wrappers
  import opened WriteItems

  datatype Config = Config(maxRetry: int, responseTimeout: int, backoff: int)

  /** How an item left its queue, and when. */
  datatype Outcome = Acked | Exhausted | Dropped
  datatype End = End(id: nat, outcome: Outcome, at: nat)

  /** A request frame handed to the serial port without an error. */
  datatype Frame = Frame(id: nat, at: nat)

  /** An enqueuer between its three steps: queue found or created, item appended, scheduler woken. */
  datatype Enqueuer = Registered(device: Device) | Appended

  /** A RESPONSE callback that has looked its queue up and has yet to dequeue. */
  datatype Receiver = Receiver(device: Device, messageId: byte)

  /** Where the scheduler goroutine stands, with its local variables. */
  datatype Sched =
    | Top
    | Scanning(n: nat, i: nat)               // inside nextPending, holding the manager's mutex
    | Waiting                                // blocked on notify or stop
    | Picked(device: Device, id: nat)        // item in hand, stop not yet checked
    | Sending(device: Device, id: nat)       // transmit entered
    | Dropping(device: Device, id: nat)      // the message could not be prepared
    | Writing(device: Device, id: nat)       // about to write the prepared frame
    | Holding(device: Device, id: nat, since: nat)      // frame sent, response timer running
    | Failing(device: Device, id: nat, slow: bool)      // attempt over, IncRetry next
    | Removing(device: Device, id: nat, slow: bool)     // last attempt used up, RemoveItem next
    | Reporting(device: Device, id: nat, slow: bool)    // removed, onWriteExhausted next
    | BackingOff(since: nat)                 // asleep after a serial error
    | Exited

  /** The shared memory. An item's identity is its index in `items`; `history` and `finished` record
      per device what was ever enqueued and what has left, `ends` every departure. */
  datatype Mem = Mem(
    queues: map<Device, seq<nat>>,
    order: seq<Device>,
    items: seq<Item>,
    history: map<Device, seq<nat>>,
    finished: map<Device, seq<nat>>,
    ends: seq<End>)

  datatype State = State(
    mem: Mem,
    rrIndex: nat,
    notify: bool,
    stopped: bool,
    now: nat,
    sched: Sched,
    enqueuers: map<nat, Enqueuer>,
    receivers: map<nat, Receiver>,
    attempts: seq<nat>,      // per item: how often it was handed to the serial writer
    frames: seq<Frame>,
    reported: seq<nat>,      // items onWriteExhausted was called for
    picks: seq<Device>)

  datatype Step =
    | Register(thread: nat, device: Device)
    | Append(thread: nat)
    | Wake(thread: nat)
    | Lookup(thread: nat, device: Device, messageId: byte)
    | Dequeue(thread: nat)
    | BeginScan
    | Peek
    | EndScan
    | TakeNotify
    | StopWhileWaiting
    | CheckStop
    | Reuse
    | Prepare(messageId: byte, message: seq<byte>)
    | PrepareFails
    | Drop
    | WriteOk
    | WriteFails
    | SeeDone
    | Timeout
    | StopWhileHolding
    | CountAttempt
    | RemoveExhausted
    | Report
    | EndBackoff
    | Stop
    | Tick(elapsed: nat)

  const EMPTY_MEM := Mem(map[], [], [], map[], map[], [])

  const INIT := State(EMPTY_MEM, 0, false, false, 0, Top, map[], map[], [], [], [], [])

  // ------------------------------------------------------------------ memory operations

  function Queue(m: Mem, device: Device): seq<nat>
  {
    if device in m.queues then m.queues[device] else []
  }

  function ItemAt(m: Mem, id: nat): Item
  {
    if id < |m.items| then m.items[id] else NewItem("")
  }

  function WithItem(m: Mem, id: nat, item: Item): Mem
  {
    if id < |m.items| then m.(items := m.items[id := item]) else m
  }

  /** getOrCreateQueue. */
  function AddQueue(m: Mem, device: Device): Mem
  {
    if device in m.queues then m
    else m.(queues := m.queues[device := []], order := m.order + [device],
            history := m.history[device := []], finished := m.finished[device := []])
  }

  /** EnqueueWriteQueue on a registered device. */
  function AppendItem(m: Mem, device: Device): Mem
  {
    if device in m.queues && device in m.history then
      m.(queues := m.queues[device := m.queues[device] + [|m.items|]],
         items := m.items + [NewItem(device)],
         history := m.history[device := m.history[device] + [|m.items|]])
    else m
  }

  /** The head of a queue leaves it with an outcome. */
  function PopHead(m: Mem, device: Device, outcome: Outcome, at: nat): Mem
  {
    if Queue(m, device) != [] && device in m.finished then
      var head := m.queues[device][0];
      WithItem(m.(queues := m.queues[device := m.queues[device][1..]],
                  finished := m.finished[device := m.finished[device] + [head]],
                  ends := m.ends + [End(head, outcome, at)]),
               head, MarkDone(ItemAt(m, head), outcome == Acked))
    else m
  }

  predicate IsHead(m: Mem, device: Device, id: nat)
  {
    Queue(m, device) != [] && Queue(m, device)[0] == id
  }

  /** RemoveItem: takes the item out only if it is still the head. */
  function RemoveItem(m: Mem, device: Device, id: nat, outcome: Outcome, at: nat): Mem
  {
    if IsHead(m, device, id) then PopHead(m, device, outcome, at) else m
  }

  /** dequeue with a message id. */
  function AckHead(m: Mem, device: Device, messageId: byte, at: nat): Mem
  {
    if Queue(m, device) != [] && Acks(ItemAt(m, Queue(m, device)[0]), messageId) then PopHead(m, device, Acked, at) else m
  }

  // ------------------------------------------------------------------ steps

  predicate Enabled(c: Config, s: State, step: Step)
  {
    match step
    case Register(t, _) => t !in s.enqueuers && !s.sched.Scanning?
    case Append(t) => t in s.enqueuers && s.enqueuers[t].Registered?
    case Wake(t) => t in s.enqueuers && s.enqueuers[t].Appended?
    case Lookup(t, _, _) => t !in s.receivers && !s.sched.Scanning?
    case Dequeue(t) => t in s.receivers
    case BeginScan => s.sched.Top?
    case Peek => s.sched.Scanning? && s.sched.i < s.sched.n
    case EndScan => s.sched.Scanning? && s.sched.i >= s.sched.n
    case TakeNotify => s.sched.Waiting? && s.notify
    case StopWhileWaiting => s.sched.Waiting? && s.stopped
    case CheckStop => s.sched.Picked?
    case Reuse => s.sched.Sending? && ItemAt(s.mem, s.sched.id).message.Some?
    case Prepare(_, _) => s.sched.Sending? && ItemAt(s.mem, s.sched.id).message.None?
    case PrepareFails => s.sched.Sending? && ItemAt(s.mem, s.sched.id).message.None?
    case Drop => s.sched.Dropping?
    case WriteOk => s.sched.Writing?
    case WriteFails => s.sched.Writing?
    case SeeDone => s.sched.Holding? && ItemAt(s.mem, s.sched.id).done
    case Timeout => s.sched.Holding? && s.now - s.sched.since >= c.responseTimeout
    case StopWhileHolding => s.sched.Holding? && s.stopped
    case CountAttempt => s.sched.Failing?
    case RemoveExhausted => s.sched.Removing?
    case Report => s.sched.Reporting?
    case EndBackoff => s.sched.BackingOff? && s.now - s.sched.since >= c.backoff
    case Stop => true
    case Tick(_) => true
  }

  /** The device whose queue a scan peeks next. */
  function PeekIndex(s: State): nat
    requires s.sched.Scanning?
  {
    if s.sched.n == 0 then 0 else (s.rrIndex + s.sched.i) % s.sched.n
  }

  function PeekDevice(s: State): Device
    requires s.sched.Scanning?
  {
    if PeekIndex(s) < |s.mem.order| then s.mem.order[PeekIndex(s)] else ""
  }

  /** Where a finished attempt goes: back to the loop, or to sleep first after a serial error. */
  function Resume(slow: bool, now: nat): Sched
  {
    if slow then BackingOff(now) else Top
  }

  function CountWrite(s: State, id: nat): seq<nat>
  {
    if id < |s.attempts| then s.attempts[id := s.attempts[id] + 1] else s.attempts
  }

  function Apply(c: Config, s: State, step: Step): State
    requires Enabled(c, s, step)
  {
    match step
    case Register(t, d) => s.(mem := AddQueue(s.mem, d), enqueuers := s.enqueuers[t := Registered(d)])
    case Append(t) =>
      s.(mem := AppendItem(s.mem, s.enqueuers[t].device), attempts := s.attempts + [0], enqueuers := s.enqueuers[t := Appended])
    case Wake(t) => s.(notify := true, enqueuers := s.enqueuers - {t})
    case Lookup(t, d, id) => if d in s.mem.queues then s.(receivers := s.receivers[t := Receiver(d, id)]) else s
    case Dequeue(t) =>
      s.(mem := AckHead(s.mem, s.receivers[t].device, s.receivers[t].messageId, s.now), receivers := s.receivers - {t})
    case Stop => s.(stopped := true)
    case Tick(elapsed) => s.(now := s.now + elapsed)
    case _ => SchedulerStep(c, s, step)
  }

  /** The steps of the scheduler goroutine. */
  function SchedulerStep(c: Config, s: State, step: Step): State
    requires Enabled(c, s, step)
  {
    match step
    case BeginScan => s.(sched := Scanning(|s.mem.order|, 0))
    case Peek =>
      var device := PeekDevice(s);
      if Queue(s.mem, device) != [] then
        s.(rrIndex := PeekIndex(s) + 1, sched := Picked(device, Queue(s.mem, device)[0]), picks := s.picks + [device])
      else s.(sched := Scanning(s.sched.n, s.sched.i + 1))
    case EndScan => s.(sched := Waiting)
    case TakeNotify => s.(notify := false, sched := Top)
    case StopWhileWaiting => s.(sched := Exited)
    case CheckStop => s.(sched := if s.stopped then Exited else Sending(s.sched.device, s.sched.id))
    case Reuse => s.(sched := Writing(s.sched.device, s.sched.id))
    case Prepare(messageId, message) =>
      s.(mem := WithItem(s.mem, s.sched.id, ItemAt(s.mem, s.sched.id).(messageId := messageId, message := Some(message))),
         sched := Writing(s.sched.device, s.sched.id))
    case PrepareFails => s.(sched := Dropping(s.sched.device, s.sched.id))
    case Drop => s.(mem := RemoveItem(s.mem, s.sched.device, s.sched.id, Dropped, s.now), sched := Top)
    case WriteOk =>
      s.(attempts := CountWrite(s, s.sched.id), frames := s.frames + [Frame(s.sched.id, s.now)],
         sched := Holding(s.sched.device, s.sched.id, s.now))
    case WriteFails => s.(attempts := CountWrite(s, s.sched.id), sched := Failing(s.sched.device, s.sched.id, true))
    case SeeDone => s.(sched := Top)
    case Timeout => s.(sched := Failing(s.sched.device, s.sched.id, false))
    case StopWhileHolding => s.(sched := Top)
    case CountAttempt =>
      var item := ItemAt(s.mem, s.sched.id);
      s.(mem := WithItem(s.mem, s.sched.id, item.(retryCount := item.retryCount + 1)),
         sched := if item.retryCount + 1 < c.maxRetry then Resume(s.sched.slow, s.now)
                  else Removing(s.sched.device, s.sched.id, s.sched.slow))
    case RemoveExhausted =>
      s.(mem := RemoveItem(s.mem, s.sched.device, s.sched.id, Exhausted, s.now),
         sched := if IsHead(s.mem, s.sched.device, s.sched.id) then Reporting(s.sched.device, s.sched.id, s.sched.slow)
                  else Resume(s.sched.slow, s.now))
    case Report => s.(reported := s.reported + [s.sched.id], sched := Resume(s.sched.slow, s.now))
    case EndBackoff => s.(sched := Top)
    case _ => s
  }

  /** A run: every state follows from the one before it by an enabled step. */
  ghost predicate IsRun(c: Config, states: seq<State>, steps: seq<Step>)
  {
    && |states| == |steps| + 1
    && forall i | 0 <= i < |steps| :: Enabled(c, states[i], steps[i]) && states[i + 1] == Apply(c, states[i], steps[i])
  }

  /** The item the scheduler has in hand. */
  predicate Holds(sched: Sched)
  {
    sched.Picked? || sched.Sending? || sched.Dropping? || sched.Writing? || sched.Holding? || sched.Failing?
    || sched.Removing? || sched.Reporting?
  }
}
