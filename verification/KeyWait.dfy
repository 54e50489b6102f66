/** The key drivers with a wait queue: 14_blockio (sleeping reads), 15_noblockio (O_NONBLOCK and poll)
    and 16_fasync (SIGIO).  The three files share their code but for the parts the features select.

    Interleaving is at the level of single shared-memory accesses: taking and leaving the spinlock, the
    read of the pin, the store of the status, the unlocked tests of the status, the copy to user space
    and the clearing of the status are steps of their own, in any order with the hardware's. */
module KeyWait {
  import opened Runs
  import K = KeyIrq

  type Pid = K.Pid

  datatype Features = Features(nonblock: bool, async: bool)

  const BLOCKIO := Features(false, false)
  const NOBLOCKIO := Features(true, false)
  const FASYNC := Features(true, true)

  /** Where the timer callback is. */
  datatype Phase =
    | Idle
    | Entered
    | Locked
    | HasRead(cur: K.Level, at: nat)
    | Stored
    | Unlocked
    | BeforeSignal

  datatype Lock = Free | ByHandler | ByReader(pid: Pid)

  /** What a reader remembers of its last test of the status: whether it goes on because of a signal, the
      test having found KEY_NONE, and how many writes the slot had seen. */
  datatype Ticket = Ticket(interrupted: bool, mark: nat)

  /** The value of a read: the status copied to the user, or -EFAULT.  `at` counts the writes the slot
      had seen when the reader took the lock. */
  datatype Outcome = Got(value: K.Status, ticket: Ticket, at: nat) | Efault(at: nat)

  /** A read that has returned, and the writes the slot had seen by then. */
  datatype Return = Return(pid: Pid, outcome: Outcome, to: nat)

  datatype Reader =
    | Start(nonblock: bool)                        // before the first test
    | Queued                                       // on r_wait, about to test
    | Asleep                                       // on r_wait, tested KEY_NONE
    | Signalled                                    // off r_wait because of a signal, about to test once more
    | Passed(ticket: Ticket)                       // about to take the lock
    | Holding(ticket: Ticket, at: nat)             // in the critical section
    | Copied(value: K.Status, ticket: Ticket, at: nat)
    | Leaving(outcome: Outcome)                    // about to drop the lock
    | Done(outcome: Outcome)
    | Again                                        // returned -EAGAIN

  datatype Poller = PollQueued | PollAsleep | PollDone(ready: bool)

  /** A process on the async list: how many results had been stored when it subscribed, and the signals
      it got since. */
  datatype Subscription = Subscription(storesBefore: nat, signals: nat)

  datatype State = State(
    features: Features,
    delay: nat,
    now: nat,
    pin: K.Level,
    irq: bool,
    scheduled: bool,
    running: bool,
    timer: K.Timer,
    phase: Phase,
    last: K.Level,
    status: K.Status,
    lock: Lock,
    readers: map<Pid, Reader>,
    pollers: map<Pid, Poller>,
    async: map<Pid, Subscription>,
    kills: nat,                                    // calls of kill_fasync so far
    returned: seq<Return>,                         // reads that took the lock, in the order they returned
    h: K.History)

  function Init(features: Features, delay: nat): State {
    State(features, delay, 0, 1, false, false, false, K.Unarmed, Idle, 1, K.KeyNone, Free,
          map[], map[], map[], 0, [], K.NO_HISTORY)
  }

  /** The steps of kery_read after its entry. */
  datatype Action = Test | Interrupt | LockReader | Copy(fault: bool) | Clear | UnlockReader

  datatype Step =
    | Edge
    | Tick
    | TakeIrq
    | TaskletStart
    | TaskletRun
    | Expire
    | LockHandler
    | ReadGpio
    | Store
    | UnlockHandler
    | Wake
    | Signal
    | BeginRead(pid: Pid, nonblock: bool)
    | Go(pid: Pid, action: Action)
    | BeginPoll(pid: Pid)
    | TestPoll(pid: Pid)
    | PollTimeout(pid: Pid)
    | Subscribe(pid: Pid)
    | Unsubscribe(pid: Pid)

  // ----- interrupt, tasklet and callback

  function Hardware(s: State, step: Step): Option<State> {
    match step
    case Edge => Some(s.(pin := 1 - s.pin, irq := true))
    case Tick => Some(s.(now := s.now + 1))
    case TakeIrq =>
      if s.irq then Some(s.(irq := false, scheduled := true)) else None
    case TaskletStart =>
      if s.scheduled && !s.running then Some(s.(scheduled := false, running := true)) else None
    case TaskletRun =>
      if s.running
      then Some(s.(running := false, timer := K.Armed(s.now + s.delay), h := s.h.(lastRun := s.now)))
      else None
    case Expire =>
      if s.timer.Armed? && s.timer.deadline <= s.now && s.phase.Idle?
      then Some(s.(timer := K.Unarmed, phase := Entered, h := s.h.(expiries := s.h.expiries + [s.now])))
      else None
    case _ => None
  }

  /** wake_up_interruptible: every sleeper goes back to testing. */
  function WokenReader(r: Reader): Reader {
    if r.Asleep? then Queued else r
  }

  function WokenPoller(p: Poller): Poller {
    if p.PollAsleep? then PollQueued else p
  }

  function Callback(s: State, step: Step): Option<State> {
    match step
    case LockHandler =>
      if s.phase.Entered? && s.lock.Free? then Some(s.(phase := Locked, lock := ByHandler)) else None
    case ReadGpio =>
      if s.phase.Locked? then Some(s.(phase := HasRead(s.pin, s.now))) else None
    case Store =>
      if s.phase.HasRead?
      then
        var after := K.Detect(s.phase.cur, s.last);
        Some(s.(phase := Stored, status := after, last := s.phase.cur,
                h := K.RecordStore(s.h, s.status, after, s.phase.cur, s.phase.at, s.now)))
      else None
    case UnlockHandler =>
      if s.phase.Stored? then Some(s.(phase := Unlocked, lock := Free)) else None
    case Wake =>
      if s.phase.Unlocked?
      then Some(s.(phase := if s.features.async then BeforeSignal else Idle,
                   readers := map p | p in s.readers :: WokenReader(s.readers[p]),
                   pollers := map p | p in s.pollers :: WokenPoller(s.pollers[p])))
      else None
    case Signal =>
      if s.phase.BeforeSignal?
      then Some(s.(phase := Idle, kills := s.kills + 1,
                   async := map p | p in s.async :: s.async[p].(signals := s.async[p].signals + 1)))
      else None
    case _ => None
  }

  // ----- kery_read

  /** What a reader's step leaves: its own place in kery_read, and the shared data it may touch. */
  datatype Moved = Moved(reader: Reader, lock: Lock, status: K.Status, h: K.History)

  function Move(p: Pid, r: Reader, lock: Lock, status: K.Status, h: K.History, action: Action): Option<Moved> {
    match action
    case Test =>
      if status != K.KeyNone && (r.Start? || r.Queued? || r.Signalled?)
      then Some(Moved(Passed(Ticket(false, |h.writes|)), lock, status, h))
      else if r.Start? then Some(Moved(if r.nonblock then Again else Queued, lock, status, h))
      else if r.Queued? then Some(Moved(Asleep, lock, status, h))
      // the wait returns -ERESTARTSYS, and kery_read goes on regardless
      else if r.Signalled? then Some(Moved(Passed(Ticket(true, |h.writes|)), lock, status, h))
      else None
    case Interrupt =>
      if r.Queued? || r.Asleep? then Some(Moved(Signalled, lock, status, h)) else None
    case LockReader =>
      if r.Passed? && lock.Free? then Some(Moved(Holding(r.ticket, |h.writes|), ByReader(p), status, h)) else None
    case Copy(fault) =>
      if r.Holding?
      then Some(Moved(if fault then Leaving(Efault(r.at)) else Copied(status, r.ticket, r.at), lock, status, h))
      else None
    case Clear =>
      if r.Copied?
      then Some(Moved(Leaving(Got(r.value, r.ticket, r.at)), lock, K.KeyNone, K.RecordClear(h, status, p)))
      else None
    case UnlockReader =>
      if r.Leaving? then Some(Moved(Done(r.outcome), Free, status, h)) else None
  }

  function Returned(returned: seq<Return>, p: Pid, r: Reader, writes: nat): seq<Return> {
    if r.Done? then returned + [Return(p, r.outcome, writes)] else returned
  }

  function ReadStep(s: State, step: Step): Option<State> {
    match step
    case BeginRead(p, nonblock) =>
      if (p in s.readers ==> s.readers[p].Done? || s.readers[p].Again?) && (nonblock ==> s.features.nonblock)
      then Some(s.(readers := s.readers[p := Start(nonblock)]))
      else None
    case Go(p, action) =>
      if p !in s.readers then None
      else
        (match Move(p, s.readers[p], s.lock, s.status, s.h, action)
         case None => None
         case Some(m) =>
           Some(s.(readers := s.readers[p := m.reader], lock := m.lock, status := m.status, h := m.h,
                   returned := Returned(s.returned, p, m.reader, |m.h.writes|))))
    case _ => None
  }

  // ----- key_poll and key_fasync

  function PollStep(s: State, step: Step): Option<State> {
    match step
    case BeginPoll(p) =>
      if s.features.nonblock && (p in s.pollers ==> s.pollers[p].PollDone?)
      then Some(s.(pollers := s.pollers[p := PollQueued]))
      else None
    case TestPoll(p) =>
      if p in s.pollers && s.pollers[p].PollQueued?
      then Some(s.(pollers := s.pollers[p := if s.status != K.KeyNone then PollDone(true) else PollAsleep]))
      else None
    case PollTimeout(p) =>
      if p in s.pollers && s.pollers[p].PollAsleep?
      then Some(s.(pollers := s.pollers[p := PollDone(false)]))
      else None
    case _ => None
  }

  function AsyncStep(s: State, step: Step): Option<State> {
    match step
    case Subscribe(p) =>
      if !s.features.async then None
      else if p in s.async then Some(s)   // fasync_helper keeps the entry it finds
      else Some(s.(async := s.async[p := Subscription(|s.h.stored|, 0)]))
    case Unsubscribe(p) =>
      if s.features.async then Some(s.(async := s.async - {p})) else None
    case _ => None
  }

  function Next(s: State, step: Step): Option<State> {
    match step
    case Edge | Tick | TakeIrq | TaskletStart | TaskletRun | Expire => Hardware(s, step)
    case LockHandler | ReadGpio | Store | UnlockHandler | Wake | Signal => Callback(s, step)
    case BeginPoll(_) | TestPoll(_) | PollTimeout(_) => PollStep(s, step)
    case Subscribe(_) | Unsubscribe(_) => AsyncStep(s, step)
    case _ => ReadStep(s, step)
  }
}
