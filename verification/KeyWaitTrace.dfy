/** Each component of the drivers with a wait queue on its own, told from the steps taken so far: callback, lock,
    pollers and SIGIO subscribers here, and all that 13_irq has too by its own reference in KeyTrace. */
module KeyWaitTrace {
  import opened Runs
  import opened KeyWait
  import opened KeyRefinement
  import K = KeyIrq
  import KeyTrace

  /** What 13_irq sees. */
  function VisibleSteps(steps: seq<Step>): seq<K.Step> {
    if steps == [] then []
    else VisibleSteps(Front(steps)) + match Visible(Final(steps)) case None => [] case Some(k) => [k]
  }

  /** The slot, by the reference for 13_irq. */
  function StatusOf(steps: seq<Step>): K.Status {
    KeyTrace.StatusOf(VisibleSteps(steps))
  }

  function PhaseOf(async: bool, steps: seq<Step>): Phase {
    if steps == [] then Idle
    else
      match Final(steps)
      case Expire => Entered
      case LockHandler => Locked
      case ReadGpio => HasRead(KeyTrace.PinOf(VisibleSteps(Front(steps))), KeyTrace.NowOf(VisibleSteps(Front(steps))))
      case Store => Stored
      case UnlockHandler => Unlocked
      case Wake => if async then BeforeSignal else Idle
      case Signal => Idle
      case _ => PhaseOf(async, Front(steps))
  }

  /** Whoever took the lock last and has not left it. */
  function LockOf(steps: seq<Step>): Lock {
    if steps == [] then Free
    else
      match Final(steps)
      case LockHandler => ByHandler
      case UnlockHandler => Free
      case Go(p, LockReader) => ByReader(p)
      case Go(_, UnlockReader) => Free
      case _ => LockOf(Front(steps))
  }

  /** A poll is ready if its test finds the slot full; otherwise it sleeps, to be woken for another test or to time
      out, which is the only way not to be ready. */
  function PollerOf(steps: seq<Step>, p: Pid): Option<Poller> {
    if steps == [] then None
    else
      var before := PollerOf(Front(steps), p);
      match Final(steps)
      case BeginPoll(q) => if q == p then Some(PollQueued) else before
      case TestPoll(q) =>
        if q != p then before
        else if StatusOf(Front(steps)) == K.KeyNone then Some(PollAsleep)
        else Some(PollDone(true))
      case PollTimeout(q) => if q == p then Some(PollDone(false)) else before
      case Wake => if before == Some(PollAsleep) then Some(PollQueued) else before
      case _ => before
  }

  /** The last that p has done to its subscription is to subscribe. */
  predicate OnList(steps: seq<Step>, p: Pid) {
    && steps != []
    && (Final(steps) == Subscribe(p) || (Final(steps) != Unsubscribe(p) && OnList(Front(steps), p)))
  }

  /** How many signals have been sent since p was put on the list. */
  function SignalsTo(steps: seq<Step>, p: Pid): nat {
    if steps == [] || !OnList(steps, p) || !OnList(Front(steps), p) then 0
    else SignalsTo(Front(steps), p) + if Final(steps).Signal? then 1 else 0
  }

  predicate IsStore(step: Step) {
    step.Store?
  }

  predicate IsSignal(step: Step) {
    step.Signal?
  }

  /** How many of the steps are marked. */
  function CountOf(steps: seq<Step>, marked: Step -> bool): nat {
    if steps == [] then 0 else CountOf(Front(steps), marked) + if marked(Final(steps)) then 1 else 0
  }

  /** How many results had been stored when p was put on the list. */
  function StoresBefore(steps: seq<Step>, p: Pid): nat {
    if steps == [] || !OnList(steps, p) then 0
    else if !OnList(Front(steps), p) then CountOf(Front(steps), IsStore)
    else StoresBefore(Front(steps), p)
  }

  // ----- the machine follows its trace

  ghost predicate FollowsCallback(s: State, steps: seq<Step>) {
    && s.phase == PhaseOf(s.features.async, steps)
    && s.lock == LockOf(steps)
    && s.kills == CountOf(steps, IsSignal)
    && |s.h.stored| == CountOf(steps, IsStore)
  }

  ghost predicate FollowsPoller(s: State, steps: seq<Step>, p: Pid) {
    (if p in s.pollers then Some(s.pollers[p]) else None) == PollerOf(steps, p)
  }

  ghost predicate FollowsAsync(s: State, steps: seq<Step>, p: Pid) {
    && (p in s.async <==> OnList(steps, p))
    && (p in s.async ==> s.async[p] == Subscription(StoresBefore(steps, p), SignalsTo(steps, p)))
  }

  /** 13_irq's part of the state, by its own reference. */
  ghost predicate FollowsKeyIrq(s: State, delay: nat, steps: seq<Step>) {
    KeyTrace.Follows(ToKeyIrq(s), delay, VisibleSteps(steps))
  }

  ghost predicate Follows(s: State, features: Features, delay: nat, steps: seq<Step>) {
    && Exclusive(s)
    && s.features == features
    && FollowsKeyIrq(s, delay, steps)
    && FollowsCallback(s, steps)
    && (forall p :: FollowsPoller(s, steps, p))
    && (forall p :: FollowsAsync(s, steps, p))
  }

  lemma VisibleSnoc(past: seq<Step>, step: Step)
    ensures VisibleSteps(past + [step])
            == VisibleSteps(past) + match Visible(step) case None => [] case Some(k) => [k]
    ensures Front(past + [step]) == past && Final(past + [step]) == step
  {
    assert Front(past + [step]) == past;
  }

  lemma KeyIrqStepFollows(s: State, delay: nat, past: seq<Step>, step: Step)
    requires Exclusive(s) && FollowsKeyIrq(s, delay, past) && Next(s, step).Some?
    ensures FollowsKeyIrq(Next(s, step).value, delay, past + [step])
  {
    KeyIrqSimulation(s, step);
    VisibleSnoc(past, step);
    match Visible(step)
    case None => assert VisibleSteps(past) + [] == VisibleSteps(past);
    case Some(k) => KeyTrace.FollowsStep(ToKeyIrq(s), delay, VisibleSteps(past), k);
  }

  // ----- one step, component by component

  /** Which steps move the callback on. */
  function MovedPhase(s: State, step: Step): Phase {
    match step
    case Expire => Entered
    case LockHandler => Locked
    case ReadGpio => HasRead(s.pin, s.now)
    case Store => Stored
    case UnlockHandler => Unlocked
    case Wake => if s.features.async then BeforeSignal else Idle
    case Signal => Idle
    case _ => s.phase
  }

  /** Which steps take and leave the lock. */
  function MovedLock(s: State, step: Step): Lock {
    match step
    case LockHandler => ByHandler
    case UnlockHandler => Free
    case Go(p, LockReader) => ByReader(p)
    case Go(_, UnlockReader) => Free
    case _ => s.lock
  }

  /** And which leave pollers, subscribers and counts alone. */
  ghost predicate Framed(s: State, t: State, step: Step) {
    && t.features == s.features
    && t.phase == MovedPhase(s, step) && t.lock == MovedLock(s, step)
    && (!step.BeginPoll? && !step.TestPoll? && !step.PollTimeout? && !step.Wake? ==> t.pollers == s.pollers)
    && (!step.Subscribe? && !step.Unsubscribe? && !step.Signal? ==> t.async == s.async)
    && t.kills == s.kills + (if step.Signal? then 1 else 0)
    && |t.h.stored| == |s.h.stored| + (if step.Store? then 1 else 0)
  }

  lemma FramedHardware(s: State, step: Step)
    requires Hardware(s, step).Some?
    ensures Framed(s, Hardware(s, step).value, step)
  {}

  lemma FramedCallback(s: State, step: Step)
    requires Callback(s, step).Some?
    ensures Framed(s, Callback(s, step).value, step)
  {}

  lemma MoveFramed(p: Pid, r: Reader, lock: Lock, status: K.Status, h: K.History, action: Action)
    requires Move(p, r, lock, status, h, action).Some?
    ensures var m := Move(p, r, lock, status, h, action).value;
            && m.h.stored == h.stored
            && m.lock == match action case LockReader => ByReader(p) case UnlockReader => Free case _ => lock
  {}

  lemma FramedRead(s: State, step: Step)
    requires ReadStep(s, step).Some?
    ensures Framed(s, ReadStep(s, step).value, step)
  {
    if step.Go? {
      MoveFramed(step.pid, s.readers[step.pid], s.lock, s.status, s.h, step.action);
    }
  }

  lemma FramedStep(s: State, step: Step)
    requires Next(s, step).Some?
    ensures Framed(s, Next(s, step).value, step)
  {
    match step
    case Edge | Tick | TakeIrq | TaskletStart | TaskletRun | Expire => FramedHardware(s, step);
    case LockHandler | ReadGpio | Store | UnlockHandler | Wake | Signal => FramedCallback(s, step);
    case BeginPoll(_) | TestPoll(_) | PollTimeout(_) =>
    case Subscribe(_) | Unsubscribe(_) =>
    case _ => FramedRead(s, step);
  }

  lemma CallbackFollows(s: State, t: State, past: seq<Step>, step: Step, delay: nat)
    requires FollowsCallback(s, past) && FollowsKeyIrq(s, delay, past) && Framed(s, t, step)
    ensures FollowsCallback(t, past + [step])
  {
    VisibleSnoc(past, step);
  }

  lemma PollerOwn(s: State, past: seq<Step>, step: Step, p: Pid)
    requires FollowsPoller(s, past, p) && s.status == StatusOf(past) && PollStep(s, step).Some?
    ensures FollowsPoller(PollStep(s, step).value, past + [step], p)
  {
    VisibleSnoc(past, step);
  }

  lemma PollerWake(s: State, past: seq<Step>, p: Pid)
    requires FollowsPoller(s, past, p) && Callback(s, Wake).Some?
    ensures FollowsPoller(Callback(s, Wake).value, past + [Wake], p)
  {
    VisibleSnoc(past, Wake);
  }

  lemma PollerStays(s: State, t: State, past: seq<Step>, step: Step, p: Pid)
    requires FollowsPoller(s, past, p) && t.pollers == s.pollers
    requires !step.BeginPoll? && !step.TestPoll? && !step.PollTimeout? && !step.Wake?
    ensures FollowsPoller(t, past + [step], p)
  {
    VisibleSnoc(past, step);
  }

  lemma PollerFollows(s: State, past: seq<Step>, step: Step, p: Pid)
    requires FollowsPoller(s, past, p) && s.status == StatusOf(past) && Next(s, step).Some?
    requires Framed(s, Next(s, step).value, step)
    ensures FollowsPoller(Next(s, step).value, past + [step], p)
  {
    match step
    case BeginPoll(_) | TestPoll(_) | PollTimeout(_) => PollerOwn(s, past, step, p);
    case Wake => PollerWake(s, past, p);
    case _ => PollerStays(s, Next(s, step).value, past, step, p);
  }

  lemma AsyncOwn(s: State, past: seq<Step>, step: Step, p: Pid)
    requires FollowsAsync(s, past, p) && |s.h.stored| == CountOf(past, IsStore) && AsyncStep(s, step).Some?
    ensures FollowsAsync(AsyncStep(s, step).value, past + [step], p)
  {
    VisibleSnoc(past, step);
    if step != Subscribe(p) && step != Unsubscribe(p) {
      assert OnList(past + [step], p) <==> OnList(past, p);
    }
  }

  lemma AsyncSignal(s: State, past: seq<Step>, p: Pid)
    requires FollowsAsync(s, past, p) && Callback(s, Signal).Some?
    ensures FollowsAsync(Callback(s, Signal).value, past + [Signal], p)
  {
    VisibleSnoc(past, Signal);
  }

  lemma AsyncStays(s: State, t: State, past: seq<Step>, step: Step, p: Pid)
    requires FollowsAsync(s, past, p) && t.async == s.async
    requires !step.Subscribe? && !step.Unsubscribe? && !step.Signal?
    ensures FollowsAsync(t, past + [step], p)
  {
    VisibleSnoc(past, step);
  }

  lemma AsyncFollows(s: State, past: seq<Step>, step: Step, p: Pid)
    requires FollowsAsync(s, past, p) && |s.h.stored| == CountOf(past, IsStore) && Next(s, step).Some?
    requires Framed(s, Next(s, step).value, step)
    ensures FollowsAsync(Next(s, step).value, past + [step], p)
  {
    match step
    case Subscribe(_) | Unsubscribe(_) => AsyncOwn(s, past, step, p);
    case Signal => AsyncSignal(s, past, p);
    case _ => AsyncStays(s, Next(s, step).value, past, step, p);
  }

  lemma FollowsStep(s: State, features: Features, delay: nat, past: seq<Step>, step: Step)
    requires Follows(s, features, delay, past) && Next(s, step).Some?
    ensures Follows(Next(s, step).value, features, delay, past + [step])
  {
    ExclusiveStep(s, step);
    FramedStep(s, step);
    KeyIrqStepFollows(s, delay, past, step);
    CallbackFollows(s, Next(s, step).value, past, step, delay);
    forall p ensures FollowsPoller(Next(s, step).value, past + [step], p) { PollerFollows(s, past, step, p); }
    forall p ensures FollowsAsync(Next(s, step).value, past + [step], p) { AsyncFollows(s, past, step, p); }
  }

  /** In every run of every driver each component is what its own history says. */
  lemma StateOfTrace(features: Features, delay: nat, steps: seq<Step>, s: State)
    requires Run(Next, Init(features, delay), steps) == Some(s)
    ensures Follows(s, features, delay, steps)
  {
    var follows := (t: State, past: seq<Step>) => Follows(t, features, delay, past);
    forall t, l, past | follows(t, past) && Next(t, l).Some? ensures follows(Next(t, l).value, past + [l]) {
      FollowsStep(t, features, delay, past, l);
    }
    TraceInvariant(Next, follows, Init(features, delay), [], steps);
    assert [] + steps == steps;
  }

  /** A process is on the async list exactly if the last that it has done about it is to subscribe, and has had one
      signal for every kill_fasync since it was put there. */
  lemma Subscribers(delay: nat, steps: seq<Step>, s: State, p: Pid)
    requires Run(Next, Init(FASYNC, delay), steps) == Some(s)
    ensures p in s.async <==> OnList(steps, p)
    ensures p in s.async ==>
              s.async[p].signals == SignalsTo(steps, p) && s.async[p].storesBefore == StoresBefore(steps, p)
    ensures s.kills == CountOf(steps, IsSignal)
  {
    StateOfTrace(FASYNC, delay, steps, s);
    assert FollowsAsync(s, steps, p);
  }

  /** A poll is ready only by a test that found an event, not ready only by running out of time, asleep only by a test
      that found none, and about to test only when begun or woken. */
  lemma PollAnswers(features: Features, delay: nat, steps: seq<Step>, s: State, p: Pid)
    requires Run(Next, Init(features, delay), steps) == Some(s)
    ensures (if p in s.pollers then Some(s.pollers[p]) else None) == PollerOf(steps, p)
    ensures s.status == StatusOf(steps)
  {
    StateOfTrace(features, delay, steps, s);
    assert FollowsPoller(s, steps, p);
  }

  // ----- readers

  /** A reader moves by its own steps only, except that a wake_up sends it from its sleep back to testing. */
  lemma ReaderMovesItself(s: State, step: Step, p: Pid)
    requires Next(s, step).Some?
    ensures var t := Next(s, step).value;
            if step.Wake? then
              && (p in t.readers <==> p in s.readers)
              && (p in s.readers ==> t.readers[p] == if s.readers[p] == Asleep then Queued else s.readers[p])
            else if step.BeginRead? && step.pid == p then p in t.readers && t.readers[p] == Start(step.nonblock)
            else if step.Go? && step.pid == p then p in s.readers && p in t.readers
            else (p in t.readers <==> p in s.readers) && (p in s.readers ==> t.readers[p] == s.readers[p])
  {}

  /** A signal takes a reader off the wait queue, whether it is about to test or asleep. */
  lemma InterruptTakesOff(s: State, p: Pid)
    requires Next(s, Go(p, Interrupt)).Some?
    ensures s.readers[p] == Queued || s.readers[p] == Asleep
    ensures Next(s, Go(p, Interrupt)).value == s.(readers := s.readers[p := Signalled])
  {}

  /** Which of its steps a reader can take. */
  predicate ReaderCan(r: Reader, lock: Lock, action: Action) {
    match action
    case Test => r.Start? || r == Queued || r == Signalled
    case Interrupt => r == Queued || r == Asleep
    case LockReader => r.Passed? && lock == Free
    case Copy(_) => r.Holding?
    case Clear => r.Copied?
    case UnlockReader => r.Leaving?
  }

  /** Where the history so far allows a step. */
  predicate Allows(features: Features, delay: nat, steps: seq<Step>, readers: map<Pid, Reader>, step: Step) {
    var hw := VisibleSteps(steps);
    var timer, phase, lock := KeyTrace.TimerOf(delay, hw), PhaseOf(features.async, steps), LockOf(steps);
    match step
    case Edge => true
    case Tick => true
    case TakeIrq => KeyTrace.IrqOf(hw)
    case TaskletStart => KeyTrace.ScheduledOf(hw) && !KeyTrace.RunningOf(hw)
    case TaskletRun => KeyTrace.RunningOf(hw)
    case Expire => timer.Armed? && timer.deadline <= KeyTrace.NowOf(hw) && phase == Idle
    case LockHandler => phase == Entered && lock == Free
    case ReadGpio => phase == Locked
    case Store => phase.HasRead?
    case UnlockHandler => phase == Stored
    case Wake => phase == Unlocked
    case Signal => phase == BeforeSignal
    case BeginRead(p, nonblock) =>
      (p in readers ==> readers[p].Done? || readers[p].Again?) && (nonblock ==> features.nonblock)
    case Go(p, action) => p in readers && ReaderCan(readers[p], lock, action)
    case BeginPoll(p) =>
      features.nonblock && (PollerOf(steps, p).None? || PollerOf(steps, p).value.PollDone?)
    case TestPoll(p) => PollerOf(steps, p) == Some(PollQueued)
    case PollTimeout(p) => PollerOf(steps, p) == Some(PollAsleep)
    case Subscribe(_) => features.async
    case Unsubscribe(_) => features.async
  }

  /** The same of a state. */
  predicate AllowsNow(s: State, step: Step) {
    match step
    case Edge => true
    case Tick => true
    case TakeIrq => s.irq
    case TaskletStart => s.scheduled && !s.running
    case TaskletRun => s.running
    case Expire => s.timer.Armed? && s.timer.deadline <= s.now && s.phase == Idle
    case LockHandler => s.phase == Entered && s.lock == Free
    case ReadGpio => s.phase == Locked
    case Store => s.phase.HasRead?
    case UnlockHandler => s.phase == Stored
    case Wake => s.phase == Unlocked
    case Signal => s.phase == BeforeSignal
    case BeginRead(p, nonblock) =>
      (p in s.readers ==> s.readers[p].Done? || s.readers[p].Again?) && (nonblock ==> s.features.nonblock)
    case Go(p, action) => p in s.readers && ReaderCan(s.readers[p], s.lock, action)
    case BeginPoll(p) => s.features.nonblock && (p in s.pollers ==> s.pollers[p].PollDone?)
    case TestPoll(p) => p in s.pollers && s.pollers[p] == PollQueued
    case PollTimeout(p) => p in s.pollers && s.pollers[p] == PollAsleep
    case Subscribe(_) => s.features.async
    case Unsubscribe(_) => s.features.async
  }

  lemma MovePossible(p: Pid, r: Reader, lock: Lock, status: K.Status, h: K.History, action: Action)
    ensures Move(p, r, lock, status, h, action).Some? <==> ReaderCan(r, lock, action)
  {}

  lemma PossibleNow(s: State, step: Step)
    ensures Next(s, step).Some? <==> AllowsNow(s, step)
  {
    match step
    case Edge | Tick | TakeIrq | TaskletStart | TaskletRun | Expire => assert Next(s, step) == Hardware(s, step);
    case LockHandler | ReadGpio | Store | UnlockHandler | Wake | Signal => assert Next(s, step) == Callback(s, step);
    case BeginPoll(_) | TestPoll(_) | PollTimeout(_) => assert Next(s, step) == PollStep(s, step);
    case Subscribe(_) | Unsubscribe(_) =>
    case BeginRead(_, _) =>
    case Go(p, action) => if p in s.readers { MovePossible(p, s.readers[p], s.lock, s.status, s.h, action); }
  }

  lemma AllowsAsNow(features: Features, delay: nat, steps: seq<Step>, s: State, step: Step)
    requires Follows(s, features, delay, steps)
    ensures AllowsNow(s, step) <==> Allows(features, delay, steps, s.readers, step)
  {
    match step
    case BeginPoll(p) => assert FollowsPoller(s, steps, p);
    case TestPoll(p) => assert FollowsPoller(s, steps, p);
    case PollTimeout(p) => assert FollowsPoller(s, steps, p);
    case _ =>
  }

  /** A step is possible exactly there. */
  lemma StepPossible(features: Features, delay: nat, steps: seq<Step>, s: State, step: Step)
    requires Run(Next, Init(features, delay), steps) == Some(s)
    ensures Next(s, step).Some? <==> Allows(features, delay, steps, s.readers, step)
  {
    StateOfTrace(features, delay, steps, s);
    PossibleNow(s, step);
    AllowsAsNow(features, delay, steps, s, step);
  }
}
