/** 16_fasync refines 15_noblockio, which refines 14_blockio, which refines 13_irq. */
module KeyRefinement {
  import opened Runs
  import opened KeyWait
  import K = KeyIrq

  // ----- the spinlock

  predicate InSection(r: Reader) {
    r.Holding? || r.Copied? || r.Leaving?
  }

  predicate HandlerInSection(phase: Phase) {
    phase.Locked? || phase.HasRead? || phase.Stored?
  }

  /** Whoever is in a critical section holds the lock; a copied status is still the one in the slot. */
  ghost predicate Exclusive(s: State) {
    && (s.lock.ByHandler? <==> HandlerInSection(s.phase))
    && (forall p :: p in s.readers ==> (InSection(s.readers[p]) <==> s.lock == ByReader(p)))
    && (s.lock.ByReader? ==> s.lock.pid in s.readers)
    && (forall p :: p in s.readers && s.readers[p].Copied? ==> s.readers[p].value == s.status)
  }

  lemma ExclusiveWake(s: State)
    requires Exclusive(s) && s.phase.Unlocked?
    ensures Exclusive(Callback(s, Wake).value)
  {
    var t := Callback(s, Wake).value;
    assert t.readers.Keys == s.readers.Keys;
    forall p | p in t.readers ensures t.readers[p] == WokenReader(s.readers[p]) {}
  }

  lemma ExclusiveCallback(s: State, step: Step)
    requires Exclusive(s) && Callback(s, step).Some?
    ensures Exclusive(Callback(s, step).value)
  {
    if step.Wake? {
      ExclusiveWake(s);
    }
  }

  /** One reader moves, and takes, keeps or drops only its own hold of the lock. */
  lemma ExclusiveAt(s: State, t: State, p: Pid, r: Reader)
    requires Exclusive(s)
    requires t.readers == s.readers[p := r] && t.phase == s.phase
    requires InSection(r) <==> t.lock == ByReader(p)
    requires t.lock == s.lock || (s.lock.Free? && t.lock == ByReader(p)) || (s.lock == ByReader(p) && t.lock.Free?)
    requires t.status == s.status || s.lock == ByReader(p)
    requires r.Copied? ==> r.value == t.status
    ensures Exclusive(t)
  {}

  lemma ExclusiveMove(p: Pid, r: Reader, lock: Lock, status: K.Status, h: K.History, action: Action)
    requires Move(p, r, lock, status, h, action).Some?
    requires InSection(r) <==> lock == ByReader(p)
    requires r.Copied? ==> r.value == status
    ensures var m := Move(p, r, lock, status, h, action).value;
            && (InSection(m.reader) <==> m.lock == ByReader(p))
            && (m.lock == lock || (lock.Free? && m.lock == ByReader(p)) || (lock == ByReader(p) && m.lock.Free?))
            && (m.status == status || lock == ByReader(p))
            && (m.reader.Copied? ==> m.reader.value == m.status)
  {}

  lemma ExclusiveRead(s: State, step: Step)
    requires Exclusive(s) && ReadStep(s, step).Some?
    ensures Exclusive(ReadStep(s, step).value)
  {
    var p, t := step.pid, ReadStep(s, step).value;
    if step.Go? {
      ExclusiveMove(p, s.readers[p], s.lock, s.status, s.h, step.action);
    }
    ExclusiveAt(s, t, p, t.readers[p]);
  }

  lemma ExclusiveStep(s: State, step: Step)
    requires Exclusive(s) && Next(s, step).Some?
    ensures Exclusive(Next(s, step).value)
  {
    match step
    case LockHandler | ReadGpio | Store | UnlockHandler | Wake | Signal => ExclusiveCallback(s, step);
    case Edge | Tick | TakeIrq | TaskletStart | TaskletRun | Expire =>
    case BeginPoll(_) | TestPoll(_) | PollTimeout(_) =>
    case Subscribe(_) | Unsubscribe(_) =>
    case _ => ExclusiveRead(s, step);
  }

  /** At most one of the callback and the readers is in its critical section. */
  lemma MutualExclusion(features: Features, delay: nat, steps: seq<Step>, s: State)
    requires Run(Next, Init(features, delay), steps) == Some(s)
    ensures forall p, q :: p in s.readers && q in s.readers ==>
              InSection(s.readers[p]) && InSection(s.readers[q]) ==> p == q
    ensures HandlerInSection(s.phase) ==> forall p :: p in s.readers ==> !InSection(s.readers[p])
  {
    forall t, l | Exclusive(t) && Next(t, l).Some? ensures Exclusive(Next(t, l).value) { ExclusiveStep(t, l); }
    Invariant(Next, Exclusive, Init(features, delay), steps);
  }

  // ----- onto 13_irq

  function HandlerOf(phase: Phase): K.Handler {
    match phase
    case Entered | Locked => K.Entered
    case HasRead(cur, at) => K.HasRead(cur, at)
    case _ => K.Idle
  }

  function ToKeyIrq(s: State): K.State {
    K.State(s.delay, s.now, s.pin, s.irq, s.scheduled, s.running, s.timer, HandlerOf(s.phase),
            s.last, s.status, s.h)
  }

  /** Taking and leaving the lock, testing, sleeping, waking and signalling are invisible to 13_irq; a
      read is its critical section. */
  function Visible(step: Step): Option<K.Step> {
    match step
    case Edge => Some(K.Edge)
    case Tick => Some(K.Tick)
    case TakeIrq => Some(K.TakeIrq)
    case TaskletStart => Some(K.TaskletStart)
    case TaskletRun => Some(K.TaskletRun)
    case Expire => Some(K.Expire)
    case ReadGpio => Some(K.ReadGpio)
    case Store => Some(K.Store)
    case Go(p, Copy(fault)) => if fault then Some(K.KeryRead(p, true)) else None
    case Go(p, Clear) => Some(K.KeryRead(p, false))
    case _ => None
  }

  function KeyIrqStep(s: State, step: Step): Option<K.Step> {
    Visible(step)
  }

  lemma KeyIrqSimulationHardware(s: State, step: Step)
    ensures StepSimulates(Hardware, K.Next, ToKeyIrq, KeyIrqStep, s, step)
  {}

  lemma KeyIrqSimulationCallback(s: State, step: Step)
    ensures StepSimulates(Callback, K.Next, ToKeyIrq, KeyIrqStep, s, step)
  {}

  lemma MoveOnSlot(p: Pid, r: Reader, lock: Lock, status: K.Status, h: K.History, action: Action)
    requires Move(p, r, lock, status, h, action).Some?
    ensures var m := Move(p, r, lock, status, h, action).value;
            if action.Clear? then m.status == K.KeyNone && m.h == K.RecordClear(h, status, p)
            else m.status == status && m.h == h
    ensures action.Clear? || action.Copy? ==> InSection(r)
  {}

  lemma KeyIrqSimulationRead(s: State, p: Pid, action: Action)
    requires Exclusive(s) && Next(s, Go(p, action)).Some?
    ensures StepSimulates(Next, K.Next, ToKeyIrq, KeyIrqStep, s, Go(p, action))
  {
    MoveOnSlot(p, s.readers[p], s.lock, s.status, s.h, action);
    if action.Clear? || action.Copy? {
      assert s.lock == ByReader(p);
      assert !HandlerOf(s.phase).HasRead?;
    }
  }

  lemma KeyIrqSimulation(s: State, step: Step)
    requires Exclusive(s)
    ensures StepSimulates(Next, K.Next, ToKeyIrq, KeyIrqStep, s, step)
  {
    match step
    case Edge | Tick | TakeIrq | TaskletStart | TaskletRun | Expire => KeyIrqSimulationHardware(s, step);
    case LockHandler | ReadGpio | Store | UnlockHandler | Wake | Signal => KeyIrqSimulationCallback(s, step);
    case BeginPoll(_) | TestPoll(_) | PollTimeout(_) =>
    case Subscribe(_) | Unsubscribe(_) =>
    case BeginRead(_, _) =>
    case Go(p, action) => if Next(s, step).Some? { KeyIrqSimulationRead(s, p, action); }
  }

  /** The 13_irq run that a run of one of the other drivers performs. */
  function KeyIrqRun(features: Features, delay: nat, steps: seq<Step>): seq<K.Step> {
    Lifted(Next, KeyIrqStep, Init(features, delay), steps)
  }

  /** Every run of blockio, noblockio and fasync is a run of keyirq, with the same pin, tasklet, timer,
      last_value and status at the end and the same history of samples, events and deliveries. */
  lemma RefinesKeyIrq(features: Features, delay: nat, steps: seq<Step>, s: State)
    requires Run(Next, Init(features, delay), steps) == Some(s)
    ensures Run(K.Next, K.Init(delay), KeyIrqRun(features, delay, steps)) == Some(ToKeyIrq(s))
    ensures Exclusive(s)
  {
    forall t, l | Exclusive(t) && Next(t, l).Some? ensures Exclusive(Next(t, l).value) { ExclusiveStep(t, l); }
    forall t, l | Exclusive(t) ensures StepSimulates(Next, K.Next, ToKeyIrq, KeyIrqStep, t, l) {
      KeyIrqSimulation(t, l);
    }
    Simulation(Next, Exclusive, K.Next, ToKeyIrq, KeyIrqStep, Init(features, delay), steps);
    Invariant(Next, Exclusive, Init(features, delay), steps);
  }

  // ----- 16_fasync onto 15_noblockio

  /** Without the async list the callback ends where it would signal. */
  function ToNoblockio(s: State): State {
    s.(features := NOBLOCKIO, phase := if s.phase.BeforeSignal? then Idle else s.phase,
       async := map[], kills := 0)
  }

  function NoblockioStep(s: State, step: Step): Option<Step> {
    match step
    case Signal => None
    case Subscribe(_) | Unsubscribe(_) => None
    case _ => Some(step)
  }

  predicate IsFasync(s: State) {
    s.features == FASYNC
  }

  lemma NoblockioCallback(s: State, step: Step)
    requires IsFasync(s) && Callback(s, step).Some?
    ensures var t := Callback(s, step).value;
            && IsFasync(t)
            && (if step.Signal? then ToNoblockio(t) == ToNoblockio(s)
                else Callback(ToNoblockio(s), step) == Some(ToNoblockio(t)))
  {}

  lemma NoblockioHardware(s: State, step: Step)
    requires IsFasync(s) && Hardware(s, step).Some?
    ensures var t := Hardware(s, step).value;
            IsFasync(t) && Hardware(ToNoblockio(s), step) == Some(ToNoblockio(t))
  {}

  lemma NoblockioRead(s: State, step: Step)
    requires IsFasync(s) && ReadStep(s, step).Some?
    ensures var t := ReadStep(s, step).value;
            IsFasync(t) && ReadStep(ToNoblockio(s), step) == Some(ToNoblockio(t))
  {}

  lemma NoblockioSimulation(s: State, step: Step)
    requires IsFasync(s)
    ensures StepSimulates(Next, Next, ToNoblockio, NoblockioStep, s, step)
    ensures Next(s, step).Some? ==> IsFasync(Next(s, step).value)
  {
    if Next(s, step).Some? {
      match step
      case Edge | Tick | TakeIrq | TaskletStart | TaskletRun | Expire => NoblockioHardware(s, step);
      case LockHandler | ReadGpio | Store | UnlockHandler | Wake | Signal => NoblockioCallback(s, step);
      case BeginPoll(_) | TestPoll(_) | PollTimeout(_) =>
      case Subscribe(_) | Unsubscribe(_) =>
      case _ => NoblockioRead(s, step);
    }
  }

  /** Every fasync run is a noblockio run once signals and subscriptions are forgotten. */
  lemma FasyncRefinesNoblockio(delay: nat, steps: seq<Step>, s: State)
    requires Run(Next, Init(FASYNC, delay), steps) == Some(s)
    ensures Run(Next, Init(NOBLOCKIO, delay), Lifted(Next, NoblockioStep, Init(FASYNC, delay), steps))
            == Some(ToNoblockio(s))
  {
    forall t, l | IsFasync(t) && Next(t, l).Some? ensures IsFasync(Next(t, l).value) { NoblockioSimulation(t, l); }
    forall t, l | IsFasync(t) ensures StepSimulates(Next, Next, ToNoblockio, NoblockioStep, t, l) {
      NoblockioSimulation(t, l);
    }
    Simulation(Next, IsFasync, Next, ToNoblockio, NoblockioStep, Init(FASYNC, delay), steps);
  }

  // ----- 15_noblockio onto 14_blockio

  /** A read that would have returned -EAGAIN is, for blockio, one that has not started yet. */
  function Blocking(r: Reader): Reader {
    match r
    case Start(_) => Start(false)
    case Again => Start(false)
    case _ => r
  }

  function ToBlockio(s: State): State {
    s.(features := BLOCKIO, readers := map p | p in s.readers :: Blocking(s.readers[p]), pollers := map[])
  }

  function BlockioStep(s: State, step: Step): Option<Step> {
    match step
    case BeginRead(p, _) =>
      if p in s.readers && s.readers[p].Again? then None else Some(BeginRead(p, false))
    case Go(p, Test) =>
      if p in s.readers && s.readers[p] == Start(true) && s.status == K.KeyNone then None else Some(step)
    case BeginPoll(_) | TestPoll(_) | PollTimeout(_) => None
    case _ => Some(step)
  }

  predicate IsNoblockio(s: State) {
    s.features == NOBLOCKIO
  }

  lemma BlockioHardware(s: State, step: Step)
    requires IsNoblockio(s) && Hardware(s, step).Some?
    ensures var t := Hardware(s, step).value;
            IsNoblockio(t) && Hardware(ToBlockio(s), step) == Some(ToBlockio(t))
  {}

  lemma BlockioCallback(s: State, step: Step)
    requires IsNoblockio(s) && Callback(s, step).Some? && !step.Wake?
    ensures var t := Callback(s, step).value;
            IsNoblockio(t) && Callback(ToBlockio(s), step) == Some(ToBlockio(t))
  {}

  lemma BlockioSimulationWake(s: State)
    requires IsNoblockio(s) && s.phase.Unlocked?
    ensures StepSimulates(Next, Next, ToBlockio, BlockioStep, s, Wake)
  {
    var t := Next(s, Wake).value;
    forall p | p in s.readers ensures Blocking(WokenReader(s.readers[p])) == WokenReader(Blocking(s.readers[p])) {}
    assert ToBlockio(t).readers == Next(ToBlockio(s), Wake).value.readers;
  }

  lemma BlockioBegin(s: State, p: Pid, nonblock: bool)
    requires IsNoblockio(s) && ReadStep(s, BeginRead(p, nonblock)).Some?
    ensures var t := ReadStep(s, BeginRead(p, nonblock)).value;
            if p in s.readers && s.readers[p].Again? then ToBlockio(t) == ToBlockio(s)
            else ReadStep(ToBlockio(s), BeginRead(p, false)) == Some(ToBlockio(t))
  {
    var t := ReadStep(s, BeginRead(p, nonblock)).value;
    assert ToBlockio(t).readers == ToBlockio(s).readers[p := Start(false)];
    if p in s.readers && s.readers[p].Again? {
      assert ToBlockio(s).readers[p] == Start(false);
      assert ToBlockio(s).readers[p := Start(false)] == ToBlockio(s).readers;
    }
  }

  lemma BlockioSimulationBegin(s: State, p: Pid, nonblock: bool)
    requires IsNoblockio(s) && Next(s, BeginRead(p, nonblock)).Some?
    ensures StepSimulates(Next, Next, ToBlockio, BlockioStep, s, BeginRead(p, nonblock))
  {
    BlockioBegin(s, p, nonblock);
  }

  /** A blocking reader and its blockio image make the same moves. */
  lemma BlockingMove(p: Pid, r: Reader, lock: Lock, status: K.Status, h: K.History, action: Action)
    requires Move(p, r, lock, status, h, action).Some?
    ensures var m := Move(p, r, lock, status, h, action).value;
            if action.Test? && r == Start(true) && status == K.KeyNone
            then m == Moved(Again, lock, status, h)
            else Move(p, Blocking(r), lock, status, h, action) == Some(m.(reader := Blocking(m.reader)))
  {}

  lemma BlockioSimulationGo(s: State, p: Pid, action: Action)
    requires IsNoblockio(s) && Next(s, Go(p, action)).Some?
    ensures StepSimulates(Next, Next, ToBlockio, BlockioStep, s, Go(p, action))
  {
    var t := Next(s, Go(p, action)).value;
    BlockingMove(p, s.readers[p], s.lock, s.status, s.h, action);
    assert ToBlockio(t).readers == ToBlockio(s).readers[p := Blocking(t.readers[p])];
    if BlockioStep(s, Go(p, action)).None? {
      assert ToBlockio(s).readers[p := Start(false)] == ToBlockio(s).readers;
    }
  }

  lemma BlockioSimulation(s: State, step: Step)
    requires IsNoblockio(s)
    ensures StepSimulates(Next, Next, ToBlockio, BlockioStep, s, step)
    ensures Next(s, step).Some? ==> IsNoblockio(Next(s, step).value)
  {
    if Next(s, step).Some? {
      match step
      case Edge | Tick | TakeIrq | TaskletStart | TaskletRun | Expire => BlockioHardware(s, step);
      case LockHandler | ReadGpio | Store | UnlockHandler | Signal => BlockioCallback(s, step);
      case Wake => BlockioSimulationWake(s);
      case BeginPoll(_) | TestPoll(_) | PollTimeout(_) =>
      case Subscribe(_) | Unsubscribe(_) =>
      case BeginRead(p, nonblock) => BlockioSimulationBegin(s, p, nonblock);
      case Go(p, action) => BlockioSimulationGo(s, p, action);
    }
  }

  /** Every noblockio run is a blockio run once polls are forgotten and reads that end in -EAGAIN are
      taken for reads that have not started. */
  lemma NoblockioRefinesBlockio(delay: nat, steps: seq<Step>, s: State)
    requires Run(Next, Init(NOBLOCKIO, delay), steps) == Some(s)
    ensures Run(Next, Init(BLOCKIO, delay), Lifted(Next, BlockioStep, Init(NOBLOCKIO, delay), steps))
            == Some(ToBlockio(s))
  {
    forall t, l | IsNoblockio(t) && Next(t, l).Some? ensures IsNoblockio(Next(t, l).value) {
      BlockioSimulation(t, l);
    }
    forall t, l | IsNoblockio(t) ensures StepSimulates(Next, Next, ToBlockio, BlockioStep, t, l) {
      BlockioSimulation(t, l);
    }
    assert ToBlockio(Init(NOBLOCKIO, delay)) == Init(BLOCKIO, delay);
    Simulation(Next, IsNoblockio, Next, ToBlockio, BlockioStep, Init(NOBLOCKIO, delay), steps);
  }

  function NoblockioRun(delay: nat, steps: seq<Step>): seq<Step> {
    Lifted(Next, NoblockioStep, Init(FASYNC, delay), steps)
  }

  function BlockioRun(delay: nat, steps: seq<Step>): seq<Step> {
    Lifted(Next, BlockioStep, Init(NOBLOCKIO, delay), steps)
  }

  lemma FasyncSameKeyIrqRun(delay: nat, steps: seq<Step>)
    requires Run(Next, Init(FASYNC, delay), steps).Some?
    ensures KeyIrqRun(FASYNC, delay, steps) == KeyIrqRun(NOBLOCKIO, delay, NoblockioRun(delay, steps))
  {
    forall t, l | IsFasync(t) && Next(t, l).Some? ensures IsFasync(Next(t, l).value) { NoblockioSimulation(t, l); }
    forall t, l | IsFasync(t) ensures StepSimulates(Next, Next, ToNoblockio, NoblockioStep, t, l) {
      NoblockioSimulation(t, l);
    }
    LiftedTwice(Next, IsFasync, Next, ToNoblockio, NoblockioStep, KeyIrqStep, KeyIrqStep, Init(FASYNC, delay), steps);
  }

  lemma NoblockioSameKeyIrqRun(delay: nat, steps: seq<Step>)
    requires Run(Next, Init(NOBLOCKIO, delay), steps).Some?
    ensures KeyIrqRun(NOBLOCKIO, delay, steps) == KeyIrqRun(BLOCKIO, delay, BlockioRun(delay, steps))
  {
    forall t, l | IsNoblockio(t) && Next(t, l).Some? ensures IsNoblockio(Next(t, l).value) {
      BlockioSimulation(t, l);
    }
    forall t, l | IsNoblockio(t) ensures StepSimulates(Next, Next, ToBlockio, BlockioStep, t, l) {
      BlockioSimulation(t, l);
    }
    assert ToBlockio(Init(NOBLOCKIO, delay)) == Init(BLOCKIO, delay);
    LiftedTwice(Next, IsNoblockio, Next, ToBlockio, BlockioStep, KeyIrqStep, KeyIrqStep, Init(NOBLOCKIO, delay), steps);
  }

  /** The chain commutes: a fasync run performs, step by step, the keyirq run that its noblockio image
      performs, and that the blockio image of this one performs, and all end in the same keyirq state. */
  lemma ChainCommutes(delay: nat, steps: seq<Step>, s: State)
    requires Run(Next, Init(FASYNC, delay), steps) == Some(s)
    ensures var n := NoblockioRun(delay, steps);
            var b := BlockioRun(delay, n);
            && Run(Next, Init(BLOCKIO, delay), b) == Some(ToBlockio(ToNoblockio(s)))
            && KeyIrqRun(FASYNC, delay, steps) == KeyIrqRun(NOBLOCKIO, delay, n) == KeyIrqRun(BLOCKIO, delay, b)
            && ToKeyIrq(ToBlockio(ToNoblockio(s))) == ToKeyIrq(ToNoblockio(s)) == ToKeyIrq(s)
  {
    FasyncRefinesNoblockio(delay, steps, s);
    FasyncSameKeyIrqRun(delay, steps);
    var n := NoblockioRun(delay, steps);
    NoblockioRefinesBlockio(delay, n, ToNoblockio(s));
    NoblockioSameKeyIrqRun(delay, n);
  }
}
