/** The pipeline of the drivers with a wait queue never gets stuck, even behind readers that hold the
    lock, and what 13_irq guarantees carries over to them. */
module KeyProgress {
  import opened Runs
  import opened KeyWait
  import opened KeyRefinement
  import K = KeyIrq
  import KeyEvents
  import KeyReturns
  import KeySettling
  import KeyTiming

  // ----- the pipeline drains

  predicate IsPipeline(step: Step) {
    match step
    case TakeIrq | TaskletStart | TaskletRun | Expire => true
    case LockHandler | ReadGpio | Store | UnlockHandler | Wake | Signal => true
    case _ => false
  }

  function PhaseRank(phase: Phase): nat {
    match phase
    case Idle => 0
    case BeforeSignal => 1
    case Unlocked => 2
    case Stored => 3
    case HasRead(_, _) => 4
    case Locked => 5
    case Entered => 6
  }

  function Rank(s: State): nat {
    (if s.irq then 10 else 0) + (if s.scheduled then 9 else 0) + (if s.running then 8 else 0)
    + (if s.timer.Armed? then 7 else 0) + PhaseRank(s.phase)
  }

  predicate Quiet(s: State) {
    !s.irq && !s.scheduled && !s.running && s.timer.Unarmed? && s.phase.Idle?
  }

  lemma RankStep(s: State, step: Step)
    requires Next(s, step).Some? && step != Edge
    ensures Rank(Next(s, step).value) + (if IsPipeline(step) then 1 else 0) <= Rank(s)
  {
    match step
    case Edge | Tick | TakeIrq | TaskletStart | TaskletRun | Expire =>
    case LockHandler | ReadGpio | Store | UnlockHandler | Wake | Signal =>
    case BeginPoll(_) | TestPoll(_) | PollTimeout(_) =>
    case Subscribe(_) | Unsubscribe(_) =>
    case _ =>
  }

  /** While the pin is still, no run takes more than Rank(s), at most 40, pipeline steps, whatever the
      readers, pollers and subscribers do in between. */
  lemma BoundedDrain(s: State, steps: seq<Step>, t: State)
    requires Run(Next, s, steps) == Some(t)
    requires Edge !in steps
    ensures Rank(t) + Count(IsPipeline, steps) <= Rank(s) <= 40
    ensures Rank(t) == 0 <==> Quiet(t)
  {
    var allowed := (l: Step) => l != Edge;
    forall u, l | allowed(l) && Next(u, l).Some?
      ensures Rank(Next(u, l).value) + (if IsPipeline(l) then 1 else 0) <= Rank(u)
    {
      RankStep(u, l);
    }
    Potential(Next, allowed, IsPipeline, Rank, s, steps);
  }

  /** How far the reader in the critical section is from dropping the lock. */
  function LockRank(s: State): nat {
    if s.lock.ByReader? && s.lock.pid in s.readers
    then match s.readers[s.lock.pid] case Holding(_, _) => 3 case Copied(_, _, _) => 2 case _ => 1
    else 0
  }

  function TicksLeft(s: State): nat {
    if s.timer.Armed? && s.now < s.timer.deadline then s.timer.deadline - s.now else 0
  }

  /** The reader's next step towards dropping the lock; `fault` is what its copy will answer. */
  function UnlockingAction(r: Reader, fault: bool): Action {
    match r
    case Holding(_, _) => Copy(fault)
    case Copied(_, _, _) => Clear
    case _ => UnlockReader
  }

  function Scheduler(s: State, fault: bool): Step {
    match s.phase
    case Entered =>
      if s.lock.ByReader? && s.lock.pid in s.readers
      then Go(s.lock.pid, UnlockingAction(s.readers[s.lock.pid], fault))
      else LockHandler
    case Locked => ReadGpio
    case HasRead(_, _) => Store
    case Stored => UnlockHandler
    case Unlocked => Wake
    case BeforeSignal => Signal
    case Idle =>
      if s.irq then TakeIrq
      else if s.running then TaskletRun
      else if s.scheduled then TaskletStart
      else if s.timer.Armed? && s.timer.deadline <= s.now then Expire
      else Tick
  }

  lemma SchedulerBehindReader(s: State, fault: bool)
    requires Exclusive(s) && s.phase.Entered? && s.lock.ByReader?
    ensures Scheduler(s, fault) != Edge && Next(s, Scheduler(s, fault)).Some?
    ensures var t := Next(s, Scheduler(s, fault)).value; Rank(t) == Rank(s) && LockRank(t) < LockRank(s)
  {}

  lemma SchedulerOtherwise(s: State, fault: bool)
    requires Exclusive(s) && !Quiet(s) && !(s.phase.Entered? && s.lock.ByReader?)
    ensures Scheduler(s, fault) != Edge && Next(s, Scheduler(s, fault)).Some?
    ensures var t := Next(s, Scheduler(s, fault)).value;
            Rank(t) < Rank(s) || (Rank(t) == Rank(s) && LockRank(t) == LockRank(s) && TicksLeft(t) < TicksLeft(s))
  {}

  ghost predicate DrainsTo(s: State, steps: seq<Step>, t: State) {
    Edge !in steps && Run(Next, s, steps) == Some(t) && Quiet(t)
  }

  lemma {:induction false} DrainExists(s: State, fault: bool)
    requires Exclusive(s)
    ensures exists steps, t :: DrainsTo(s, steps, t)
    decreases Rank(s), LockRank(s), TicksLeft(s)
  {
    if Quiet(s) {
      assert DrainsTo(s, [], s);
    } else {
      var step := Scheduler(s, fault);
      if s.phase.Entered? && s.lock.ByReader? {
        SchedulerBehindReader(s, fault);
      } else {
        SchedulerOtherwise(s, fault);
      }
      ExclusiveStep(s, step);
      var u := Next(s, step).value;
      DrainExists(u, fault);
      var steps, t :| DrainsTo(u, steps, t);
      assert ([step] + steps)[1..] == steps;
      assert DrainsTo(s, [step] + steps, t);
    }
  }

  // ----- what 13_irq guarantees, for every driver

  function Owed(s: State): nat {
    KeySettling.Owed(ToKeyIrq(s))
  }

  lemma LiftedWithoutEdge(s: State, steps: seq<Step>)
    requires Edge !in steps
    ensures K.Edge !in Lifted(Next, KeyIrqStep, s, steps)
    decreases |steps|
  {
    if steps != [] && Next(s, steps[0]).Some? {
      assert steps[0] in steps;
      LiftedWithoutEdge(Next(s, steps[0]).value, steps[1..]);
    }
  }

  lemma SimulationFrom(s: State, steps: seq<Step>, t: State)
    requires Exclusive(s) && Run(Next, s, steps) == Some(t)
    ensures Run(K.Next, ToKeyIrq(s), Lifted(Next, KeyIrqStep, s, steps)) == Some(ToKeyIrq(t))
  {
    forall u, l | Exclusive(u) && Next(u, l).Some? ensures Exclusive(Next(u, l).value) { ExclusiveStep(u, l); }
    forall u, l | Exclusive(u) ensures StepSimulates(Next, K.Next, ToKeyIrq, KeyIrqStep, u, l) {
      KeyIrqSimulation(u, l);
    }
    Simulation(Next, Exclusive, K.Next, ToKeyIrq, KeyIrqStep, s, steps);
  }

  /** While the pin is still, at most the owed events follow; when the pipeline is empty exactly these
      have, and last_value is the pin level. */
  lemma Convergence(features: Features, delay: nat, before: seq<Step>, s: State, after: seq<Step>, t: State)
    requires Run(Next, Init(features, delay), before) == Some(s)
    requires Run(Next, s, after) == Some(t) && Edge !in after
    ensures |s.h.events| <= |t.h.events| <= |s.h.events| + Owed(s) <= |s.h.events| + 2
    ensures Owed(s) == 2 <==> s.phase.HasRead? && s.phase.cur != s.last && s.phase.cur != s.pin
    ensures Quiet(t) ==> t.last == t.pin == s.pin && |t.h.events| == |s.h.events| + Owed(s)
  {
    RefinesKeyIrq(features, delay, before, s);
    SimulationFrom(s, after, t);
    LiftedWithoutEdge(s, after);
    KeySettling.Convergence(delay, KeyIrqRun(features, delay, before), ToKeyIrq(s),
                            Lifted(Next, KeyIrqStep, s, after), ToKeyIrq(t));
  }

  /** From every reachable state the pipeline can run empty without a further edge, whatever the copies
      answer; then last_value is the pin level and exactly the owed events have been produced. */
  lemma Drain(features: Features, delay: nat, before: seq<Step>, s: State, fault: bool)
    requires Run(Next, Init(features, delay), before) == Some(s)
    ensures exists steps, t :: DrainsTo(s, steps, t) && t.last == s.pin
                               && |t.h.events| == |s.h.events| + Owed(s)
  {
    RefinesKeyIrq(features, delay, before, s);
    DrainExists(s, fault);
    var steps, t :| DrainsTo(s, steps, t);
    Convergence(features, delay, before, s, steps, t);
  }

  /** last_value lags behind the pin only while some stage of the pipeline before the store is busy. */
  lemma Settling(features: Features, delay: nat, steps: seq<Step>, s: State)
    requires Run(Next, Init(features, delay), steps) == Some(s)
    ensures s.last == s.pin || s.irq || s.scheduled || s.running || s.timer.Armed?
            || s.phase.Entered? || s.phase.Locked? || s.phase.HasRead?
  {
    RefinesKeyIrq(features, delay, steps, s);
    KeySettling.Settling(delay, KeyIrqRun(features, delay, steps), ToKeyIrq(s));
  }

  /** Stream and conservation of the events, for every driver: the serials delivered go up, so each event is
      delivered once, and the reads that returned an event are these deliveries one by one. */
  lemma DriverEvents(features: Features, delay: nat, steps: seq<Step>, s: State)
    requires Run(Next, Init(features, delay), steps) == Some(s)
    ensures KeyEvents.Changes(s.h.events, s.h.levels)
    ensures KeyEvents.Faithful(s.h.delivered, s.h.events)
    ensures KeyEvents.Partition(|s.h.events|, s.h.delivered, s.h.erased, KeyEvents.Pending(ToKeyIrq(s)))
    ensures KeyReturns.OneToOne(s.h.writes, KeyReturns.EventReturns(s.returned) + KeyReturns.AboutToReturn(s),
                                s.h.delivered)
  {
    RefinesKeyIrq(features, delay, steps, s);
    var run := KeyIrqRun(features, delay, steps);
    KeyEvents.EventStream(delay, run, ToKeyIrq(s));
    KeyEvents.ConservedRun(delay, run, ToKeyIrq(s));
    KeyReturns.ReturnsAreDeliveries(features, delay, steps, s);
  }

  /** The next write to the slot decides what becomes of an event, for every driver. */
  lemma DriverFate(features: Features, delay: nat, steps: seq<Step>, s: State, serial: nat)
    requires Run(Next, Init(features, delay), steps) == Some(s)
    requires serial < |s.h.events|
    ensures exists at :: KeyEvents.FateAt(ToKeyIrq(s), serial, at)
  {
    RefinesKeyIrq(features, delay, steps, s);
    KeyEvents.EventFate(delay, KeyIrqRun(features, delay, steps), ToKeyIrq(s), serial);
  }

  lemma TaskletProjects(s: State)
    requires Next(s, TaskletRun).Some?
    ensures KeyTiming.RanSince(ToKeyIrq(Next(s, TaskletRun).value), s.now)
  {}

  lemma ExpireProjects(s: State)
    requires Next(s, Expire).Some?
    ensures K.Next(ToKeyIrq(s), K.Expire).Some?
  {}

  /** Debouncing, for every driver. */
  lemma DriverDebounce(features: Features, delay: nat, before: seq<Step>, s: State, u: State,
                       between: seq<Step>, t: State)
    requires Run(Next, Init(features, delay), before) == Some(s)
    requires Next(s, TaskletRun) == Some(u) && Run(Next, u, between) == Some(t) && Next(t, Expire).Some?
    ensures s.now + delay <= t.now
  {
    RunSnoc(Next, Init(features, delay), before, TaskletRun);
    RunJoin(Next, Init(features, delay), before + [TaskletRun], u, between, t);
    RefinesKeyIrq(features, delay, before + [TaskletRun], u);
    RefinesKeyIrq(features, delay, before + [TaskletRun] + between, t);
    TaskletProjects(s);
    SimulationFrom(u, between, t);
    KeyTiming.RanSinceRun(ToKeyIrq(u), Lifted(Next, KeyIrqStep, u, between), s.now);
    ExpireProjects(t);
    KeyTiming.DueSince(delay, KeyIrqRun(features, delay, before + [TaskletRun] + between), ToKeyIrq(t), s.now);
  }

  /** The rate limit, and exactly when samples, stores and events exceed it, for every driver. */
  lemma DriverRate(features: Features, delay: nat, steps: seq<Step>, s: State, from: nat, to: nat)
    requires Run(Next, Init(features, delay), steps) == Some(s)
    requires 0 < delay && from <= to
    ensures var bound, h := (to - from) / delay + 1, s.h;
            && KeyTiming.CountIn(h.expiries, from, to) <= bound
            && KeyTiming.CountIn(h.sampled, from, to) <= bound + 1
            && KeyTiming.CountIn(h.eventTimes, from, to) <= KeyTiming.CountIn(h.stored, from, to) <= bound + 1
            && (KeyTiming.CountIn(h.sampled, from, to) <= bound <==>
                !KeyTiming.Overfull(h.expiries, h.sampled, delay, from, to))
            && (KeyTiming.CountIn(h.stored, from, to) <= bound <==>
                !KeyTiming.Overfull(h.expiries, h.stored, delay, from, to))
    ensures |s.h.levels| == |s.h.stored|
    ensures KeyTiming.CountIn(s.h.eventTimes, from, to) <= (to - from) / delay + 1 <==>
            !(KeyTiming.Overfull(s.h.expiries, s.h.stored, delay, from, to)
              && KeyTiming.CountIn(KeyTiming.IdleTimes(s.h.levels, s.h.stored), from, to) == 0)
  {
    RefinesKeyIrq(features, delay, steps, s);
    KeyTiming.RateBound(delay, KeyIrqRun(features, delay, steps), ToKeyIrq(s), from, to);
  }
}
