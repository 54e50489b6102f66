/** Each component of the 13_irq machine on its own, told from the steps taken so far.  This is the reference for
    the machine: which steps set a component, which clear it, and which leave it alone. */
module KeyTrace {
  import opened Runs
  import opened KeyIrq

  /** Jiffies: the ticks. */
  function NowOf(steps: seq<Step>): nat {
    if steps == [] then 0 else NowOf(Front(steps)) + if Final(steps).Tick? then 1 else 0
  }

  /** The pin starts at 1, and each edge turns it over. */
  function PinOf(steps: seq<Step>): Level {
    if steps == [] then 1
    else if Final(steps).Edge? then (if PinOf(Front(steps)) == 0 then 1 else 0)
    else PinOf(Front(steps))
  }

  /** An edge has come since the interrupt was last taken. */
  predicate IrqOf(steps: seq<Step>) {
    steps != [] && (Final(steps).Edge? || (!Final(steps).TakeIrq? && IrqOf(Front(steps))))
  }

  /** An interrupt has been taken since the tasklet last left the queue. */
  predicate ScheduledOf(steps: seq<Step>) {
    steps != [] && (Final(steps).TakeIrq? || (!Final(steps).TaskletStart? && ScheduledOf(Front(steps))))
  }

  predicate RunningOf(steps: seq<Step>) {
    steps != [] && (Final(steps).TaskletStart? || (!Final(steps).TaskletRun? && RunningOf(Front(steps))))
  }

  /** Armed by the last tasklet run, for a delay after it, unless the timer has expired since. */
  function TimerOf(delay: nat, steps: seq<Step>): Timer {
    if steps == [] || Final(steps).Expire? then Unarmed
    else if Final(steps).TaskletRun? then Armed(NowOf(Front(steps)) + delay)
    else TimerOf(delay, Front(steps))
  }

  function HandlerOf(steps: seq<Step>): Handler {
    if steps == [] || Final(steps).Store? then Idle
    else if Final(steps).Expire? then Entered
    else if Final(steps).ReadGpio? then HasRead(PinOf(Front(steps)), NowOf(Front(steps)))
    else HandlerOf(Front(steps))
  }

  /** What the callback has read from the pin last. */
  function SampleOf(steps: seq<Step>): Level {
    if steps == [] then 1
    else if Final(steps).ReadGpio? then PinOf(Front(steps))
    else SampleOf(Front(steps))
  }

  /** last_value: the last sample stored. */
  function LastOf(steps: seq<Step>): Level {
    if steps == [] then 1
    else if Final(steps).Store? then SampleOf(Front(steps))
    else LastOf(Front(steps))
  }

  /** A press is a 0 that comes after a 1, a release a 1 that comes after a 0; a store of anything else, and a read
      that does not fail, leave nothing. */
  function StatusOf(steps: seq<Step>): Status {
    if steps == [] then KeyNone
    else
      match Final(steps)
      case Store =>
        var cur, before := SampleOf(Front(steps)), LastOf(Front(steps));
        if cur == 0 && before == 1 then KeyPress
        else if cur == 1 && before == 0 then KeyRelease
        else KeyNone
      case KeryRead(_, fault) => if fault then StatusOf(Front(steps)) else KeyNone
      case _ => StatusOf(Front(steps))
  }

  /** When the marked steps were taken. */
  function TimesOf(steps: seq<Step>, marked: Step -> bool): seq<nat> {
    if steps == [] then []
    else TimesOf(Front(steps), marked) + if marked(Final(steps)) then [NowOf(Front(steps))] else []
  }

  predicate IsExpiry(step: Step) {
    step.Expire?
  }

  predicate IsSample(step: Step) {
    step.ReadGpio?
  }

  predicate IsStore(step: Step) {
    step.Store?
  }

  // ----- the machine follows its trace

  ghost predicate FollowsHardware(s: State, delay: nat, steps: seq<Step>) {
    && s.delay == delay && s.now == NowOf(steps) && s.pin == PinOf(steps)
    && s.irq == IrqOf(steps) && s.scheduled == ScheduledOf(steps) && s.running == RunningOf(steps)
    && s.timer == TimerOf(delay, steps) && s.handler == HandlerOf(steps)
    && (s.handler.HasRead? ==> s.handler.cur == SampleOf(steps))
  }

  ghost predicate FollowsSlot(s: State, steps: seq<Step>) {
    s.last == LastOf(steps) && s.status == StatusOf(steps)
  }

  ghost predicate FollowsTimes(s: State, steps: seq<Step>) {
    && s.h.expiries == TimesOf(steps, IsExpiry)
    && s.h.stored == TimesOf(steps, IsStore)
    && s.h.sampled + (if s.handler.HasRead? then [s.handler.at] else []) == TimesOf(steps, IsSample)
  }

  ghost predicate Follows(s: State, delay: nat, steps: seq<Step>) {
    FollowsHardware(s, delay, steps) && FollowsSlot(s, steps) && FollowsTimes(s, steps)
  }

  lemma FollowsTimesStep(s: State, delay: nat, past: seq<Step>, step: Step)
    requires Follows(s, delay, past) && Next(s, step).Some?
    ensures FollowsTimes(Next(s, step).value, past + [step])
  {
    var all := past + [step];
    assert Front(all) == past && Final(all) == step;
    assert s.h.sampled + [] == s.h.sampled;
  }

  lemma FollowsStep(s: State, delay: nat, past: seq<Step>, step: Step)
    requires Follows(s, delay, past) && Next(s, step).Some?
    ensures Follows(Next(s, step).value, delay, past + [step])
  {
    var all := past + [step];
    assert Front(all) == past && Final(all) == step;
    assert FollowsHardware(Next(s, step).value, delay, all);
    assert FollowsSlot(Next(s, step).value, all);
    FollowsTimesStep(s, delay, past, step);
  }

  /** In every run each component is what its own history says. */
  lemma StateOfTrace(delay: nat, steps: seq<Step>, s: State)
    requires Run(Next, Init(delay), steps) == Some(s)
    ensures Follows(s, delay, steps)
  {
    var follows := (t: State, past: seq<Step>) => Follows(t, delay, past);
    forall t, l, past | follows(t, past) && Next(t, l).Some? ensures follows(Next(t, l).value, past + [l]) {
      FollowsStep(t, delay, past, l);
    }
    TraceInvariant(Next, follows, Init(delay), [], steps);
    assert [] + steps == steps;
  }

  /** And a step is possible exactly where the history so far allows it: edges and ticks always, an interrupt after an
      edge, the tasklet when it is queued and not running already, an expiry when the timer is due and no callback is
      under way, a read unless the callback is between its sample and its store. */
  lemma StepPossible(delay: nat, steps: seq<Step>, s: State, step: Step)
    requires Run(Next, Init(delay), steps) == Some(s)
    ensures Next(s, step).Some? <==>
            match step
            case Edge => true
            case Tick => true
            case TakeIrq => IrqOf(steps)
            case TaskletStart => ScheduledOf(steps) && !RunningOf(steps)
            case TaskletRun => RunningOf(steps)
            case Expire =>
              TimerOf(delay, steps).Armed? && TimerOf(delay, steps).deadline <= NowOf(steps) && HandlerOf(steps).Idle?
            case ReadGpio => HandlerOf(steps).Entered?
            case Store => HandlerOf(steps).HasRead?
            case KeryRead(_, _) => !HandlerOf(steps).HasRead?
  {
    StateOfTrace(delay, steps, s);
  }
}
