/** The pipeline from pin edge to last_value: where it comes to rest, how many steps it takes, and how
    many events it still owes. */
module KeySettling {
  import opened Runs
  import opened KeyIrq

  // ----- settling

  /** Some stage of the pipeline has yet to look at the pin, or has just read its present level. */
  ghost predicate Settled(s: State) {
    || s.irq || s.scheduled || s.running || s.timer.Armed?
    || match s.handler
       case Entered => true
       case HasRead(cur, _) => cur == s.pin
       case Idle => s.last == s.pin
  }

  predicate Quiet(s: State) {
    !s.irq && !s.scheduled && !s.running && s.timer.Unarmed? && s.handler.Idle?
  }

  lemma SettledRun(delay: nat, steps: seq<Step>, s: State)
    requires Run(Next, Init(delay), steps) == Some(s)
    ensures Settled(s)
  {
    Invariant(Next, Settled, Init(delay), steps);
  }

  /** last_value is the pin level, unless an edge's interrupt is still latched, the tasklet is
      scheduled or running, the timer is armed, or a callback has been entered and has not stored its
      sample; and a callback holding an outdated sample is always followed by another one. */
  lemma Settling(delay: nat, steps: seq<Step>, s: State)
    requires Run(Next, Init(delay), steps) == Some(s)
    ensures s.last == s.pin || s.irq || s.scheduled || s.running || s.timer.Armed? || !s.handler.Idle?
    ensures s.handler.HasRead? && s.handler.cur != s.pin ==>
              s.irq || s.scheduled || s.running || s.timer.Armed?
  {
    SettledRun(delay, steps, s);
  }

  // ----- how many events are still to come once the pin is still

  function Differ(a: Level, b: Level): nat {
    if a == b then 0 else 1
  }

  /** The events the pipeline will still produce if the pin never changes again. */
  function Owed(s: State): nat {
    match s.handler
    case HasRead(cur, _) => Differ(s.last, cur) + Differ(cur, s.pin)
    case _ => Differ(s.last, s.pin)
  }

  lemma OwedStep(s: State, step: Step)
    requires Next(s, step).Some?
    ensures var t := Next(s, step).value;
            && s.h.events <= t.h.events
            && (step != Edge ==> t.pin == s.pin && |t.h.events| + Owed(t) == |s.h.events| + Owed(s))
  {}

  /** While the pin is still, events produced plus events owed stay the same, whatever else happens. */
  lemma EventsOwed(s: State, steps: seq<Step>, t: State)
    requires Run(Next, s, steps) == Some(t)
    requires Edge !in steps
    ensures |t.h.events| + Owed(t) == |s.h.events| + Owed(s)
    ensures s.h.events <= t.h.events && t.pin == s.pin
  {
    var allowed := (l: Step) => l != Edge;
    var kept := (u: State) =>
      |u.h.events| + Owed(u) == |s.h.events| + Owed(s) && s.h.events <= u.h.events && u.pin == s.pin;
    forall u, l | kept(u) && allowed(l) && Next(u, l).Some? ensures kept(Next(u, l).value) { OwedStep(u, l); }
    InvariantUnder(Next, allowed, kept, s, steps);
  }

  /** Once the pin stops changing at most two more events come, and at most one unless the callback
      was caught between its read of the pin and its store with a level that was new and has become
      outdated.  When the pipeline is empty, exactly the owed ones have come and last_value is right. */
  lemma Convergence(delay: nat, before: seq<Step>, s: State, after: seq<Step>, t: State)
    requires Run(Next, Init(delay), before) == Some(s)
    requires Run(Next, s, after) == Some(t) && Edge !in after
    ensures |s.h.events| <= |t.h.events| <= |s.h.events| + Owed(s) <= |s.h.events| + 2
    ensures Owed(s) == 2 <==> s.handler.HasRead? && s.handler.cur != s.last && s.handler.cur != s.pin
    ensures Quiet(t) ==> t.last == t.pin == s.pin && |t.h.events| == |s.h.events| + Owed(s)
  {
    EventsOwed(s, after, t);
    RunConcat(Next, Init(delay), before, after);
    SettledRun(delay, before + after, t);
  }

  // ----- the pipeline drains

  predicate IsPipeline(step: Step) {
    !step.Edge? && !step.Tick? && !step.KeryRead?
  }

  /** How many pipeline steps can be left. */
  function Rank(s: State): nat {
    (if s.irq then 6 else 0) + (if s.scheduled then 5 else 0) + (if s.running then 4 else 0)
    + (if s.timer.Armed? then 3 else 0)
    + (match s.handler case Idle => 0 case Entered => 2 case HasRead(_, _) => 1)
  }

  lemma RankStep(s: State, step: Step)
    requires Next(s, step).Some? && step != Edge
    ensures Rank(Next(s, step).value) + (if IsPipeline(step) then 1 else 0) <= Rank(s)
  {}

  /** While the pin is still, no run takes more than Rank(s), at most 20, pipeline steps, however many
      reads and clock ticks come between; and the rank is used up exactly when the pipeline is empty. */
  lemma BoundedDrain(s: State, steps: seq<Step>, t: State)
    requires Run(Next, s, steps) == Some(t)
    requires Edge !in steps
    ensures Rank(t) + Count(IsPipeline, steps) <= Rank(s) <= 20
    ensures Rank(t) == 0 <==> Quiet(t)
  {
    var allowed := (l: Step) => l != Edge;
    forall u, l | allowed(l) && Next(u, l).Some?
      ensures Rank(Next(u, l).value) + (if IsPipeline(l) then 1 else 0) <= Rank(u)
    {
      RankStep(u, l);
    }
    Potential(Next, allowed, IsPipeline, Rank, s, steps);
  }

  function TicksLeft(s: State): nat {
    if s.timer.Armed? && s.now < s.timer.deadline then s.timer.deadline - s.now else 0
  }

  /** A step to take next: the first pipeline stage that can move, or else the clock. */
  function Scheduler(s: State): Step {
    if s.irq then TakeIrq
    else if s.handler.Entered? then ReadGpio
    else if s.handler.HasRead? then Store
    else if s.running then TaskletRun
    else if s.scheduled then TaskletStart
    else if s.timer.Armed? && s.timer.deadline <= s.now then Expire
    else Tick
  }

  /** Unless it is empty the pipeline is never stuck: one of its stages can move, or it only waits for
      the clock to reach the timer's deadline. */
  lemma SchedulerProgress(s: State)
    requires !Quiet(s)
    ensures Scheduler(s) != Edge && Next(s, Scheduler(s)).Some?
    ensures var t := Next(s, Scheduler(s)).value;
            Rank(t) < Rank(s) || (Rank(t) == Rank(s) && TicksLeft(t) < TicksLeft(s))
  {}

  ghost predicate DrainsTo(s: State, steps: seq<Step>, t: State) {
    Edge !in steps && Run(Next, s, steps) == Some(t) && Quiet(t)
  }

  lemma {:induction false} DrainExists(s: State)
    ensures exists steps, t :: DrainsTo(s, steps, t)
    decreases Rank(s), TicksLeft(s)
  {
    if Quiet(s) {
      assert DrainsTo(s, [], s);
    } else {
      SchedulerProgress(s);
      var u := Next(s, Scheduler(s)).value;
      DrainExists(u);
      var steps, t :| DrainsTo(u, steps, t);
      var all := [Scheduler(s)] + steps;
      assert all[1..] == steps;
      assert DrainsTo(s, all, t);
    }
  }

  /** From every reachable state the pipeline can run empty without a further edge, and then last_value
      is the pin level and exactly the owed events have been produced. */
  lemma Drain(delay: nat, before: seq<Step>, s: State)
    requires Run(Next, Init(delay), before) == Some(s)
    ensures exists steps, t :: DrainsTo(s, steps, t) && t.last == s.pin
                               && |t.h.events| == |s.h.events| + Owed(s)
  {
    DrainExists(s);
    var steps, t :| DrainsTo(s, steps, t);
    Convergence(delay, before, s, steps, t);
  }
}
