/** Each component of the LED timer on its own, told from the steps taken so far. */
module LedTrace {
  import opened Runs
  import opened LedTimer

  function NowOf(steps: seq<Step>): nat {
    if steps == [] then 0 else NowOf(Front(steps)) + if Final(steps).Tick? then 1 else 0
  }

  /** A command or the callback is on its way to mod_timer from its beginning to its mod_timer, and has read what it
      has read since. */
  function ArmingOf(jiffies: Conversion, steps: seq<Step>, w: Who): Option<Arming> {
    if steps == [] then None
    else
      var before := ArmingOf(jiffies, Front(steps), w);
      match Final(steps)
      case Toggle => if w == Callback then Some(Arming(None, None)) else before
      case OpenCmd(p) => if w == Process(p) then Some(Arming(None, None)) else before
      case SetPeriod(p, _) => if w == Process(p) then Some(Arming(None, None)) else before
      case ReadJiffies(v) =>
        if v == w && before.Some? then Some(Arming(Some(NowOf(Front(steps))), before.value.wait)) else before
      case ReadPeriod(v) =>
        if v == w && before.Some?
        then Some(Arming(before.value.at, Some(jiffies(PeriodInForce(Front(steps))))))
        else before
      case ModTimer(v) => if v == w then None else before
      case _ => before
  }

  /** Armed by the last mod_timer, unless it has expired or been stopped since: nothing else disarms it, opening the
      device and setting a period included. */
  function TimerOf(jiffies: Conversion, steps: seq<Step>): Timer {
    if steps == [] then Unarmed
    else
      match Final(steps)
      case ModTimer(w) =>
        (match ArmingOf(jiffies, Front(steps), w)
         case Some(Arming(Some(at), Some(wait))) => Armed(at, wait)
         case _ => Unarmed)
      case Expire | Stop | ReleaseDevice => Unarmed
      case _ => TimerOf(jiffies, Front(steps))
  }

  function PhaseOf(steps: seq<Step>): Phase {
    if steps == [] then Idle
    else
      match Final(steps)
      case Expire => Entered
      case Toggle => Toggled
      case ModTimer(w) => if w == Callback then Idle else PhaseOf(Front(steps))
      case _ => PhaseOf(Front(steps))
  }

  /** When the callbacks were entered. */
  function ExpiriesOf(steps: seq<Step>): seq<nat> {
    if steps == [] then []
    else ExpiriesOf(Front(steps)) + if Final(steps).Expire? then [NowOf(Front(steps))] else []
  }

  /** How the timer was armed for them. */
  function ArmingsOf(jiffies: Conversion, steps: seq<Step>): seq<Timer> {
    if steps == [] then []
    else ArmingsOf(jiffies, Front(steps)) + if Final(steps).Expire? then [TimerOf(jiffies, Front(steps))] else []
  }

  // ----- the machine follows its trace

  ghost predicate FollowsArming(s: State, jiffies: Conversion, steps: seq<Step>, w: Who) {
    (if w in s.arming then Some(s.arming[w]) else None) == ArmingOf(jiffies, steps, w)
  }

  ghost predicate FollowsTimer(s: State, jiffies: Conversion, steps: seq<Step>) {
    && PeriodIs(s, jiffies, steps)
    && s.now == NowOf(steps) && s.phase == PhaseOf(steps) && s.timer == TimerOf(jiffies, steps)
    && s.fired == ExpiriesOf(steps) && s.armings == ArmingsOf(jiffies, steps)
  }

  ghost predicate Follows(s: State, jiffies: Conversion, steps: seq<Step>) {
    && FollowsTimer(s, jiffies, steps)
    && (forall w :: FollowsArming(s, jiffies, steps, w))
  }

  lemma Snoc(past: seq<Step>, step: Step)
    ensures Front(past + [step]) == past && Final(past + [step]) == step
  {}

  lemma TimerFollows(s: State, jiffies: Conversion, past: seq<Step>, step: Step)
    requires Follows(s, jiffies, past) && Next(s, step).Some?
    ensures FollowsTimer(Next(s, step).value, jiffies, past + [step])
  {
    Snoc(past, step);
    PeriodStep(s, jiffies, past, step);
    if step.ModTimer? {
      assert FollowsArming(s, jiffies, past, step.who);
    }
  }

  lemma ArmingFollows(s: State, jiffies: Conversion, past: seq<Step>, step: Step, w: Who)
    requires FollowsTimer(s, jiffies, past) && FollowsArming(s, jiffies, past, w) && Next(s, step).Some?
    ensures FollowsArming(Next(s, step).value, jiffies, past + [step], w)
  {
    Snoc(past, step);
  }

  lemma FollowsStep(s: State, jiffies: Conversion, past: seq<Step>, step: Step)
    requires Follows(s, jiffies, past) && Next(s, step).Some?
    ensures Follows(Next(s, step).value, jiffies, past + [step])
  {
    TimerFollows(s, jiffies, past, step);
    forall w ensures FollowsArming(Next(s, step).value, jiffies, past + [step], w) {
      ArmingFollows(s, jiffies, past, step, w);
    }
  }

  /** In every run each component is what its own history says. */
  lemma StateOfTrace(jiffies: Conversion, steps: seq<Step>, s: State)
    requires Run(Next, Init(jiffies), steps) == Some(s)
    ensures Follows(s, jiffies, steps)
    ensures s.timeperiod == PeriodInForce(steps) && s.now == NowOf(steps)
    ensures s.timer == TimerOf(jiffies, steps) && s.phase == PhaseOf(steps)
    ensures s.fired == ExpiriesOf(steps) && s.armings == ArmingsOf(jiffies, steps)
    ensures forall w :: w in s.arming <==> ArmingOf(jiffies, steps, w).Some?
    ensures forall w :: w in s.arming ==> Some(s.arming[w]) == ArmingOf(jiffies, steps, w)
  {
    var follows := (t: State, past: seq<Step>) => Follows(t, jiffies, past);
    forall t, l, past | follows(t, past) && Next(t, l).Some? ensures follows(Next(t, l).value, past + [l]) {
      FollowsStep(t, jiffies, past, l);
    }
    TraceInvariant(Next, follows, Init(jiffies), [], steps);
    assert [] + steps == steps;
    forall w
      ensures w in s.arming <==> ArmingOf(jiffies, steps, w).Some?
      ensures w in s.arming ==> Some(s.arming[w]) == ArmingOf(jiffies, steps, w)
    {
      assert FollowsArming(s, jiffies, steps, w);
    }
  }

  /** Where the history so far allows a step: the clock and opens always; an expiry when the timer is due and no
      callback is under way; a command from a process that has none on its way; a stop when no callback is under way. */
  predicate Allows(jiffies: Conversion, steps: seq<Step>, step: Step) {
    match step
    case Tick => true
    case Expire =>
      var timer := TimerOf(jiffies, steps);
      timer.Armed? && timer.at + timer.wait <= NowOf(steps) && PhaseOf(steps) == Idle
    case Toggle => PhaseOf(steps) == Entered
    case OpenDevice => true
    case OpenCmd(p) => ArmingOf(jiffies, steps, Process(p)).None?
    case SetPeriod(p, _) => ArmingOf(jiffies, steps, Process(p)).None?
    case ReadJiffies(w) => ArmingOf(jiffies, steps, w).Some? && ArmingOf(jiffies, steps, w).value.at.None?
    case ReadPeriod(w) => ArmingOf(jiffies, steps, w).Some? && ArmingOf(jiffies, steps, w).value.wait.None?
    case ModTimer(w) =>
      var arming := ArmingOf(jiffies, steps, w);
      arming.Some? && arming.value.at.Some? && arming.value.wait.Some?
    case Stop => PhaseOf(steps) == Idle
    case ReleaseDevice => PhaseOf(steps) == Idle
  }

  lemma StepPossible(jiffies: Conversion, steps: seq<Step>, s: State, step: Step)
    requires Run(Next, Init(jiffies), steps) == Some(s)
    ensures Next(s, step).Some? <==> Allows(jiffies, steps, step)
  {
    StateOfTrace(jiffies, steps, s);
    match step
    case OpenCmd(p) => assert FollowsArming(s, jiffies, steps, Process(p));
    case SetPeriod(p, _) => assert FollowsArming(s, jiffies, steps, Process(p));
    case ReadJiffies(w) => assert FollowsArming(s, jiffies, steps, w);
    case ReadPeriod(w) => assert FollowsArming(s, jiffies, steps, w);
    case ModTimer(w) => assert FollowsArming(s, jiffies, steps, w);
    case _ =>
  }

  // ----- the LED goes on blinking

  /** The timer is armed, or its callback is under way to arm it. */
  predicate Blinking(s: State) {
    s.timer.Armed? || !s.phase.Idle?
  }

  lemma BlinkingStep(s: State, step: Step)
    requires Blinking(s) && step != Stop && step != ReleaseDevice && Next(s, step).Some?
    ensures Blinking(Next(s, step).value)
  {}

  /** From a mod_timer on, until CLOSE_CMD or release, the timer is armed or its callback under way, whatever is opened,
      set and read in between. */
  lemma KeepsBlinking(s: State, w: Who, u: State, steps: seq<Step>, t: State)
    requires Next(s, ModTimer(w)) == Some(u)
    requires Run(Next, u, steps) == Some(t) && Stop !in steps && ReleaseDevice !in steps
    ensures t.timer.Armed? || !t.phase.Idle?
  {
    var allowed := (l: Step) => l != Stop && l != ReleaseDevice;
    forall v, l | Blinking(v) && allowed(l) && Next(v, l).Some? ensures Blinking(Next(v, l).value) {
      BlinkingStep(v, l);
    }
    InvariantUnder(Next, allowed, Blinking, u, steps);
  }

  lemma CallbackFinishes(s: State) returns (steps: seq<Step>, t: State)
    requires s.phase.Toggled? && Callback in s.arming
    ensures Run(Next, s, steps) == Some(t)
    ensures t.phase.Idle? && t.timer.Armed? && t.values == s.values && t.sta == s.sta
  {
    var a, b := s, s;
    var first, second: seq<Step> := [], [];
    if s.arming[Callback].at.None? {
      first, a := [ReadJiffies(Callback)], Next(s, ReadJiffies(Callback)).value;
      RunOne(Next, s, ReadJiffies(Callback));
    }
    b := a;
    if a.arming[Callback].wait.None? {
      second, b := [ReadPeriod(Callback)], Next(a, ReadPeriod(Callback)).value;
      RunOne(Next, a, ReadPeriod(Callback));
    }
    RunJoinSnoc(Next, s, first, a, second, b, ModTimer(Callback));
    steps, t := first + second + [ModTimer(Callback)], Next(b, ModTimer(Callback)).value;
  }

  lemma CallbackBegins(s: State) returns (steps: seq<Step>, t: State)
    requires s.phase.Entered? || (s.timer.Armed? && s.phase.Idle?)
    ensures Run(Next, s, steps) == Some(t) && t.values == s.values + [1 - s.sta]
  {
    if s.phase.Entered? {
      steps := [Toggle];
      RunOne(Next, s, Toggle);
    } else {
      var due := s.timer.at + s.timer.wait;
      var n: nat := if due <= s.now then 0 else due - s.now;
      var ticks := seq(n, _ => Tick);
      Ticks(s, n);
      RunSnoc(Next, s, ticks, Expire);
      RunSnoc(Next, s, ticks + [Expire], Toggle);
      steps := ticks + [Expire] + [Toggle];
    }
    t := Run(Next, s, steps).value;
  }

  ghost predicate TogglesNext(s: State, steps: seq<Step>, t: State) {
    Run(Next, s, steps) == Some(t) && t.values == s.values + [1 - s.sta]
  }

  /** And it is never stuck: from every such state the run can go on to the next toggle. */
  lemma BlinksAgain(jiffies: Conversion, before: seq<Step>, s: State)
    requires Run(Next, Init(jiffies), before) == Some(s) && Blinking(s)
    ensures exists steps, t :: TogglesNext(s, steps, t)
  {
    NeverEarly(jiffies, before, s);
    if s.phase.Toggled? {
      var first, a := CallbackFinishes(s);
      var second, b := CallbackBegins(a);
      RunJoin(Next, s, first, a, second, b);
      assert TogglesNext(s, first + second, b);
    } else {
      var steps, t := CallbackBegins(s);
      assert TogglesNext(s, steps, t);
    }
  }
}
