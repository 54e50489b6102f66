/** The blinking LED (12_timer/timer.c): a timer whose callback toggles the LED and arms itself again, and
    the ioctl commands that start, stop and retime it.

    Whoever arms the timer, a command or the callback, first reads jiffies and the period and only then calls
    mod_timer; the clock, the callback and other commands can move in between. */
module LedTimer {
  import opened CInts
  import opened Runs

  type Level = n: int | n == 0 || n == 1 witness 1

  type Pid = nat

  const CLOSE_CMD := 0xEF01
  const OPEN_CMD := 0xEF02
  const SETPERIOD_CMD := 0xEF03

  /** msecs_to_jiffies, as the kernel was configured. */
  type Conversion = int -> nat

  /** Armed with the sum of the two values read before. */
  datatype Timer = Unarmed | Armed(at: nat, wait: nat)

  datatype Phase = Idle | Entered | Toggled

  /** Who is on the way to mod_timer, and what it has read so far: jiffies, and the period in jiffies. */
  datatype Who = Callback | Process(pid: Pid)

  datatype Arming = Arming(at: Option<nat>, wait: Option<nat>)

  const NOTHING_READ := Arming(None, None)

  datatype State = State(
    jiffies: Conversion,
    now: nat,
    timeperiod: int,
    timer: Timer,
    phase: Phase,             // of the callback
    sta: Level,
    arming: map<Who, Arming>,
    fired: seq<nat>,          // when each callback was entered
    armings: seq<Timer>,      // and how the timer had been armed for it
    values: seq<Level>)       // what the callbacks wrote to the LED

  function Init(jiffies: Conversion): State {
    State(jiffies, 0, 0, Unarmed, Idle, 1, map[], [], [], [])
  }

  datatype Step =
    | Tick
    | Expire
    | Toggle
    | OpenDevice
    | OpenCmd(pid: Pid)
    | SetPeriod(pid: Pid, arg: nat)
    | ReadJiffies(who: Who)
    | ReadPeriod(who: Who)
    | ModTimer(who: Who)
    | Stop
    | ReleaseDevice

  function Next(s: State, step: Step): Option<State> {
    match step
    case Tick => Some(s.(now := s.now + 1))
    case Expire =>
      if s.timer.Armed? && s.timer.at + s.timer.wait <= s.now && s.phase.Idle?
      then Some(s.(timer := Unarmed, phase := Entered, fired := s.fired + [s.now], armings := s.armings + [s.timer]))
      else None
    case Toggle =>
      if s.phase.Entered?
      then Some(s.(phase := Toggled, sta := 1 - s.sta, values := s.values + [1 - s.sta],
                   arming := s.arming[Callback := NOTHING_READ]))
      else None
    case OpenDevice => Some(s.(timeperiod := 1000))
    case OpenCmd(p) =>
      if Process(p) in s.arming then None else Some(s.(arming := s.arming[Process(p) := NOTHING_READ]))
    case SetPeriod(p, arg) =>
      if Process(p) in s.arming then None
      else Some(s.(timeperiod := S32(arg), arming := s.arming[Process(p) := NOTHING_READ]))
    case ReadJiffies(w) =>
      if w in s.arming && s.arming[w].at.None?
      then Some(s.(arming := s.arming[w := s.arming[w].(at := Some(s.now))]))
      else None
    case ReadPeriod(w) =>
      if w in s.arming && s.arming[w].wait.None?
      then Some(s.(arming := s.arming[w := s.arming[w].(wait := Some(s.jiffies(s.timeperiod)))]))
      else None
    case ModTimer(w) =>
      if w in s.arming && s.arming[w].at.Some? && s.arming[w].wait.Some?
      then Some(s.(timer := Armed(s.arming[w].at.value, s.arming[w].wait.value), arming := s.arming - {w},
                   phase := if w.Callback? then Idle else s.phase))
      else None
    case Stop | ReleaseDevice =>
      // del_timer_sync waits for a running callback, which may have armed the timer again
      if s.phase.Idle? then Some(s.(timer := Unarmed)) else None
  }

  // ----- alternation

  ghost predicate Alternating(s: State) {
    && s.sta == (if |s.values| % 2 == 0 then 1 else 0)
    && (forall i :: 0 <= i < |s.values| ==> s.values[i] == if i % 2 == 0 then 0 else 1)
    && |s.values| == |s.fired| - (if s.phase.Entered? then 1 else 0)
    && (s.phase.Toggled? <==> Callback in s.arming)
  }

  lemma AlternatingStep(s: State, step: Step)
    requires Alternating(s) && Next(s, step).Some?
    ensures Alternating(Next(s, step).value)
  {}

  /** Over the whole life of the module the callbacks write 0, 1, 0, 1, ..., whoever opens, retimes,
      stops or restarts the timer in between; every entered callback writes once. */
  lemma Alternation(jiffies: Conversion, steps: seq<Step>, s: State)
    requires Run(Next, Init(jiffies), steps) == Some(s)
    ensures forall i :: 0 <= i < |s.values| ==> s.values[i] == if i % 2 == 0 then 0 else 1
    ensures |s.fired| - 1 <= |s.values| <= |s.fired|
    ensures s.phase != Entered ==> |s.values| == |s.fired|
  {
    forall t, l | Alternating(t) && Next(t, l).Some? ensures Alternating(Next(t, l).value) { AlternatingStep(t, l); }
    Invariant(Next, Alternating, Init(jiffies), steps);
  }

  // ----- no callback before it is due

  ghost predicate Sound(s: State) {
    && |s.armings| == |s.fired|
    && (forall k :: 0 <= k < |s.fired| ==>
          s.armings[k].Armed? && s.armings[k].at + s.armings[k].wait <= s.fired[k] <= s.now)
    && (s.timer.Armed? ==> s.timer.at <= s.now)
    && (forall w :: w in s.arming && s.arming[w].at.Some? ==> s.arming[w].at.value <= s.now)
    && (s.phase.Toggled? <==> Callback in s.arming)
  }

  lemma SoundStep(s: State, step: Step)
    requires Sound(s) && Next(s, step).Some?
    ensures Sound(Next(s, step).value)
  {}

  /** Every callback, in any run, is entered no earlier than one period after the value of jiffies that the timer
      was armed with, period and jiffies being those that whoever armed it had read. */
  lemma NeverEarly(jiffies: Conversion, steps: seq<Step>, s: State)
    requires Run(Next, Init(jiffies), steps) == Some(s)
    ensures Sound(s)
    ensures |s.armings| == |s.fired|
    ensures forall k :: 0 <= k < |s.fired| ==>
              s.armings[k].Armed? && s.armings[k].at + s.armings[k].wait <= s.fired[k]
  {
    forall t, l | Sound(t) && Next(t, l).Some? ensures Sound(Next(t, l).value) { SoundStep(t, l); }
    Invariant(Next, Sound, Init(jiffies), steps);
  }

  // ----- the period

  /** The period in force: a second since the last open, or what the last SETPERIOD_CMD asked for. */
  function PeriodInForce(steps: seq<Step>): int {
    if steps == [] then 0
    else match steps[|steps| - 1]
      case OpenDevice => 1000
      case SetPeriod(_, arg) => S32(arg)
      case _ => PeriodInForce(steps[..|steps| - 1])
  }

  ghost predicate PeriodIs(s: State, jiffies: Conversion, steps: seq<Step>) {
    s.timeperiod == PeriodInForce(steps) && s.jiffies == jiffies
  }

  lemma PeriodStep(s: State, jiffies: Conversion, past: seq<Step>, step: Step)
    requires PeriodIs(s, jiffies, past) && Next(s, step).Some?
    ensures PeriodIs(Next(s, step).value, jiffies, past + [step])
  {
    assert (past + [step])[..|past|] == past;
  }

  lemma PeriodKept(jiffies: Conversion, steps: seq<Step>, s: State)
    requires Run(Next, Init(jiffies), steps) == Some(s)
    ensures PeriodIs(s, jiffies, steps)
  {
    var kept := (t: State, past: seq<Step>) => PeriodIs(t, jiffies, past);
    forall t, l, past | kept(t, past) && Next(t, l).Some? ensures kept(Next(t, l).value, past + [l]) {
      PeriodStep(t, jiffies, past, l);
    }
    TraceInvariant(Next, kept, Init(jiffies), [], steps);
    assert [] + steps == steps;
  }

  /** Whenever a command or the callback reads the period, it is at least m. */
  ghost predicate PeriodsAtLeast(jiffies: Conversion, steps: seq<Step>, m: nat) {
    forall k :: 0 <= k < |steps| && steps[k].ReadPeriod? ==> m <= jiffies(PeriodInForce(steps[..k]))
  }

  ghost predicate WaitsAtLeast(s: State, m: nat) {
    && (forall k :: 0 <= k < |s.armings| && s.armings[k].Armed? ==> m <= s.armings[k].wait)
    && (s.timer.Armed? ==> m <= s.timer.wait)
    && (forall w :: w in s.arming && s.arming[w].wait.Some? ==> m <= s.arming[w].wait.value)
  }

  lemma WaitsStep(s: State, step: Step, m: nat)
    requires WaitsAtLeast(s, m) && Next(s, step).Some?
    requires step.ReadPeriod? ==> m <= s.jiffies(s.timeperiod)
    ensures WaitsAtLeast(Next(s, step).value, m)
  {}

  ghost predicate WaitsAfter(s: State, jiffies: Conversion, past: seq<Step>, m: nat) {
    PeriodIs(s, jiffies, past) && (PeriodsAtLeast(jiffies, past, m) ==> WaitsAtLeast(s, m))
  }

  lemma WaitsAfterStep(s: State, jiffies: Conversion, past: seq<Step>, step: Step, m: nat)
    requires WaitsAfter(s, jiffies, past, m) && Next(s, step).Some?
    ensures WaitsAfter(Next(s, step).value, jiffies, past + [step], m)
  {
    PeriodStep(s, jiffies, past, step);
    var all := past + [step];
    assert all[..|past|] == past;
    if PeriodsAtLeast(jiffies, all, m) {
      forall k | 0 <= k < |past| ensures past[..k] == all[..k] && past[k] == all[k] {}
      assert PeriodsAtLeast(jiffies, past, m);
      WaitsStep(s, step, m);
    }
  }

  lemma WaitsRun(jiffies: Conversion, steps: seq<Step>, s: State, m: nat)
    requires Run(Next, Init(jiffies), steps) == Some(s)
    requires PeriodsAtLeast(jiffies, steps, m)
    ensures WaitsAtLeast(s, m)
  {
    var waits := (t: State, past: seq<Step>) => WaitsAfter(t, jiffies, past, m);
    forall t, l, past | waits(t, past) && Next(t, l).Some? ensures waits(Next(t, l).value, past + [l]) {
      WaitsAfterStep(t, jiffies, past, l, m);
    }
    TraceInvariant(Next, waits, Init(jiffies), [], steps);
    assert [] + steps == steps;
  }

  // ----- the timer as a rate limit

  /** Somebody on the way to mod_timer has read jiffies, and jiffies has moved on since. */
  ghost predicate Stale(s: State) {
    exists w :: w in s.arming && s.arming[w].at.Some? && s.arming[w].at.value < s.now
  }

  /** No callback is entered while somebody holds a stale value of jiffies. */
  ghost predicate FreshExpiries(jiffies: Conversion, steps: seq<Step>) {
    forall k :: 0 <= k < |steps| && steps[k] == Expire ==>
                  match Run(Next, Init(jiffies), steps[..k]) case None => true case Some(t) => !Stale(t)
  }

  /** The callback in front of number k was entered at t or before. */
  ghost predicate Precedes(fired: seq<nat>, k: nat, t: nat)
    requires 0 < k <= |fired|
  {
    fired[k - 1] <= t
  }

  /** No callback was armed, or will be by what has been read, with a value of jiffies from before the callback in
      front of it was entered. */
  ghost predicate Gapped(s: State) {
    var n := |s.fired|;
    && (forall k :: 0 < k < n && k < |s.armings| && s.armings[k].Armed? ==> Precedes(s.fired, k, s.armings[k].at))
    && (n > 0 && s.timer.Armed? ==> Precedes(s.fired, n, s.timer.at))
    && (n > 0 ==> forall w :: w in s.arming && s.arming[w].at.Some? ==> Precedes(s.fired, n, s.arming[w].at.value))
  }

  lemma GappedExpire(s: State)
    requires Sound(s) && Gapped(s) && Next(s, Expire).Some? && !Stale(s)
    ensures Gapped(Next(s, Expire).value)
  {
    var t, n := Next(s, Expire).value, |s.fired|;
    forall k | 0 < k <= n ensures t.armings[k].Armed? ==> Precedes(t.fired, k, t.armings[k].at) {
      if k < n {
        assert s.armings[k].Armed? ==> Precedes(s.fired, k, s.armings[k].at);
      }
    }
  }

  lemma GappedStep(s: State, step: Step)
    requires Sound(s) && Gapped(s) && Next(s, step).Some?
    requires step.Expire? ==> !Stale(s)
    ensures Gapped(Next(s, step).value)
  {
    if step.Expire? {
      GappedExpire(s);
    }
  }

  lemma {:induction false} GappedRun(jiffies: Conversion, steps: seq<Step>, s: State)
    requires Run(Next, Init(jiffies), steps) == Some(s)
    requires FreshExpiries(jiffies, steps)
    ensures Sound(s) && Gapped(s)
    decreases |steps|
  {
    if steps != [] {
      var k := |steps| - 1;
      var before := steps[..k];
      assert steps == before + [steps[k]];
      RunAt(Next, Init(jiffies), steps, k);
      var t := Run(Next, Init(jiffies), before).value;
      forall i | 0 <= i < k ensures before[..i] == steps[..i] && before[i] == steps[i] {}
      GappedRun(jiffies, before, t);
      RunSnoc(Next, Init(jiffies), before, steps[k]);
      GappedStep(t, steps[k]);
      SoundStep(t, steps[k]);
    }
  }

  /** Callback number k came at least m after the one in front of it. */
  ghost predicate GapAt(fired: seq<nat>, k: nat, m: nat)
    requires 0 < k < |fired|
  {
    fired[k - 1] + m <= fired[k]
  }

  lemma {:induction false} GapsAdd(fired: seq<nat>, m: nat, i: nat, j: nat)
    requires forall k :: 0 < k < |fired| ==> GapAt(fired, k, m)
    requires i <= j < |fired|
    ensures fired[i] + (j - i) * m <= fired[j]
    decreases j
  {
    if i < j {
      GapsAdd(fired, m, i, j - 1);
      assert GapAt(fired, j, m);
      assert (j - i) * m == (j - 1 - i) * m + m;
    }
  }

  /** Whatever commands start, stop and retime the timer: as long as no callback is entered while a command stands,
      with a value of jiffies that has passed, before its mod_timer, each callback comes at least the period it was
      armed with after the one before, and callbacks n apart at least n times the shortest period ever read. */
  lemma CallbacksSpaced(jiffies: Conversion, steps: seq<Step>, s: State, m: nat, i: nat, j: nat)
    requires Run(Next, Init(jiffies), steps) == Some(s)
    requires FreshExpiries(jiffies, steps)
    requires PeriodsAtLeast(jiffies, steps, m)
    requires i <= j < |s.fired|
    ensures |s.armings| == |s.fired|
    ensures forall k :: 0 < k < |s.fired| ==> s.armings[k].Armed? && GapAt(s.fired, k, s.armings[k].wait)
    ensures s.fired[i] + (j - i) * m <= s.fired[j]
  {
    GappedRun(jiffies, steps, s);
    WaitsRun(jiffies, steps, s, m);
    forall k | 0 < k < |s.fired|
      ensures s.armings[k].Armed? && GapAt(s.fired, k, s.armings[k].wait) && GapAt(s.fired, k, m)
    {
      assert Precedes(s.fired, k, s.armings[k].at);
    }
    GapsAdd(s.fired, m, i, j);
  }

  // ----- the condition is needed

  function ArmSteps(w: Who): seq<Step> {
    [ReadJiffies(w), ReadPeriod(w)] + [ModTimer(w)]
  }

  /** From the first read to mod_timer, undisturbed. */
  function AfterArm(s: State, w: Who): State {
    s.(timer := Armed(s.now, s.jiffies(s.timeperiod)), arming := s.arming - {w},
       phase := if w.Callback? then Idle else s.phase)
  }

  lemma ArmRun(s: State, w: Who)
    requires w in s.arming && s.arming[w] == NOTHING_READ
    ensures Run(Next, s, ArmSteps(w)) == Some(AfterArm(s, w))
  {
    var a := s.(arming := s.arming[w := Arming(Some(s.now), None)]);
    var b := a.(arming := a.arming[w := Arming(Some(s.now), Some(s.jiffies(s.timeperiod)))]);
    RunTwo(Next, s, ReadJiffies(w), a, ReadPeriod(w), b);
    RunSnoc(Next, s, [ReadJiffies(w), ReadPeriod(w)], ModTimer(w));
    assert b.arming - {w} == s.arming - {w};
  }

  const CALLBACK_STEPS: seq<Step> := [Expire, Toggle] + ArmSteps(Callback)

  /** A whole callback, undisturbed. */
  function AfterCallback(s: State): State {
    s.(timer := Armed(s.now, s.jiffies(s.timeperiod)), sta := 1 - s.sta, values := s.values + [1 - s.sta],
       fired := s.fired + [s.now], armings := s.armings + [s.timer])
  }

  lemma CallbackRun(s: State)
    requires s.timer.Armed? && s.timer.at + s.timer.wait <= s.now && s.phase.Idle? && Callback !in s.arming
    ensures Run(Next, s, CALLBACK_STEPS) == Some(AfterCallback(s))
  {
    var a := s.(timer := Unarmed, phase := Entered, fired := s.fired + [s.now], armings := s.armings + [s.timer]);
    var b := a.(phase := Toggled, sta := 1 - s.sta, values := s.values + [1 - s.sta],
                arming := s.arming[Callback := NOTHING_READ]);
    RunTwo(Next, s, Expire, a, Toggle, b);
    ArmRun(b, Callback);
    assert b.arming - {Callback} == s.arming;
    RunJoin(Next, s, [Expire, Toggle], b, ArmSteps(Callback), AfterCallback(s));
  }

  lemma {:induction false} Ticks(s: State, n: nat)
    ensures Run(Next, s, seq(n, _ => Tick)) == Some(s.(now := s.now + n))
    decreases n
  {
    if n > 0 {
      var ticks := seq(n, _ => Tick);
      assert ticks[1..] == seq(n - 1, _ => Tick);
      Ticks(s.(now := s.now + 1), n - 1);
    }
  }

  /** The period that a process on its way to mod_timer arms with: what it has read, or is about to read. */
  function WaitOf(s: State, a: Arming): nat {
    if a.wait.Some? then a.wait.value else s.jiffies(s.timeperiod)
  }

  /** A process that has read jiffies comes to its mod_timer, and the clock to its deadline. */
  lemma LateArm(s: State, p: Pid, at: nat) returns (steps: seq<Step>, t: State)
    requires Process(p) in s.arming && s.arming[Process(p)].at == Some(at) && s.phase.Idle?
    ensures Run(Next, s, steps) == Some(t)
    ensures var wait := WaitOf(s, s.arming[Process(p)]);
            && t.timer == Armed(at, wait) && t.phase.Idle? && t.fired == s.fired && t.armings == s.armings
            && t.now == if at + wait <= s.now then s.now else at + wait
  {
    var w := Process(p);
    var wait := WaitOf(s, s.arming[w]);
    var a := s.(arming := s.arming[w := Arming(Some(at), Some(wait))]);
    var read: seq<Step> := if s.arming[w].wait.Some? then [] else [ReadPeriod(w)];
    if s.arming[w].wait.Some? {
      assert a.arming == s.arming;
    } else {
      RunOne(Next, s, ReadPeriod(w));
    }
    var b := Next(a, ModTimer(w)).value;
    RunSnoc(Next, s, read, ModTimer(w));
    var n: nat := if at + wait <= s.now then 0 else at + wait - s.now;
    Ticks(b, n);
    t := b.(now := b.now + n);
    steps := read + [ModTimer(w)] + seq(n, _ => Tick);
    RunJoin(Next, s, read + [ModTimer(w)], b, seq(n, _ => Tick), t);
  }

  /** Callback number n + 1 of t came sooner after number n than the period it was armed with. */
  ghost predicate ShortGap(t: State, n: nat) {
    && n + 1 < |t.fired| == |t.armings|
    && t.armings[n + 1].Armed? && !GapAt(t.fired, n + 1, t.armings[n + 1].wait)
  }

  lemma ShortExpiry(s: State, n: nat)
    requires |s.fired| == |s.armings| == n + 1 && s.phase.Idle? && s.timer.Armed?
    requires s.timer.at + s.timer.wait <= s.now < s.fired[n] + s.timer.wait
    ensures Next(s, Expire).Some? && ShortGap(Next(s, Expire).value, n)
  {}

  /** Wherever a callback is entered while a process holds a stale value of jiffies, and will arm with a period that
      is not zero, the run can go on so that the next callback comes too soon. */
  lemma StaleExpiryShortensGap(s: State, p: Pid)
    requires Sound(s) && Next(s, Expire).Some?
    requires Process(p) in s.arming && s.arming[Process(p)].at.Some? && s.arming[Process(p)].at.value < s.now
    requires WaitOf(s, s.arming[Process(p)]) > 0
    ensures exists late, t :: Run(Next, s, CALLBACK_STEPS + late + [Expire]) == Some(t) && ShortGap(t, |s.fired|)
  {
    CallbackRun(s);
    var a := AfterCallback(s);
    var late, b := LateArm(a, p, s.arming[Process(p)].at.value);
    ShortExpiry(b, |s.fired|);
    RunJoinSnoc(Next, s, CALLBACK_STEPS, a, late, b, Expire);
  }

  function Always(wait: nat): Conversion {
    _ => wait
  }

  ghost predicate RunsToShortGap(jiffies: Conversion, steps: seq<Step>, t: State, n: nat) {
    Run(Next, Init(jiffies), steps) == Some(t) && ShortGap(t, n)
  }

  /** A process that calls OPEN_CMD at 0 and again at 1, and has then read jiffies but not more at 2. */
  lemma OpenTwice() returns (steps: seq<Step>, s: State)
    ensures Run(Next, Init(Always(2)), steps) == Some(s)
    ensures s == Init(Always(2)).(now := 2, timer := Armed(0, 2), arming := map[Process(1) := Arming(Some(1), None)])
  {
    var init, w := Init(Always(2)), Process(1);
    var a := init.(arming := map[w := NOTHING_READ]);
    RunOne(Next, init, OpenCmd(1));
    ArmRun(a, w);
    var b := AfterArm(a, w);
    RunJoin(Next, init, [OpenCmd(1)], a, ArmSteps(w), b);
    assert b.arming == map[];
    var c := b.(now := 1);
    var d := c.(arming := map[w := NOTHING_READ]);
    var e := d.(arming := map[w := Arming(Some(1), None)]);
    s := e.(now := 2);
    assert c.arming[w := NOTHING_READ] == d.arming && d.arming[w := Arming(Some(1), None)] == e.arming;
    RunFour(Next, b, Tick, c, OpenCmd(1), d, ReadJiffies(w), e, Tick, s);
    steps := [OpenCmd(1)] + ArmSteps(w) + [Tick, OpenCmd(1), ReadJiffies(w), Tick];
    RunJoin(Next, init, [OpenCmd(1)] + ArmSteps(w), b, [Tick, OpenCmd(1), ReadJiffies(w), Tick], s);
  }

  /** And it does happen: with a period of two jiffies throughout, a second OPEN_CMD reads jiffies one jiffy before
      the callback that the first has armed. */
  lemma GapsCanShrink()
    ensures exists steps, t, n :: RunsToShortGap(Always(2), steps, t, n)
  {
    var steps, s := OpenTwice();
    StaleExpiryShortensGap(s, 1);
    var late, t :| Run(Next, s, CALLBACK_STEPS + late + [Expire]) == Some(t) && ShortGap(t, |s.fired|);
    RunJoin(Next, Init(Always(2)), steps, s, CALLBACK_STEPS + late + [Expire], t);
    assert RunsToShortGap(Always(2), steps + (CALLBACK_STEPS + late + [Expire]), t, |s.fired|);
  }

  // ----- pace

  /** Nobody else arms the timer or changes the period. */
  predicate Undisturbed(step: Step) {
    !(step.ModTimer? && step.who.Process?) && !step.SetPeriod? && !step.OpenDevice?
  }

  /** n callbacks after `base` have been entered, the k-th no earlier than start + k * period. */
  ghost predicate Paced(s: State, base: nat, start: nat, period: nat) {
    var n := |s.fired| - base;
    && n >= 0
    && s.jiffies(s.timeperiod) >= period
    && (forall k :: 1 <= k <= n ==> s.fired[base + k - 1] >= start + k * period)
    && (s.timer.Armed? ==> s.timer.at + s.timer.wait >= start + (n + 1) * period)
    && s.now >= start + n * period
    && (Callback in s.arming && s.arming[Callback].at.Some? ==> s.arming[Callback].at.value >= start + n * period)
    && (Callback in s.arming && s.arming[Callback].wait.Some? ==> s.arming[Callback].wait.value >= period)
  }

  lemma PacedStep(s: State, step: Step, base: nat, start: nat, period: nat)
    requires Paced(s, base, start, period) && (s.phase.Toggled? <==> Callback in s.arming)
    requires Undisturbed(step) && Next(s, step).Some?
    ensures Paced(Next(s, step).value, base, start, period)
    ensures var t := Next(s, step).value; t.phase.Toggled? <==> Callback in t.arming
  {
    var n := |s.fired| - base;
    assert (n + 1) * period == n * period + period;
  }

  lemma PacedRun(s: State, base: nat, start: nat, period: nat, steps: seq<Step>, t: State)
    requires Paced(s, base, start, period) && (s.phase.Toggled? <==> Callback in s.arming)
    requires Run(Next, s, steps) == Some(t)
    requires forall step :: step in steps ==> Undisturbed(step)
    ensures Paced(t, base, start, period)
  {
    var paced := (u: State) => Paced(u, base, start, period) && (u.phase.Toggled? <==> Callback in u.arming);
    forall u, l | paced(u) && Undisturbed(l) && Next(u, l).Some? ensures paced(Next(u, l).value) {
      PacedStep(u, l, base, start, period);
    }
    InvariantUnder(Next, Undisturbed, paced, s, steps);
  }

  /** The callback on its way to mod_timer, if it has read jiffies or the period already, has read no less. */
  ghost predicate CallbackNoEarlier(s: State, start: nat, period: nat) {
    Callback in s.arming ==>
      && (s.arming[Callback].at.Some? ==> start <= s.arming[Callback].at.value)
      && (s.arming[Callback].wait.Some? ==> period <= s.arming[Callback].wait.value)
  }

  /** Armed by a command that read jiffies at t0, after any run, and then left alone, the timer enters its n-th
      callback after the mod_timer no earlier than t0 plus n periods: the period that the command read, if it is
      still in force, otherwise the shorter of the two.  A callback that is itself between its reads and its
      mod_timer just then arms last, so t0 and the period are bounded by what it has read, too. */
  lemma PaceFromCommand(jiffies: Conversion, before: seq<Step>, s: State, p: Pid, after: seq<Step>, t: State,
                        start: nat, period: nat)
    requires Run(Next, Init(jiffies), before) == Some(s)
    requires Run(Next, s, [ModTimer(Process(p))] + after) == Some(t)
    requires forall step :: step in after ==> Undisturbed(step)
    requires Process(p) in s.arming && s.arming[Process(p)].at.Some? && s.arming[Process(p)].wait.Some?
    requires start <= s.arming[Process(p)].at.value
    requires period <= s.arming[Process(p)].wait.value && period <= jiffies(PeriodInForce(before))
    requires CallbackNoEarlier(s, start, period)
    ensures |s.fired| <= |t.fired|
    ensures forall n :: 1 <= n <= |t.fired| - |s.fired| ==> t.fired[|s.fired| + n - 1] >= start + n * period
  {
    PeriodKept(jiffies, before, s);
    NeverEarly(jiffies, before, s);
    var steps := [ModTimer(Process(p))] + after;
    assert steps[0] == ModTimer(Process(p)) && steps[1..] == after;
    var u := Next(s, ModTimer(Process(p))).value;
    PacedRun(u, |s.fired|, start, period, after, t);
  }

  // ----- stopping

  /** The timer is off and the callbacks have written just these values. */
  ghost predicate StoppedAt(s: State, fired: seq<nat>, values: seq<Level>) {
    s.timer.Unarmed? && s.phase.Idle? && s.fired == fired && s.values == values
  }

  lemma StoppedStep(s: State, step: Step, fired: seq<nat>, values: seq<Level>)
    requires StoppedAt(s, fired, values) && !step.ModTimer? && Next(s, step).Some?
    ensures StoppedAt(Next(s, step).value, fired, values)
  {}

  /** Once CLOSE_CMD or release has completed no callback is entered and nothing is written until an OPEN_CMD or a
      SETPERIOD_CMD, begun before or after, comes to its mod_timer; the clock, opens, further stops, new periods and
      commands on their way do not. */
  lemma StaysStopped(s: State, stop: Step, u: State, steps: seq<Step>, t: State)
    requires stop.Stop? || stop.ReleaseDevice?
    requires Next(s, stop) == Some(u)
    requires Run(Next, u, steps) == Some(t)
    requires forall step :: step in steps ==> !step.ModTimer?
    ensures t.timer.Unarmed? && t.phase.Idle? && t.fired == s.fired && t.values == s.values
  {
    var allowed := (l: Step) => !l.ModTimer?;
    var still := (v: State) => StoppedAt(v, s.fired, s.values);
    forall v, l | still(v) && allowed(l) && Next(v, l).Some? ensures still(Next(v, l).value) {
      StoppedStep(v, l, s.fired, s.values);
    }
    InvariantUnder(Next, allowed, still, u, steps);
  }

  // ----- the device data in place

  function IoctlSteps(p: Pid, cmd: int, arg: nat): seq<Step> {
    if cmd == 0xEF01 then [Stop]
    else if cmd == 0xEF02 then [OpenCmd(p)] + ArmSteps(Process(p))
    else if cmd == 0xEF03 then [SetPeriod(p, arg)] + ArmSteps(Process(p))
    else []
  }

  class TimerDev {
    const jiffies: Conversion
    var now: nat
    var timeperiod: int
    var timer: Timer
    var phase: Phase
    var sta: Level
    var arming: map<Who, Arming>
    ghost var fired: seq<nat>
    ghost var armings: seq<Timer>
    ghost var values: seq<Level>

    ghost function View(): State
      reads this
    {
      State(jiffies, now, timeperiod, timer, phase, sta, arming, fired, armings, values)
    }

    constructor (jiffies: Conversion)
      ensures View() == Init(jiffies)
    {
      this.jiffies := jiffies;
      now, timeperiod, timer, phase, sta, arming := 0, 0, Unarmed, Idle, 1, map[];
      fired, armings, values := [], [], [];
    }

    method Fire() returns (entered: bool)
      modifies this
      ensures entered <==> Next(old(View()), Expire).Some?
      ensures if entered then Next(old(View()), Expire) == Some(View()) else View() == old(View())
    {
      entered := timer.Armed? && timer.at + timer.wait <= now && phase.Idle?;
      if entered {
        fired, armings := fired + [now], armings + [timer];
        timer, phase := Unarmed, Entered;
      }
    }

    /** The two reads and mod_timer, when nobody comes in between. */
    method Arm(w: Who)
      requires w in arming && arming[w] == NOTHING_READ
      modifies this`timer, this`arming, this`phase
      ensures View() == AfterArm(old(View()), w)
      ensures Run(Next, old(View()), ArmSteps(w)) == Some(View())
    {
      ArmRun(View(), w);
      timer := Armed(now, jiffies(timeperiod));
      arming := arming - {w};
      if w.Callback? {
        phase := Idle;
      }
    }

    /** The callback, once entered. */
    method TimerFunction() returns (ledValue: Level)
      requires phase.Entered?
      modifies this
      ensures Run(Next, old(View()), [Toggle] + ArmSteps(Callback)) == Some(View())
      ensures ledValue == 1 - old(sta) == sta && values == old(values) + [ledValue]
      ensures phase.Idle? && timer == Armed(now, jiffies(timeperiod))
    {
      ghost var start := View();
      sta := 1 - sta;
      ledValue := sta;
      values := values + [sta];
      phase, arming := Toggled, arming[Callback := NOTHING_READ];
      ghost var between := View();
      RunOne(Next, start, Toggle);
      Arm(Callback);
      RunJoin(Next, start, [Toggle], between, ArmSteps(Callback), View());
    }

    method TimerOpen()
      modifies this`timeperiod
      ensures Next(old(View()), OpenDevice) == Some(View())
      ensures timeperiod == 1000 && View() == old(View()).(timeperiod := 1000)
    {
      timeperiod := 1000;
    }

    /** An ioctl nobody interferes with; CLOSE_CMD returns only once no callback runs. */
    method TimerUnlockedIoctl(p: Pid, cmd: int, arg: nat)
      requires Process(p) !in arming
      requires cmd == CLOSE_CMD ==> phase.Idle?
      modifies this
      ensures Run(Next, old(View()), IoctlSteps(p, cmd, arg)) == Some(View())
      ensures arming == old(arming) && phase == old(phase)
      ensures timeperiod == if cmd == SETPERIOD_CMD then S32(arg) else old(timeperiod)
      ensures timer == if cmd == CLOSE_CMD then Unarmed
                       else if cmd == OPEN_CMD || cmd == SETPERIOD_CMD then Armed(now, jiffies(timeperiod))
                       else old(timer)
    {
      ghost var start := View();
      if cmd == CLOSE_CMD {
        timer := Unarmed;
        RunOne(Next, start, Stop);
      } else if cmd == OPEN_CMD {
        arming := arming[Process(p) := NOTHING_READ];
        ghost var between := View();
        RunOne(Next, start, OpenCmd(p));
        Arm(Process(p));
        RunJoin(Next, start, [OpenCmd(p)], between, ArmSteps(Process(p)), View());
      } else if cmd == SETPERIOD_CMD {
        timeperiod := S32(arg);
        arming := arming[Process(p) := NOTHING_READ];
        ghost var between := View();
        RunOne(Next, start, SetPeriod(p, arg));
        Arm(Process(p));
        RunJoin(Next, start, [SetPeriod(p, arg)], between, ArmSteps(Process(p)), View());
      }
    }

    method LedRelease()
      requires phase.Idle?
      modifies this
      ensures Next(old(View()), ReleaseDevice) == Some(View())
      ensures View() == old(View()).(timer := Unarmed)
    {
      timer := Unarmed;
    }
  }
}
