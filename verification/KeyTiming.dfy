/** The debounce timer as a rate limit. */
module KeyTiming {
  import opened Runs
  import opened KeyIrq

  /** How many of the times lie in the window [from, to]. */
  function CountIn(times: seq<nat>, from: nat, to: nat): nat {
    if times == [] then 0
    else CountIn(times[..|times| - 1], from, to) + (if from <= times[|times| - 1] <= to then 1 else 0)
  }

  lemma CountInSnoc(times: seq<nat>, t: nat, from: nat, to: nat)
    ensures CountIn(times + [t], from, to) == CountIn(times, from, to) + (if from <= t <= to then 1 else 0)
  {}

  // ----- spaced times

  ghost predicate Spaced(times: seq<nat>, gap: nat) {
    forall i, j :: 0 <= i < j < |times| ==> times[i] + gap <= times[j]
  }

  lemma {:induction false} CountNone(times: seq<nat>, from: nat, to: nat)
    requires forall i :: 0 <= i < |times| ==> times[i] < from
    ensures CountIn(times, from, to) == 0
  {
    if times != [] {
      CountNone(times[..|times| - 1], from, to);
    }
  }

  lemma {:induction false} CountBelow(times: seq<nat>, from: nat, to: nat, to': nat)
    requires to' <= to
    requires forall i :: 0 <= i < |times| ==> times[i] <= to'
    ensures CountIn(times, from, to) == CountIn(times, from, to')
  {
    if times != [] {
      CountBelow(times[..|times| - 1], from, to, to');
    }
  }

  lemma {:induction false} SpacedProduct(times: seq<nat>, gap: nat, from: nat, to: nat)
    requires Spaced(times, gap) && from <= to
    ensures CountIn(times, from, to) > 0 ==> (CountIn(times, from, to) - 1) * gap <= to - from
  {
    if times != [] {
      var rest, t := times[..|times| - 1], times[|times| - 1];
      if from <= t <= to {
        if t - from < gap {
          CountNone(rest, from, to);
        } else {
          CountBelow(rest, from, to, t - gap);
          SpacedProduct(rest, gap, from, t - gap);
          var c := CountIn(rest, from, to);
          assert c * gap == (c - 1) * gap + gap;
        }
      } else {
        SpacedProduct(rest, gap, from, to);
      }
    }
  }

  lemma ProductMonotone(a: int, b: int, gap: nat)
    ensures b <= a ==> b * gap <= a * gap
  {}

  lemma QuotientBound(n: nat, gap: nat, span: nat)
    requires 0 < gap && n * gap <= span
    ensures n <= span / gap
  {
    assert span < (span / gap + 1) * gap;
    ProductMonotone(n, span / gap + 1, gap);
  }

  /** Times at least `gap` apart: a window of length T holds at most T / gap + 1 of them. */
  lemma SpacedCount(times: seq<nat>, gap: nat, from: nat, to: nat)
    requires Spaced(times, gap) && 0 < gap && from <= to
    ensures CountIn(times, from, to) <= (to - from) / gap + 1
  {
    SpacedProduct(times, gap, from, to);
    if CountIn(times, from, to) > 0 {
      QuotientBound(CountIn(times, from, to) - 1, gap, to - from);
    }
  }

  // ----- each callback lies between its expiry and the next

  /** Some instant of each callback, one per completed callback. */
  ghost predicate Between(expiries: seq<nat>, instants: seq<nat>) {
    && |instants| <= |expiries| <= |instants| + 1
    && (forall i :: 0 <= i < |instants| ==> expiries[i] <= instants[i])
    && (forall i, j :: 0 <= i < j < |expiries| ==> instants[i] <= expiries[j])
  }

  /** The callbacks open at t: expired before t, and their instant comes at t or later, or not yet. */
  function OpenAt(expiries: seq<nat>, instants: seq<nat>, t: nat): nat
    decreases |expiries|
  {
    if expiries == [] then 0
    else
      var n := |expiries| - 1;
      OpenAt(expiries[..n], if n < |instants| then instants[..n] else instants, t)
      + (if expiries[n] < t && (n < |instants| ==> t <= instants[n]) then 1 else 0)
  }

  /** What a window has in instants more than in expiries it owes to a callback open when it begins, and what
      it has less to one open when it ends. */
  lemma {:induction false} BetweenCount(expiries: seq<nat>, instants: seq<nat>, from: nat, to: nat)
    requires Between(expiries, instants) && from <= to
    ensures CountIn(instants, from, to) + OpenAt(expiries, instants, to + 1)
            == CountIn(expiries, from, to) + OpenAt(expiries, instants, from)
    decreases |expiries|
  {
    var n := |expiries| - 1;
    if n >= 0 {
      var rest := if n < |instants| then instants[..n] else instants;
      assert Between(expiries[..n], rest);
      BetweenCount(expiries[..n], rest, from, to);
    }
  }

  lemma {:induction false} NoneOpen(expiries: seq<nat>, instants: seq<nat>, t: nat)
    requires |expiries| == |instants|
    requires forall i :: 0 <= i < |instants| ==> instants[i] < t
    ensures OpenAt(expiries, instants, t) == 0
    decreases |expiries|
  {
    if expiries != [] {
      NoneOpen(expiries[..|expiries| - 1], instants[..|expiries| - 1], t);
    }
  }

  lemma {:induction false} OneOpen(expiries: seq<nat>, instants: seq<nat>, t: nat)
    requires Between(expiries, instants)
    ensures OpenAt(expiries, instants, t) <= 1
    decreases |expiries|
  {
    var n := |expiries| - 1;
    if n >= 0 {
      var rest := if n < |instants| then instants[..n] else instants;
      if expiries[n] < t {
        NoneOpen(expiries[..n], rest, t);
      } else {
        assert Between(expiries[..n], rest);
        OneOpen(expiries[..n], rest, t);
      }
    }
  }

  // ----- the invariant

  ghost predicate NoLaterThan(times: seq<nat>, now: nat) {
    forall i :: 0 <= i < |times| ==> times[i] <= now
  }

  ghost predicate Clocked(s: State) {
    var h := s.h;
    && h.lastRun <= s.now
    && (s.timer.Armed? ==> s.timer.deadline == h.lastRun + s.delay)
    && Spaced(h.expiries, s.delay)
    && NoLaterThan(h.expiries, s.now)
    && (s.timer.Armed? ==> NoLaterThan(h.expiries, h.lastRun))
    && |h.expiries| == |h.stored| + (if s.handler.Idle? then 0 else 1)
  }

  ghost predicate CallbackTimes(s: State) {
    var h := s.h;
    && |h.sampled| == |h.stored|
    && Between(h.expiries, h.sampled)
    && Between(h.expiries, h.stored)
    && NoLaterThan(h.sampled, s.now)
    && NoLaterThan(h.stored, s.now)
    && (s.handler.HasRead? ==> |h.expiries| > 0 && h.expiries[|h.expiries| - 1] <= s.handler.at <= s.now)
  }

  lemma ClockedStep(s: State, step: Step)
    requires Clocked(s) && Next(s, step).Some?
    ensures Clocked(Next(s, step).value)
  {}

  lemma BetweenExpiry(expiries: seq<nat>, instants: seq<nat>, now: nat)
    requires Between(expiries, instants) && |expiries| == |instants| && NoLaterThan(instants, now)
    ensures Between(expiries + [now], instants)
  {}

  lemma BetweenInstant(expiries: seq<nat>, instants: seq<nat>, at: nat)
    requires Between(expiries, instants) && |expiries| == |instants| + 1 && expiries[|instants|] <= at
    ensures Between(expiries, instants + [at])
  {}

  lemma CallbackTimesStore(s: State)
    requires Clocked(s) && CallbackTimes(s) && s.handler.HasRead?
    ensures CallbackTimes(Next(s, Store).value)
  {
    BetweenInstant(s.h.expiries, s.h.sampled, s.handler.at);
    BetweenInstant(s.h.expiries, s.h.stored, s.now);
  }

  lemma CallbackTimesStep(s: State, step: Step)
    requires Clocked(s) && CallbackTimes(s) && Next(s, step).Some?
    ensures CallbackTimes(Next(s, step).value)
  {
    match step
    case Store => CallbackTimesStore(s);
    case Expire =>
      BetweenExpiry(s.h.expiries, s.h.sampled, s.now);
      BetweenExpiry(s.h.expiries, s.h.stored, s.now);
    case _ =>
  }

  // ----- stores that bring an event, and stores that do not

  /** When the samples without change were stored. */
  function IdleTimes(levels: seq<Level>, stored: seq<nat>): seq<nat>
    requires |levels| == |stored|
  {
    if levels == [] then []
    else
      var n := |levels| - 1;
      IdleTimes(levels[..n], stored[..n]) + (if levels[n] == ([1] + levels)[n] then [stored[n]] else [])
  }

  lemma IdleTimesSnoc(levels: seq<Level>, stored: seq<nat>, level: Level, at: nat)
    requires |levels| == |stored|
    ensures IdleTimes(levels + [level], stored + [at])
            == IdleTimes(levels, stored) + (if level == ([1] + levels)[|levels|] then [at] else [])
  {
    var n := |levels|;
    assert (levels + [level])[..n] == levels && (stored + [at])[..n] == stored;
    assert ([1] + (levels + [level]))[n] == ([1] + levels)[n];
  }

  /** Every store either brings an event or is idle. */
  ghost predicate EventTimesExact(s: State) {
    && |s.h.levels| == |s.h.stored|
    && s.last == ([1] + s.h.levels)[|s.h.levels|]
    && forall from: nat, to: nat ::
         CountIn(s.h.stored, from, to)
         == CountIn(s.h.eventTimes, from, to) + CountIn(IdleTimes(s.h.levels, s.h.stored), from, to)
  }

  lemma EventTimesStore(s: State, from: nat, to: nat)
    requires EventTimesExact(s) && s.handler.HasRead?
    ensures var h := Next(s, Store).value.h;
            CountIn(h.stored, from, to)
            == CountIn(h.eventTimes, from, to) + CountIn(IdleTimes(h.levels, h.stored), from, to)
  {
    var h, idle := Next(s, Store).value.h, IdleTimes(s.h.levels, s.h.stored);
    assert h.levels == s.h.levels + [s.handler.cur] && h.stored == s.h.stored + [s.now];
    IdleTimesSnoc(s.h.levels, s.h.stored, s.handler.cur, s.now);
    CountInSnoc(s.h.stored, s.now, from, to);
    if s.handler.cur == s.last {
      assert h.eventTimes == s.h.eventTimes;
      CountInSnoc(idle, s.now, from, to);
    } else {
      assert h.eventTimes == s.h.eventTimes + [s.now];
      CountInSnoc(s.h.eventTimes, s.now, from, to);
      assert idle + [] == idle;
    }
  }

  lemma EventTimesFrame(s: State, t: State)
    requires EventTimesExact(s)
    requires t.last == s.last && t.h.levels == s.h.levels && t.h.stored == s.h.stored
    requires t.h.eventTimes == s.h.eventTimes
    ensures EventTimesExact(t)
  {}

  lemma EventTimesStep(s: State, step: Step)
    requires EventTimesExact(s) && Next(s, step).Some?
    ensures EventTimesExact(Next(s, step).value)
  {
    if step.Store? {
      var t := Next(s, Store).value;
      assert t.h.levels == s.h.levels + [s.handler.cur] && |t.h.stored| == |s.h.stored| + 1;
      forall from: nat, to: nat
        ensures CountIn(t.h.stored, from, to)
                == CountIn(t.h.eventTimes, from, to) + CountIn(IdleTimes(t.h.levels, t.h.stored), from, to)
      {
        EventTimesStore(s, from, to);
      }
    } else {
      EventTimesFrame(s, Next(s, step).value);
    }
  }

  ghost predicate Timed(s: State) {
    Clocked(s) && CallbackTimes(s) && EventTimesExact(s)
  }

  lemma TimedStep(s: State, step: Step)
    requires Timed(s) && Next(s, step).Some?
    ensures Timed(Next(s, step).value)
  {
    ClockedStep(s, step);
    CallbackTimesStep(s, step);
    EventTimesStep(s, step);
  }

  lemma DelayStep(s: State, step: Step)
    requires Next(s, step).Some?
    ensures Next(s, step).value.delay == s.delay
  {}

  lemma TimedRun(delay: nat, steps: seq<Step>, s: State)
    requires Run(Next, Init(delay), steps) == Some(s)
    ensures Timed(s) && s.delay == delay
  {
    forall t, l | Timed(t) && Next(t, l).Some? ensures Timed(Next(t, l).value) { TimedStep(t, l); }
    Invariant(Next, Timed, Init(delay), steps);
    var sameDelay := (t: State) => t.delay == delay;
    forall t, l | sameDelay(t) && Next(t, l).Some? ensures sameDelay(Next(t, l).value) { DelayStep(t, l); }
    Invariant(Next, sameDelay, Init(delay), steps);
  }

  /** An armed timer is due exactly one delay after the tasklet last ran, and the timer fires at most
      once per delay whatever the edges do. */
  lemma Deadline(delay: nat, steps: seq<Step>, s: State)
    requires Run(Next, Init(delay), steps) == Some(s)
    ensures s.timer.Armed? ==> s.timer.deadline == s.h.lastRun + delay
    ensures forall i, j :: 0 <= i < j < |s.h.expiries| ==> s.h.expiries[i] + delay <= s.h.expiries[j]
  {
    TimedRun(delay, steps, s);
  }

  // ----- debouncing

  /** The tasklet ran at t or after, and it is not before t. */
  ghost predicate RanSince(s: State, t: nat) {
    t <= s.h.lastRun && t <= s.now
  }

  lemma RanSinceStep(s: State, step: Step, t: nat)
    requires RanSince(s, t) && Next(s, step).Some?
    ensures RanSince(Next(s, step).value, t)
  {}

  lemma RanSinceRun(s: State, steps: seq<Step>, t: nat)
    requires RanSince(s, t) && Run(Next, s, steps).Some?
    ensures RanSince(Run(Next, s, steps).value, t)
  {
    var since := (u: State) => RanSince(u, t);
    forall u, l | since(u) && Next(u, l).Some? ensures since(Next(u, l).value) { RanSinceStep(u, l, t); }
    Invariant(Next, since, s, steps);
  }

  /** A timer that can expire is due a delay after any instant since when the tasklet ran. */
  lemma DueSince(delay: nat, steps: seq<Step>, s: State, t: nat)
    requires Run(Next, Init(delay), steps) == Some(s)
    requires RanSince(s, t) && Next(s, Expire).Some?
    ensures t + delay <= s.now
  {
    TimedRun(delay, steps, s);
  }

  /** Every expiry comes at least a delay after every tasklet run before it: a burst of edges whose interrupts are
      served less than a delay apart lets no callback begin before a delay has passed since the last of them. */
  lemma Debounce(delay: nat, before: seq<Step>, s: State, between: seq<Step>, t: State)
    requires Run(Next, Init(delay), before) == Some(s)
    requires Run(Next, s, [TaskletRun] + between) == Some(t) && Next(t, Expire).Some?
    ensures s.now + delay <= t.now
  {
    assert ([TaskletRun] + between)[0] == TaskletRun && ([TaskletRun] + between)[1..] == between;
    RanSinceRun(Next(s, TaskletRun).value, between, s.now);
    RunConcat(Next, Init(delay), before, [TaskletRun] + between);
    DueSince(delay, before + ([TaskletRun] + between), t, s.now);
  }

  /** A full window, T / delay + 1 expiries, that begins while a callback is open and does not end so. */
  ghost predicate Overfull(expiries: seq<nat>, instants: seq<nat>, delay: nat, from: nat, to: nat)
    requires 0 < delay && from <= to
  {
    && CountIn(expiries, from, to) == (to - from) / delay + 1
    && OpenAt(expiries, instants, from) > 0
    && OpenAt(expiries, instants, to + 1) == 0
  }

  lemma OverfullIff(expiries: seq<nat>, instants: seq<nat>, delay: nat, from: nat, to: nat)
    requires 0 < delay && from <= to
    requires Between(expiries, instants) && Spaced(expiries, delay)
    ensures CountIn(expiries, from, to) <= (to - from) / delay + 1
    ensures CountIn(instants, from, to) <= (to - from) / delay + 2
    ensures CountIn(instants, from, to) <= (to - from) / delay + 1 <==> !Overfull(expiries, instants, delay, from, to)
  {
    SpacedCount(expiries, delay, from, to);
    BetweenCount(expiries, instants, from, to);
    OneOpen(expiries, instants, from);
    OneOpen(expiries, instants, to + 1);
  }

  /** A window of T jiffies holds at most T / delay + 1 expiries.  Samples, and stores, stay within that bound
      too except exactly when the window is full of expiries, begins between some callback's expiry and its
      sample, or store, and does not end so; they then exceed it by one.  Events exceed it exactly when the
      stores do and all of these bring an event. */
  lemma RateBound(delay: nat, steps: seq<Step>, s: State, from: nat, to: nat)
    requires Run(Next, Init(delay), steps) == Some(s)
    requires 0 < delay && from <= to
    ensures var bound, h := (to - from) / delay + 1, s.h;
            && CountIn(h.expiries, from, to) <= bound
            && CountIn(h.sampled, from, to) <= bound + 1
            && CountIn(h.eventTimes, from, to) <= CountIn(h.stored, from, to) <= bound + 1
            && (CountIn(h.sampled, from, to) <= bound <==> !Overfull(h.expiries, h.sampled, delay, from, to))
            && (CountIn(h.stored, from, to) <= bound <==> !Overfull(h.expiries, h.stored, delay, from, to))
    ensures |s.h.levels| == |s.h.stored|
    ensures CountIn(s.h.eventTimes, from, to) <= (to - from) / delay + 1 <==>
            !(Overfull(s.h.expiries, s.h.stored, delay, from, to)
              && CountIn(IdleTimes(s.h.levels, s.h.stored), from, to) == 0)
  {
    TimedRun(delay, steps, s);
    OverfullIff(s.h.expiries, s.h.sampled, delay, from, to);
    OverfullIff(s.h.expiries, s.h.stored, delay, from, to);
  }
}
