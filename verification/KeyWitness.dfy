/** Concrete runs that show where the guarantees of the key drivers end. */
module KeyWitness {
  import opened Runs
  import opened KeyIrq
  import KeyTiming
  import KeySettling

  const TO_DUE: seq<Step> := [TakeIrq, TaskletStart, TaskletRun, Tick]

  /** From a latched interrupt to a due timer, with a delay of one jiffy. */
  lemma ToDue(s: State) returns (t: State)
    requires s.delay == 1 && s.irq && !s.running
    ensures Run(Next, s, TO_DUE) == Some(t)
    ensures t == s.(irq := false, scheduled := false, now := s.now + 1,
                    timer := Armed(s.now + 1), h := s.h.(lastRun := s.now))
  {
    var a := s.(irq := false, scheduled := true);
    var b := a.(scheduled := false, running := true);
    var c := b.(running := false, timer := Armed(s.now + 1), h := s.h.(lastRun := s.now));
    t := c.(now := s.now + 1);
    RunFour(Next, s, TakeIrq, a, TaskletStart, b, TaskletRun, c, Tick, t);
  }

  /** From a due timer to a sample in hand. */
  lemma ToSample(s: State) returns (t: State)
    requires s.timer.Armed? && s.timer.deadline <= s.now && s.handler.Idle?
    ensures Run(Next, s, [Expire, ReadGpio]) == Some(t)
    ensures t == s.(timer := Unarmed, handler := HasRead(s.pin, s.now),
                    h := s.h.(expiries := s.h.expiries + [s.now]))
  {
    var a := s.(timer := Unarmed, handler := Entered, h := s.h.(expiries := s.h.expiries + [s.now]));
    t := a.(handler := HasRead(s.pin, s.now));
    RunTwo(Next, s, Expire, a, ReadGpio, t);
  }

  const TO_SAMPLE: seq<Step> := TO_DUE + [Expire, ReadGpio]

  lemma Sample(s: State) returns (t: State)
    requires s.delay == 1 && s.irq && !s.running && s.handler.Idle?
    ensures Run(Next, s, TO_SAMPLE) == Some(t)
    ensures t == s.(irq := false, scheduled := false, now := s.now + 1, timer := Unarmed,
                    handler := HasRead(s.pin, s.now + 1),
                    h := s.h.(lastRun := s.now, expiries := s.h.expiries + [s.now + 1]))
  {
    var a := ToDue(s);
    t := ToSample(a);
    RunJoin(Next, s, TO_DUE, a, [Expire, ReadGpio], t);
  }

  const TO_PRESS: seq<Step> := [Edge] + TO_SAMPLE

  /** The first press, sampled and about to be stored. */
  lemma FirstSample() returns (s: State)
    ensures Run(Next, Init(1), TO_PRESS) == Some(s)
    ensures s == Init(1).(now := 1, pin := 0, handler := HasRead(0, 1),
                          h := NO_HISTORY.(lastRun := 0, expiries := [] + [1]))
  {
    var a := Init(1).(pin := 0, irq := true);
    RunOne(Next, Init(1), Edge);
    s := Sample(a);
    RunJoin(Next, Init(1), [Edge], a, TO_SAMPLE, s);
  }

  // ----- events can be lost

  ghost predicate LosesEvent(steps: seq<Step>, s: State) {
    Run(Next, Init(1), steps) == Some(s) && 0 in s.h.erased && s.status == KeyNone
  }

  lemma Overwrite(steps: seq<Step>, s: State)
    requires Run(Next, Init(1), steps) == Some(s)
    requires s.delay == 1 && s.irq && !s.running && s.handler.Idle?
    requires s.status == KeyPress && s.h.tag == 0 && s.last == s.pin
    ensures exists steps, t :: LosesEvent(steps, t)
  {
    var a := Sample(s);
    RunJoin(Next, Init(1), steps, s, TO_SAMPLE, a);
    RunSnoc(Next, Init(1), steps + TO_SAMPLE, Store);
    assert LosesEvent(steps + TO_SAMPLE + [Store], Next(a, Store).value);
  }

  /** The guarantee `every event is delivered` fails: an unread press is lost when the key bounces once
      more, because the next sample finds no change and the callback stores KEY_NONE over it. */
  lemma EventCanBeErased()
    ensures exists steps, s :: LosesEvent(steps, s)
  {
    var a := FirstSample();
    var b := Next(a, Store).value;
    RunSnoc(Next, Init(1), TO_PRESS, Store);
    assert b.status == KeyPress && b.h.tag == 0 && b.last == b.pin;
    var c := b.(irq := true);
    RunTwo(Next, b, Edge, b.(pin := 1, irq := true), Edge, c);
    RunJoin(Next, Init(1), TO_PRESS + [Store], b, [Edge, Edge], c);
    Overwrite(TO_PRESS + [Store] + [Edge, Edge], c);
  }

  // ----- two events after the last edge

  ghost predicate OwesTwo(steps: seq<Step>, s: State) {
    Run(Next, Init(1), steps) == Some(s) && KeySettling.Owed(s) == 2
  }

  /** Two events can follow the last edge: the callback has read a press, and the release comes before
      it stores. */
  lemma TwoEventsAfterTheLastEdge()
    ensures exists steps, s :: OwesTwo(steps, s)
  {
    var a := FirstSample();
    RunSnoc(Next, Init(1), TO_PRESS, Edge);
    assert OwesTwo(TO_PRESS + [Edge], a.(pin := 1, irq := true));
  }

  // ----- crowded samples

  lemma CountTwice(t: nat)
    ensures KeyTiming.CountIn([t, t], t, t) == 2
  {
    KeyTiming.CountInSnoc([], t, t, t);
    KeyTiming.CountInSnoc([t], t, t, t);
    assert [] + [t] == [t] && [t] + [t] == [t, t];
  }

  ghost predicate TwoSamplesAtOnce(steps: seq<Step>, s: State) {
    Run(Next, Init(1), steps) == Some(s) && KeyTiming.CountIn(s.h.sampled, 2, 2) == 2
  }

  lemma SecondSample(steps: seq<Step>, s: State)
    requires Run(Next, Init(1), steps) == Some(s)
    requires s.now == 2 && s.h.sampled == [2]
    requires s.handler.Idle? && s.timer.Armed? && s.timer.deadline <= s.now
    ensures exists steps, t :: TwoSamplesAtOnce(steps, t)
  {
    var a := ToSample(s);
    RunJoin(Next, Init(1), steps, s, [Expire, ReadGpio], a);
    RunSnoc(Next, Init(1), steps + [Expire, ReadGpio], Store);
    CountTwice(2);
    var b := Next(a, Store).value;
    assert b.h.sampled == [2, 2];
    assert TwoSamplesAtOnce(steps + [Expire, ReadGpio] + [Store], b);
  }

  lemma LateCallback(steps: seq<Step>, s: State)
    requires Run(Next, Init(1), steps) == Some(s)
    requires s.now == 2 && s.h.sampled == []
    requires s.handler.Entered? && s.timer.Armed? && s.timer.deadline <= s.now
    ensures exists steps, t :: TwoSamplesAtOnce(steps, t)
  {
    var a := s.(handler := HasRead(s.pin, 2));
    var b := Next(a, Store).value;
    RunTwo(Next, s, ReadGpio, a, Store, b);
    RunJoin(Next, Init(1), steps, s, [ReadGpio, Store], b);
    SecondSample(steps + [ReadGpio, Store], b);
  }

  /** A window of T jiffies can hold T / delay + 2 samples: a callback that comes late is followed at once
      by the next. */
  lemma SamplesCanCrowd()
    ensures exists steps, s :: TwoSamplesAtOnce(steps, s)
  {
    var a := Init(1).(pin := 0, irq := true);
    RunOne(Next, Init(1), Edge);
    var b := ToDue(a);
    RunJoin(Next, Init(1), [Edge], a, TO_DUE, b);
    var c := b.(timer := Unarmed, handler := Entered, h := b.h.(expiries := [] + [1]));
    var d := c.(pin := 1, irq := true);
    RunTwo(Next, b, Expire, c, Edge, d);
    RunJoin(Next, Init(1), [Edge] + TO_DUE, b, [Expire, Edge], d);
    var e := ToDue(d);
    RunJoin(Next, Init(1), [Edge] + TO_DUE + [Expire, Edge], d, TO_DUE, e);
    LateCallback([Edge] + TO_DUE + [Expire, Edge] + TO_DUE, e);
  }

  // ----- crowded events

  ghost predicate TwoEventsAtOnce(steps: seq<Step>, s: State) {
    && Run(Next, Init(1), steps) == Some(s)
    && s.h.events == [KeyPress, KeyRelease]
    && KeyTiming.CountIn(s.h.eventTimes, 2, 2) == 2
  }

  lemma SecondEvent(steps: seq<Step>, s: State)
    requires Run(Next, Init(1), steps) == Some(s)
    requires s.now == 2 && s.pin == 1 && s.last == 0 && s.h.events == [KeyPress] && s.h.eventTimes == [2]
    requires s.handler.Idle? && s.timer.Armed? && s.timer.deadline <= s.now
    ensures exists steps, t :: TwoEventsAtOnce(steps, t)
  {
    var a := ToSample(s);
    RunJoin(Next, Init(1), steps, s, [Expire, ReadGpio], a);
    RunSnoc(Next, Init(1), steps + [Expire, ReadGpio], Store);
    CountTwice(2);
    var b := Next(a, Store).value;
    assert b.h.eventTimes == [2, 2];
    assert TwoEventsAtOnce(steps + [Expire, ReadGpio] + [Store], b);
  }

  /** Events can crowd as well: the press is sampled, the key is released, the press is stored late, and the
      release is sampled and stored at once. */
  lemma EventsCanCrowd()
    ensures exists steps, s :: TwoEventsAtOnce(steps, s)
  {
    var a := FirstSample();
    var b := a.(pin := 1, irq := true);
    RunSnoc(Next, Init(1), TO_PRESS, Edge);
    var c := ToDue(b);
    RunJoin(Next, Init(1), TO_PRESS + [Edge], b, TO_DUE, c);
    var d := Next(c, Store).value;
    RunSnoc(Next, Init(1), TO_PRESS + [Edge] + TO_DUE, Store);
    assert d.h.events == [KeyPress] && d.h.eventTimes == [2];
    SecondEvent(TO_PRESS + [Edge] + TO_DUE + [Store], d);
  }
}

/** The same for the drivers with a wait queue. */
module KeyReadWitness {
  import opened Runs
  import opened KeyCalls
  import opened KeyWait
  import K = KeyIrq

  const TO_DUE: seq<Step> := [TakeIrq, TaskletStart, TaskletRun, Tick]

  lemma ToDeadline(s: State) returns (t: State)
    requires s.delay == 1 && s.irq && !s.running
    ensures Run(Next, s, TO_DUE) == Some(t)
    ensures t == s.(irq := false, scheduled := false, now := s.now + 1,
                    timer := K.Armed(s.now + 1), h := s.h.(lastRun := s.now))
  {
    var a := s.(irq := false, scheduled := true);
    var b := a.(scheduled := false, running := true);
    var c := b.(running := false, timer := K.Armed(s.now + 1), h := s.h.(lastRun := s.now));
    t := c.(now := s.now + 1);
    RunFour(Next, s, TakeIrq, a, TaskletStart, b, TaskletRun, c, Tick, t);
  }

  lemma ToEvent(s: State) returns (t: State)
    requires s.pin == 0 && s.last == 1 && s.timer == K.Armed(s.now)
    requires s.phase.Idle? && s.lock.Free? && s.readers == map[]
    ensures Run(Next, s, [Expire] + CallbackSteps(s.features)) == Some(t)
    ensures t.status == K.KeyPress && t.lock.Free? && t.readers == map[]
  {
    var a := s.(timer := K.Unarmed, phase := Entered, h := s.h.(expiries := s.h.expiries + [s.now]));
    RunOne(Next, s, Expire);
    CallbackRun(a);
    CallbackEffect(a);
    t := AfterCallback(a);
    RunJoin(Next, s, [Expire], a, CallbackSteps(s.features), t);
  }

  /** Reader p has returned KEY_NONE, and no signal ended its wait. */
  ghost predicate GotNone(s: State, p: Pid) {
    && p in s.readers && s.readers[p].Done? && s.readers[p].outcome.Got?
    && s.readers[p].outcome.value == K.KeyNone && !s.readers[p].outcome.ticket.interrupted
  }

  const TWO_READS: seq<Step> :=
    [BeginRead(1, false), Go(1, Test)] + [BeginRead(2, false), Go(2, Test)]
    + SectionSteps(1, false) + SectionSteps(2, false)

  lemma SecondReaderGetsNone(s: State) returns (t: State)
    requires s.status != K.KeyNone && s.readers == map[] && s.lock.Free?
    ensures Run(Next, s, TWO_READS) == Some(t) && GotNone(t, 2)
  {
    var tests1, tests2 := [BeginRead(1, false), Go(1, Test)], [BeginRead(2, false), Go(2, Test)];
    var a := ReadTests(s, 1, false);
    var b := ReadTests(a, 2, false);
    SectionRun(b, 1, false);
    var c := AfterSection(b, 1, b.readers[1].ticket, false);
    SectionRun(c, 2, false);
    t := AfterSection(c, 2, c.readers[2].ticket, false);
    RunJoin(Next, s, tests1, a, tests2, b);
    RunJoin(Next, s, tests1 + tests2, b, SectionSteps(1, false), c);
    RunJoin(Next, s, tests1 + tests2 + SectionSteps(1, false), c, SectionSteps(2, false), t);
  }

  /** The guarantee `a blocking read never returns KEY_NONE` fails in every driver with a wait queue, even
      without signals: two readers see one event, and the second to take the lock finds it gone. */
  lemma BlockingReadCanReturnNone(features: Features)
    ensures exists steps, s, p :: Run(Next, Init(features, 1), steps) == Some(s) && GotNone(s, p)
  {
    var init := Init(features, 1);
    var pressed := init.(pin := 0, irq := true);
    RunOne(Next, init, Edge);
    var a := ToDeadline(pressed);
    RunJoin(Next, init, [Edge], pressed, TO_DUE, a);
    var b := ToEvent(a);
    var c := SecondReaderGetsNone(b);
    RunJoin(Next, init, [Edge] + TO_DUE, a, [Expire] + CallbackSteps(features), b);
    RunJoin(Next, init, [Edge] + TO_DUE + ([Expire] + CallbackSteps(features)), b, TWO_READS, c);
  }
}
