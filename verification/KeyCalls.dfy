/** Whole calls of the drivers with a wait queue, as runs of their machine that nobody disturbs. */
module KeyCalls {
  import opened Runs
  import opened KeyWait
  import K = KeyIrq

  // ----- timer_function

  function CallbackSteps(features: Features): seq<Step> {
    [LockHandler, ReadGpio, Store] + [UnlockHandler, Wake] + if features.async then [Signal] else []
  }

  /** From the lock to the store. */
  function AfterStore(s: State): State {
    var after := K.Detect(s.pin, s.last);
    s.(phase := Stored, lock := ByHandler, status := after, last := s.pin,
       h := K.RecordStore(s.h, s.status, after, s.pin, s.now, s.now))
  }

  /** From the unlock to the wake_up: everybody on the wait queue tests again. */
  function AfterWake(s: State): State {
    s.(phase := if s.features.async then BeforeSignal else Idle, lock := Free,
       readers := map p | p in s.readers :: WokenReader(s.readers[p]),
       pollers := map p | p in s.pollers :: WokenPoller(s.pollers[p]))
  }

  function AfterSignal(s: State): State {
    s.(phase := Idle, kills := s.kills + 1,
       async := map p | p in s.async :: s.async[p].(signals := s.async[p].signals + 1))
  }

  function AfterCallback(s: State): State {
    var t := AfterWake(AfterStore(s));
    if s.features.async then AfterSignal(t) else t
  }

  lemma StoreStep(s: State)
    requires s.phase.HasRead?
    ensures var after := K.Detect(s.phase.cur, s.last);
            Next(s, Store) == Some(s.(phase := Stored, status := after, last := s.phase.cur,
                                      h := K.RecordStore(s.h, s.status, after, s.phase.cur, s.phase.at, s.now)))
  {}

  lemma CallbackStores(s: State)
    requires s.phase.Entered? && s.lock.Free?
    ensures Run(Next, s, [LockHandler, ReadGpio, Store]) == Some(AfterStore(s))
  {
    var a := s.(phase := Locked, lock := ByHandler);
    var b := a.(phase := HasRead(s.pin, s.now));
    RunTwo(Next, s, LockHandler, a, ReadGpio, b);
    RunSnoc(Next, s, [LockHandler, ReadGpio], Store);
    assert [LockHandler, ReadGpio] + [Store] == [LockHandler, ReadGpio, Store];
  }

  lemma CallbackWakes(s: State)
    requires s.phase.Stored?
    ensures Run(Next, s, [UnlockHandler, Wake]) == Some(AfterWake(s))
  {
    RunTwo(Next, s, UnlockHandler, s.(phase := Unlocked, lock := Free), Wake, AfterWake(s));
  }

  lemma CallbackSignals(s: State)
    requires s.phase.BeforeSignal?
    ensures Run(Next, s, [Signal]) == Some(AfterSignal(s))
  {
    RunOne(Next, s, Signal);
  }

  /** The steps of an undisturbed callback. */
  lemma CallbackRun(s: State)
    requires s.phase.Entered? && s.lock.Free?
    ensures Run(Next, s, CallbackSteps(s.features)) == Some(AfterCallback(s))
  {
    var stores, wakes := [LockHandler, ReadGpio, Store], [UnlockHandler, Wake];
    var a := AfterStore(s);
    var b := AfterWake(a);
    CallbackStores(s);
    CallbackWakes(a);
    RunJoin(Next, s, stores, a, wakes, b);
    if s.features.async {
      CallbackSignals(b);
      RunJoin(Next, s, stores + wakes, b, [Signal], AfterSignal(b));
    } else {
      assert stores + wakes + [] == stores + wakes;
    }
  }

  lemma WakeEffect(s: State)
    ensures var t := AfterWake(s);
            && t.readers.Keys == s.readers.Keys && t.pollers.Keys == s.pollers.Keys
            && (forall p :: p in s.readers ==> t.readers[p] == if s.readers[p] == Asleep then Queued else s.readers[p])
            && (forall p :: p in s.pollers ==>
                  t.pollers[p] == if s.pollers[p] == PollAsleep then PollQueued else s.pollers[p])
            && t.async == s.async && t.status == s.status && t.last == s.last && t.lock.Free?
  {}

  lemma SignalEffect(s: State)
    ensures var t := AfterSignal(s);
            && t.async.Keys == s.async.Keys
            && (forall p :: p in s.async ==> t.async[p].signals == s.async[p].signals + 1)
            && t.readers == s.readers && t.pollers == s.pollers
  {}

  /** What an undisturbed callback leaves: the change since last_value in the slot, every reader and every poller
      that slept about to test again and all others where they were, and one signal more for each subscriber. */
  lemma CallbackEffect(s: State)
    ensures var t := AfterCallback(s);
            && t.phase.Idle? && t.lock.Free? && t.last == s.pin
            && t.status == (if s.pin == s.last then K.KeyNone else if s.pin == 0 then K.KeyPress else K.KeyRelease)
            && t.readers.Keys == s.readers.Keys && t.pollers.Keys == s.pollers.Keys
            && (forall p :: p in s.readers ==> t.readers[p] == if s.readers[p] == Asleep then Queued else s.readers[p])
            && (forall p :: p in s.pollers ==>
                  t.pollers[p] == if s.pollers[p] == PollAsleep then PollQueued else s.pollers[p])
            && t.async.Keys == s.async.Keys
            && (s.features.async ==> forall p :: p in s.async ==> t.async[p].signals == s.async[p].signals + 1)
  {
    var a := AfterStore(s);
    WakeEffect(a);
    SignalEffect(AfterWake(a));
  }

  // ----- kery_read

  function SectionSteps(p: Pid, fault: bool): seq<Step> {
    [Go(p, LockReader), Go(p, Copy(fault))]
    + if fault then [Go(p, UnlockReader)] else [Go(p, Clear), Go(p, UnlockReader)]
  }

  /** kery_read from the lock to the return, undisturbed: hands out the slot and empties it, or with a failed
      copy leaves it. */
  function AfterSection(s: State, p: Pid, ticket: Ticket, fault: bool): State {
    var n := |s.h.writes|;
    var outcome := if fault then Efault(n) else Got(s.status, ticket, n);
    var h := if fault then s.h else K.RecordClear(s.h, s.status, p);
    s.(readers := s.readers[p := Done(outcome)], status := if fault then s.status else K.KeyNone, h := h,
       returned := s.returned + [Return(p, outcome, |h.writes|)])
  }

  lemma PutTwice<X, Y>(m: map<X, Y>, x: X, y: Y, z: Y)
    ensures m[x := y][x := z] == m[x := z]
  {}

  /** One step of a reader. */
  lemma GoStep(s: State, p: Pid, action: Action, m: Moved)
    requires p in s.readers && Move(p, s.readers[p], s.lock, s.status, s.h, action) == Some(m)
    ensures Next(s, Go(p, action)) ==
            Some(s.(readers := s.readers[p := m.reader], lock := m.lock, status := m.status, h := m.h,
                    returned := Returned(s.returned, p, m.reader, |m.h.writes|)))
  {}

  lemma SectionCopies(s: State, p: Pid, fault: bool) returns (t: State)
    requires p in s.readers && s.readers[p].Passed? && s.lock.Free?
    ensures Run(Next, s, [Go(p, LockReader), Go(p, Copy(fault))]) == Some(t)
    ensures var n := |s.h.writes|;
            var r := if fault then Leaving(Efault(n)) else Copied(s.status, s.readers[p].ticket, n);
            t == s.(readers := s.readers[p := r], lock := ByReader(p))
  {
    var n, ticket := |s.h.writes|, s.readers[p].ticket;
    var r := if fault then Leaving(Efault(n)) else Copied(s.status, ticket, n);
    GoStep(s, p, LockReader, Moved(Holding(ticket, n), ByReader(p), s.status, s.h));
    var a := s.(readers := s.readers[p := Holding(ticket, n)], lock := ByReader(p));
    GoStep(a, p, Copy(fault), Moved(r, a.lock, s.status, s.h));
    PutTwice(s.readers, p, Holding(ticket, n), r);
    t := s.(readers := s.readers[p := r], lock := ByReader(p));
    RunTwo(Next, s, Go(p, LockReader), a, Go(p, Copy(fault)), t);
  }

  /** A reader about to leave returns its outcome. */
  lemma SectionLeaves(s: State, p: Pid)
    requires p in s.readers && s.readers[p].Leaving?
    ensures var o := s.readers[p].outcome;
            Next(s, Go(p, UnlockReader)) ==
            Some(s.(readers := s.readers[p := Done(o)], lock := Free,
                    returned := s.returned + [Return(p, o, |s.h.writes|)]))
  {
    GoStep(s, p, UnlockReader, Moved(Done(s.readers[p].outcome), Free, s.status, s.h));
  }

  lemma SectionClears(s: State, p: Pid)
    requires p in s.readers && s.readers[p].Copied?
    ensures var o := Got(s.readers[p].value, s.readers[p].ticket, s.readers[p].at);
            Next(s, Go(p, Clear)) ==
            Some(s.(readers := s.readers[p := Leaving(o)], status := K.KeyNone, h := K.RecordClear(s.h, s.status, p)))
  {
    var r := s.readers[p];
    var o := Got(r.value, r.ticket, r.at);
    GoStep(s, p, Clear, Moved(Leaving(o), s.lock, K.KeyNone, K.RecordClear(s.h, s.status, p)));
  }

  lemma SectionFails(s: State, p: Pid)
    requires p in s.readers && s.readers[p].Passed? && s.lock.Free?
    ensures Run(Next, s, SectionSteps(p, true)) == Some(AfterSection(s, p, s.readers[p].ticket, true))
  {
    var a := SectionCopies(s, p, true);
    SectionLeaves(a, p);
    PutTwice(s.readers, p, a.readers[p], Done(Efault(|s.h.writes|)));
    RunSnoc(Next, s, [Go(p, LockReader), Go(p, Copy(true))], Go(p, UnlockReader));
  }

  lemma SectionSucceeds(s: State, p: Pid)
    requires p in s.readers && s.readers[p].Passed? && s.lock.Free?
    ensures Run(Next, s, SectionSteps(p, false)) == Some(AfterSection(s, p, s.readers[p].ticket, false))
  {
    var a := SectionCopies(s, p, false);
    SectionClears(a, p);
    var o := Got(s.status, s.readers[p].ticket, |s.h.writes|);
    var b := a.(readers := a.readers[p := Leaving(o)], status := K.KeyNone, h := K.RecordClear(s.h, s.status, p));
    SectionLeaves(b, p);
    PutTwice(s.readers, p, a.readers[p], Leaving(o));
    PutTwice(s.readers, p, Leaving(o), Done(o));
    var t := AfterSection(s, p, s.readers[p].ticket, false);
    RunTwo(Next, a, Go(p, Clear), b, Go(p, UnlockReader), t);
    RunJoin(Next, s, [Go(p, LockReader), Go(p, Copy(false))], a, [Go(p, Clear), Go(p, UnlockReader)], t);
  }

  lemma SectionRun(s: State, p: Pid, fault: bool)
    requires p in s.readers && s.readers[p].Passed? && s.lock.Free?
    ensures Run(Next, s, SectionSteps(p, fault)) == Some(AfterSection(s, p, s.readers[p].ticket, fault))
  {
    if fault { SectionFails(s, p); } else { SectionSucceeds(s, p); }
  }

  function ReadSteps(p: Pid, nonblock: bool, status: K.Status, fault: bool): seq<Step> {
    [BeginRead(p, nonblock), Go(p, Test)]
    + if status != K.KeyNone then SectionSteps(p, fault) else if nonblock then [] else [Go(p, Test)]
  }

  /** kery_read undisturbed, until it returns or sleeps: an event in the slot is returned; on an empty slot it
      answers -EAGAIN or sleeps, and touches nothing. */
  function AfterRead(s: State, p: Pid, nonblock: bool, fault: bool): State {
    if s.status != K.KeyNone then AfterSection(s, p, Ticket(false, |s.h.writes|), fault)
    else s.(readers := s.readers[p := if nonblock then Again else Asleep])
  }

  /** The first test. */
  lemma ReadTests(s: State, p: Pid, nonblock: bool) returns (t: State)
    requires (p in s.readers ==> s.readers[p].Done? || s.readers[p].Again?) && (nonblock ==> s.features.nonblock)
    ensures Run(Next, s, [BeginRead(p, nonblock), Go(p, Test)]) == Some(t)
    ensures var r := if s.status != K.KeyNone then Passed(Ticket(false, |s.h.writes|))
                     else if nonblock then Again else Queued;
            t == s.(readers := s.readers[p := r])
  {
    var r := if s.status != K.KeyNone then Passed(Ticket(false, |s.h.writes|))
             else if nonblock then Again else Queued;
    var a := s.(readers := s.readers[p := Start(nonblock)]);
    GoStep(a, p, Test, Moved(r, s.lock, s.status, s.h));
    PutTwice(s.readers, p, Start(nonblock), r);
    t := s.(readers := s.readers[p := r]);
    RunTwo(Next, s, BeginRead(p, nonblock), a, Go(p, Test), t);
  }

  lemma ReadReturns(s: State, p: Pid, nonblock: bool, fault: bool)
    requires (p in s.readers ==> s.readers[p].Done? || s.readers[p].Again?) && (nonblock ==> s.features.nonblock)
    requires s.lock.Free? && s.status != K.KeyNone
    ensures Run(Next, s, ReadSteps(p, nonblock, s.status, fault)) == Some(AfterRead(s, p, nonblock, fault))
  {
    var a := ReadTests(s, p, nonblock);
    SectionRun(a, p, fault);
    var t := AfterRead(s, p, nonblock, fault);
    PutTwice(s.readers, p, a.readers[p], t.readers[p]);
    assert AfterSection(a, p, a.readers[p].ticket, fault) == t;
    RunJoin(Next, s, [BeginRead(p, nonblock), Go(p, Test)], a, SectionSteps(p, fault), t);
  }

  lemma ReadSleeps(s: State, p: Pid)
    requires p in s.readers ==> s.readers[p].Done? || s.readers[p].Again?
    requires s.status == K.KeyNone
    ensures Run(Next, s, [BeginRead(p, false), Go(p, Test)] + [Go(p, Test)]) ==
            Some(s.(readers := s.readers[p := Asleep]))
  {
    var a := ReadTests(s, p, false);
    GoStep(a, p, Test, Moved(Asleep, s.lock, s.status, s.h));
    PutTwice(s.readers, p, Queued, Asleep);
    RunSnoc(Next, s, [BeginRead(p, false), Go(p, Test)], Go(p, Test));
  }

  lemma ReadRun(s: State, p: Pid, nonblock: bool, fault: bool)
    requires (p in s.readers ==> s.readers[p].Done? || s.readers[p].Again?) && (nonblock ==> s.features.nonblock)
    requires s.lock.Free?
    ensures Run(Next, s, ReadSteps(p, nonblock, s.status, fault)) == Some(AfterRead(s, p, nonblock, fault))
  {
    if s.status != K.KeyNone {
      ReadReturns(s, p, nonblock, fault);
    } else if nonblock {
      var a := ReadTests(s, p, nonblock);
      assert ReadSteps(p, nonblock, s.status, fault) == [BeginRead(p, nonblock), Go(p, Test)];
    } else {
      ReadSleeps(s, p);
    }
  }

  function ReadOnSteps(p: Pid, r: Reader, status: K.Status, fault: bool): seq<Step> {
    [Go(p, Test)] + if r.Queued? && status == K.KeyNone then [] else SectionSteps(p, fault)
  }

  /** The rest of a read that was woken, or signalled: a signalled one returns the slot whatever is in it. */
  function AfterReadOn(s: State, p: Pid, fault: bool): State
    requires p in s.readers
  {
    if s.readers[p].Queued? && s.status == K.KeyNone then s.(readers := s.readers[p := Asleep])
    else AfterSection(s, p, Ticket(s.status == K.KeyNone, |s.h.writes|), fault)
  }

  lemma ReadOnRun(s: State, p: Pid, fault: bool)
    requires p in s.readers && (s.readers[p].Queued? || s.readers[p].Signalled?) && s.lock.Free?
    ensures Run(Next, s, ReadOnSteps(p, s.readers[p], s.status, fault)) == Some(AfterReadOn(s, p, fault))
  {
    var t := AfterReadOn(s, p, fault);
    if s.readers[p].Queued? && s.status == K.KeyNone {
      GoStep(s, p, Test, Moved(Asleep, s.lock, s.status, s.h));
      RunOne(Next, s, Go(p, Test));
      assert [Go(p, Test)] + [] == [Go(p, Test)];
    } else {
      var ticket := Ticket(s.status == K.KeyNone, |s.h.writes|);
      GoStep(s, p, Test, Moved(Passed(ticket), s.lock, s.status, s.h));
      var a := s.(readers := s.readers[p := Passed(ticket)]);
      RunOne(Next, s, Go(p, Test));
      SectionRun(a, p, fault);
      PutTwice(s.readers, p, Passed(ticket), t.readers[p]);
      RunJoin(Next, s, [Go(p, Test)], a, SectionSteps(p, fault), t);
    }
  }

  // ----- a reader and a callback

  /** A blocking read on an empty slot, a callback, and the rest of the read. */
  function AfterSleep(s: State, p: Pid): (t: State)
    requires s.status == K.KeyNone
  {
    var a := AfterRead(s, p, false, false);
    var b := AfterCallback(a);
    assert p in b.readers;
    AfterReadOn(b, p, false)
  }

  lemma SleepSteps(s: State, p: Pid) returns (steps: seq<Step>)
    requires p in s.readers ==> s.readers[p].Done? || s.readers[p].Again?
    requires s.status == K.KeyNone && s.lock.Free? && s.phase.Entered?
    ensures Run(Next, s, steps) == Some(AfterSleep(s, p))
  {
    var a := AfterRead(s, p, false, false);
    var b := AfterCallback(a);
    ReadRun(s, p, false, false);
    CallbackRun(a);
    CallbackEffect(a);
    ReadOnRun(b, p, false);
    var enter, calls := ReadSteps(p, false, s.status, false), CallbackSteps(a.features);
    RunJoin(Next, s, enter, a, calls, b);
    RunJoin(Next, s, enter + calls, b, ReadOnSteps(p, b.readers[p], b.status, false), AfterSleep(s, p));
    steps := enter + calls + ReadOnSteps(p, b.readers[p], b.status, false);
  }

  /** If the pin has changed the callback wakes the reader, and the read returns the change: a new event,
      delivered to it at once, with nothing erased and the slot empty again.  If not, the reader is back asleep. */
  lemma SleepEffect(s: State, p: Pid)
    requires s.status == K.KeyNone
    ensures var t := AfterSleep(s, p);
            && t.status == K.KeyNone && t.last == s.pin && p in t.readers && t.h.erased == s.h.erased
            && (s.pin == s.last ==>
                  t.readers[p] == Asleep && t.h.events == s.h.events && t.h.delivered == s.h.delivered)
            && (s.pin != s.last ==>
                  var value := if s.pin == 0 then K.KeyPress else K.KeyRelease;
                  && t.readers[p].Done? && t.readers[p].outcome.Got? && t.readers[p].outcome.value == value
                  && t.h.events == s.h.events + [value]
                  && t.h.delivered == s.h.delivered + [K.Delivery(|s.h.events|, value, p)])
  {
    CallbackEffect(AfterRead(s, p, false, false));
  }

  // ----- a poller and a callback

  function AfterPoll(s: State, p: Pid): State {
    s.(pollers := s.pollers[p := if s.status == K.KeyNone then PollAsleep else PollDone(true)])
  }

  lemma PollTests(s: State, p: Pid)
    requires p in s.pollers && s.pollers[p] == PollQueued
    ensures Next(s, TestPoll(p)) == Some(AfterPoll(s, p))
  {}

  lemma PollRun(s: State, p: Pid)
    requires s.features.nonblock && (p in s.pollers ==> s.pollers[p].PollDone?)
    ensures Run(Next, s, [BeginPoll(p), TestPoll(p)]) == Some(AfterPoll(s, p))
  {
    var a := s.(pollers := s.pollers[p := PollQueued]);
    PutTwice(s.pollers, p, PollQueued, AfterPoll(s, p).pollers[p]);
    PollTests(a, p);
    RunTwo(Next, s, BeginPoll(p), a, TestPoll(p), AfterPoll(s, p));
  }

  /** A poll on an empty slot, a callback, and the second test of the poll. */
  function AfterPollSleep(s: State, p: Pid): State {
    AfterPoll(AfterCallback(AfterPoll(s, p)), p)
  }

  lemma PollSleepSteps(s: State, p: Pid) returns (steps: seq<Step>)
    requires s.features.nonblock && (p in s.pollers ==> s.pollers[p].PollDone?)
    requires s.status == K.KeyNone && s.lock.Free? && s.phase.Entered?
    ensures Run(Next, s, steps) == Some(AfterPollSleep(s, p))
  {
    var a := AfterPoll(s, p);
    var b := AfterCallback(a);
    PollRun(s, p);
    CallbackRun(a);
    CallbackEffect(a);
    PollTests(b, p);
    var first, callback := [BeginPoll(p), TestPoll(p)], CallbackSteps(a.features);
    RunJoinSnoc(Next, s, first, a, callback, b, TestPoll(p));
    steps := first + callback + [TestPoll(p)];
  }

  /** If the pin has changed the poll is ready, and the change is in the slot; if not, it is back asleep. */
  lemma PollSleepEffect(s: State, p: Pid)
    requires s.status == K.KeyNone
    ensures var t := AfterPollSleep(s, p);
            && p in t.pollers && t.pollers[p] == (if s.pin != s.last then PollDone(true) else PollAsleep)
            && (t.status == K.KeyNone <==> s.pin == s.last)
  {
    CallbackEffect(AfterPoll(s, p));
  }
}
