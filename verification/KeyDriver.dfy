/** The data of the drivers with a wait queue, changed in place by their functions.  The methods in the first
    part are the code between two points where others can intervene, and take one step of the machine in
    KeyWait each; those in the second are whole functions, put together from these. */
module KeyDriver {
  import opened Runs
  import opened KeyCalls
  import opened KeyWait
  import K = KeyIrq

  class Driver {
    const features: Features
    const delay: nat
    var now: nat
    var pin: K.Level
    var irq: bool
    var scheduled: bool
    var running: bool
    var timer: K.Timer
    var phase: Phase
    var lastValue: K.Level
    var status: K.Status
    var lock: Lock
    var readers: map<Pid, Reader>
    var pollers: map<Pid, Poller>
    var async: map<Pid, Subscription>
    var kills: nat
    var returned: seq<Return>       // instrumentation
    var h: K.History                // instrumentation

    ghost function View(): State
      reads this
    {
      State(features, delay, now, pin, irq, scheduled, running, timer, phase, lastValue, status, lock,
            readers, pollers, async, kills, returned, h)
    }

    constructor (features: Features, delay: nat)
      ensures View() == Init(features, delay)
    {
      this.features, this.delay := features, delay;
      now, pin, irq, scheduled, running := 0, 1, false, false, false;
      timer, phase, lastValue, status, lock := K.Unarmed, Idle, 1, K.KeyNone, Free;
      readers, pollers, async := map[], map[], map[];
      kills, returned, h := 0, [], K.NO_HISTORY;
    }

    // ----- interrupt and tasklet

    method KeyInterruptHandler()
      requires irq
      modifies this`irq, this`scheduled
      ensures Next(old(View()), TakeIrq) == Some(View())
    {
      irq := false;
      scheduled := true;
    }

    method TaskletDequeue()
      requires scheduled && !running
      modifies this`scheduled, this`running
      ensures Next(old(View()), TaskletStart) == Some(View())
    {
      scheduled := false;
      running := true;
    }

    method KeyIrqTasklet()
      requires running
      modifies this`timer, this`h, this`running
      ensures Next(old(View()), TaskletRun) == Some(View())
    {
      timer := K.Armed(now + delay);
      h := h.(lastRun := now);
      running := false;
    }

    // ----- timer_function

    method TimerFire() returns (fired: bool)
      modifies this`timer, this`phase, this`h
      ensures fired <==> Next(old(View()), Expire).Some?
      ensures if fired then Next(old(View()), Expire) == Some(View()) else View() == old(View())
    {
      fired := timer.Armed? && timer.deadline <= now && phase.Idle?;
      if fired {
        timer, phase := K.Unarmed, Entered;
        h := h.(expiries := h.expiries + [now]);
      }
    }

    method TimerLock() returns (taken: bool)
      requires phase.Entered?
      modifies this`phase, this`lock
      ensures taken <==> Next(old(View()), LockHandler).Some?
      ensures if taken then Next(old(View()), LockHandler) == Some(View()) else View() == old(View())
    {
      taken := lock.Free?;
      if taken {
        phase, lock := Locked, ByHandler;
      }
    }

    method TimerReadGpio()
      requires phase.Locked?
      modifies this`phase
      ensures Next(old(View()), ReadGpio) == Some(View())
    {
      phase := HasRead(pin, now);
    }

    method TimerStore()
      requires phase.HasRead?
      modifies this`status, this`lastValue, this`h, this`phase
      ensures Next(old(View()), Store) == Some(View())
    {
      var HasRead(curValue, at) := phase;
      var before := status;
      if curValue == 0 && curValue != lastValue {
        status := K.KeyPress;
      } else if curValue == 1 && curValue != lastValue {
        status := K.KeyRelease;
      } else {
        status := K.KeyNone;
      }
      lastValue, h, phase := curValue, K.RecordStore(h, before, status, curValue, at, now), Stored;
    }

    method TimerUnlock()
      requires phase.Stored?
      modifies this`phase, this`lock
      ensures Next(old(View()), UnlockHandler) == Some(View())
    {
      phase, lock := Unlocked, Free;
    }

    method TimerWakeUp()
      requires phase.Unlocked?
      modifies this`readers, this`pollers, this`phase
      ensures Next(old(View()), Wake) == Some(View())
    {
      readers := map p | p in readers :: WokenReader(readers[p]);
      pollers := map p | p in pollers :: WokenPoller(pollers[p]);
      phase := if features.async then BeforeSignal else Idle;
    }

    method TimerKillFasync()
      requires phase.BeforeSignal?
      modifies this`async, this`kills, this`phase
      ensures Next(old(View()), Signal) == Some(View())
    {
      async := map p | p in async :: async[p].(signals := async[p].signals + 1);
      kills := kills + 1;
      phase := Idle;
    }

    // ----- kery_read

    method ReadEnter(p: Pid, nonblock: bool)
      requires p in readers ==> readers[p].Done? || readers[p].Again?
      requires nonblock ==> features.nonblock
      modifies this`readers
      ensures Next(old(View()), BeginRead(p, nonblock)) == Some(View())
    {
      readers := readers[p := Start(nonblock)];
    }

    /** A test of the status, outside the lock. */
    method ReadTest(p: Pid)
      requires p in readers && (readers[p].Start? || readers[p].Queued? || readers[p].Signalled?)
      modifies this`readers
      ensures Next(old(View()), Go(p, Test)) == Some(View())
    {
      var r: Reader;
      if status != K.KeyNone {
        r := Passed(Ticket(false, |h.writes|));
      } else if readers[p].Signalled? {
        r := Passed(Ticket(true, |h.writes|));   // kery_read drops the error and reads all the same
      } else if readers[p].Queued? {
        r := Asleep;
      } else if readers[p].nonblock {
        r := Again;
      } else {
        r := Queued;
      }
      readers := readers[p := r];
    }

    /** A signal takes the reader off the wait queue; it tests once more. */
    method ReadInterrupted(p: Pid)
      requires p in readers && (readers[p].Queued? || readers[p].Asleep?)
      modifies this`readers
      ensures Next(old(View()), Go(p, Interrupt)) == Some(View())
    {
      readers := readers[p := Signalled];
    }

    method ReadLock(p: Pid) returns (taken: bool)
      requires p in readers && readers[p].Passed?
      modifies this`readers, this`lock
      ensures taken <==> Next(old(View()), Go(p, LockReader)).Some?
      ensures if taken then Next(old(View()), Go(p, LockReader)) == Some(View()) else View() == old(View())
    {
      taken := lock.Free?;
      if taken {
        readers := readers[p := Holding(readers[p].ticket, |h.writes|)];
        lock := ByReader(p);
      }
    }

    /** copy_to_user; `fault` is its answer. */
    method ReadCopy(p: Pid, fault: bool)
      requires p in readers && readers[p].Holding?
      modifies this`readers
      ensures Next(old(View()), Go(p, Copy(fault))) == Some(View())
    {
      if fault {
        readers := readers[p := Leaving(Efault(readers[p].at))];
      } else {
        readers := readers[p := Copied(status, readers[p].ticket, readers[p].at)];
      }
    }

    method ReadClear(p: Pid)
      requires p in readers && readers[p].Copied?
      modifies this`h, this`status, this`readers
      ensures Next(old(View()), Go(p, Clear)) == Some(View())
    {
      h := K.RecordClear(h, status, p);
      status := K.KeyNone;
      readers := readers[p := Leaving(Got(readers[p].value, readers[p].ticket, readers[p].at))];
    }

    method ReadUnlock(p: Pid) returns (outcome: Outcome)
      requires p in readers && readers[p].Leaving?
      modifies this`returned, this`lock, this`readers
      ensures Next(old(View()), Go(p, UnlockReader)) == Some(View())
      ensures outcome == old(readers[p].outcome)
    {
      outcome := readers[p].outcome;
      returned := returned + [Return(p, outcome, |h.writes|)];
      lock := Free;
      readers := readers[p := Done(outcome)];
    }

    // ----- key_poll and key_fasync

    method PollEnter(p: Pid)
      requires features.nonblock && (p in pollers ==> pollers[p].PollDone?)
      modifies this`pollers
      ensures Next(old(View()), BeginPoll(p)) == Some(View())
    {
      pollers := pollers[p := PollQueued];
    }

    method KeyPoll(p: Pid) returns (ready: bool)
      requires p in pollers && pollers[p].PollQueued?
      modifies this`pollers
      ensures Next(old(View()), TestPoll(p)) == Some(View())
      ensures ready <==> old(status) != K.KeyNone
    {
      ready := status != K.KeyNone;
      pollers := pollers[p := if ready then PollDone(true) else PollAsleep];
    }

    method KeyFasync(p: Pid, on: bool)
      requires features.async
      modifies this`async
      ensures Next(old(View()), if on then Subscribe(p) else Unsubscribe(p)) == Some(View())
      ensures async.Keys == if on then old(async.Keys) + {p} else old(async.Keys) - {p}
      ensures forall q :: q in async && q in old(async) ==> async[q] == old(async[q])
      ensures p in async && p !in old(async) ==> async[p].signals == 0
    {
      if on {
        if p !in async {
          async := async[p := Subscription(|h.stored|, 0)];
        }
      } else {
        async := async - {p};
      }
    }

    // ----- whole functions, when nobody else holds the lock

    method TimerRead()
      requires phase.Entered? && lock.Free?
      modifies this`phase, this`lock
      ensures View() == old(View()).(phase := HasRead(pin, now), lock := ByHandler)
    {
      var taken := TimerLock();
      TimerReadGpio();
    }

    method TimerSample()
      requires phase.Entered? && lock.Free?
      modifies this
      ensures View() == AfterStore(old(View()))
    {
      TimerRead();
      TimerStore();
    }

    method TimerNotify()
      requires phase.Stored?
      modifies this
      ensures View() == AfterWake(old(View()))
    {
      TimerUnlock();
      TimerWakeUp();
    }

    method TimerFinish()
      requires phase.Stored?
      modifies this
      ensures View() == if features.async then AfterSignal(AfterWake(old(View()))) else AfterWake(old(View()))
    {
      TimerNotify();
      if features.async {
        TimerKillFasync();
      }
    }

    method TimerFunction()
      requires phase.Entered? && lock.Free?
      modifies this
      ensures View() == AfterCallback(old(View()))
      ensures Run(Next, old(View()), CallbackSteps(features)) == Some(View())
    {
      TimerSample();
      TimerFinish();
      CallbackRun(old(View()));
    }

    method ReadTake(p: Pid, fault: bool)
      requires p in readers && readers[p].Passed? && lock.Free?
      modifies this
      ensures var n := |old(h.writes)|;
              var r := if fault then Leaving(Efault(n)) else Copied(old(status), old(readers[p].ticket), n);
              View() == old(View()).(readers := old(readers)[p := r], lock := ByReader(p))
    {
      ghost var before := readers;
      var taken := ReadLock(p);
      ghost var held := readers[p];
      ReadCopy(p, fault);
      PutTwice(before, p, held, readers[p]);
    }

    method ReadGive(p: Pid) returns (outcome: Outcome)
      requires p in readers && readers[p].Copied?
      modifies this
      ensures outcome == Got(old(readers[p].value), old(readers[p].ticket), old(readers[p].at))
      ensures View() == old(View()).(readers := old(readers)[p := Done(outcome)], lock := Free, status := K.KeyNone,
                                     h := K.RecordClear(old(h), old(status), p),
                                     returned := old(returned) + [Return(p, outcome, |h.writes|)])
    {
      ghost var before := readers;
      ReadClear(p);
      outcome := ReadUnlock(p);
      PutTwice(before, p, Leaving(outcome), Done(outcome));
    }

    method ReadSection(p: Pid, fault: bool) returns (outcome: Outcome)
      requires p in readers && readers[p].Passed? && lock.Free?
      modifies this
      ensures View() == AfterSection(old(View()), p, old(readers[p].ticket), fault)
      ensures readers[p] == Done(outcome)
    {
      ghost var before := readers;
      ReadTake(p, fault);
      ghost var taken := readers[p];
      if fault {
        outcome := ReadUnlock(p);
      } else {
        outcome := ReadGive(p);
      }
      PutTwice(before, p, taken, Done(outcome));
    }

    method ReadFirstTest(p: Pid, nonblock: bool)
      requires p in readers ==> readers[p].Done? || readers[p].Again?
      requires nonblock ==> features.nonblock
      modifies this
      ensures var r := if status != K.KeyNone then Passed(Ticket(false, |h.writes|))
                       else if nonblock then Again else Queued;
              View() == old(View()).(readers := old(readers)[p := r])
    {
      ghost var before := readers;
      ReadEnter(p, nonblock);
      ReadTest(p);
      PutTwice(before, p, Start(nonblock), readers[p]);
    }

    /** The critical section of a reader whose last step was its test; `before` is how the readers stood then. */
    method ReadEnd(p: Pid, ghost before: map<Pid, Reader>, fault: bool)
      requires p in readers && readers[p].Passed? && lock.Free?
      requires readers == before[p := readers[p]]
      modifies this
      ensures View() == AfterSection(old(View()).(readers := before), p, old(readers[p].ticket), fault)
    {
      ghost var passed := readers[p];
      var outcome := ReadSection(p, fault);
      PutTwice(before, p, passed, Done(outcome));
    }

    method KeryRead(p: Pid, nonblock: bool, fault: bool)
      requires p in readers ==> readers[p].Done? || readers[p].Again?
      requires nonblock ==> features.nonblock
      requires lock.Free?
      modifies this
      ensures View() == AfterRead(old(View()), p, nonblock, fault)
      ensures Run(Next, old(View()), ReadSteps(p, nonblock, old(status), fault)) == Some(View())
    {
      ghost var start := View();
      ReadFirstTest(p, nonblock);
      if readers[p].Passed? {
        ReadEnd(p, start.readers, fault);
      } else if readers[p].Queued? {
        ReadTest(p);
        PutTwice(start.readers, p, Queued, Asleep);
      }
      assert View() == AfterRead(start, p, nonblock, fault);
      ReadRun(start, p, nonblock, fault);
    }

    method ReadOn(p: Pid, fault: bool)
      requires p in readers && (readers[p].Queued? || readers[p].Signalled?) && lock.Free?
      modifies this
      ensures View() == AfterReadOn(old(View()), p, fault)
      ensures Run(Next, old(View()), ReadOnSteps(p, old(readers[p]), old(status), fault)) == Some(View())
    {
      ghost var start := View();
      ReadTest(p);
      if readers[p].Passed? {
        ReadEnd(p, start.readers, fault);
      }
      assert View() == AfterReadOn(start, p, fault);
      ReadOnRun(start, p, fault);
    }

    // ----- functions together

    /** A blocking read on an empty slot sleeps; a callback that finds the pin changed wakes it; it returns that
        change, which is thereby delivered to it, and the slot is empty again. */
    method SleepUntilKey(p: Pid) returns (value: K.Status)
      requires p in readers ==> readers[p].Done? || readers[p].Again?
      requires status == K.KeyNone && lock.Free? && phase.Entered? && pin != lastValue
      modifies this
      ensures View() == AfterSleep(old(View()), p)
      ensures value == (if old(pin) == 0 then K.KeyPress else K.KeyRelease)
      ensures exists steps :: Run(Next, old(View()), steps) == Some(View())
    {
      ghost var start := View();
      SleepEffect(start, p);
      KeryRead(p, false, false);
      CallbackEffect(View());
      TimerFunction();
      ReadOn(p, false);
      value := readers[p].outcome.value;
      ghost var steps := SleepSteps(start, p);
    }

    /** A blocking read on an empty slot that a signal interrupts returns KEY_NONE if nothing is stored
        meanwhile, and delivers nothing. */
    method SleepUntilSignal(p: Pid) returns (value: K.Status)
      requires p in readers ==> readers[p].Done? || readers[p].Again?
      requires status == K.KeyNone && lock.Free?
      modifies this
      ensures value == K.KeyNone && status == K.KeyNone
      ensures h.events == old(h.events) && h.delivered == old(h.delivered) && h.erased == old(h.erased)
      ensures exists steps :: Run(Next, old(View()), steps) == Some(View())
    {
      ghost var start := View();
      KeryRead(p, false, false);
      ReadInterrupted(p);
      ghost var signalled := View();
      ghost var first := ReadSteps(p, false, K.KeyNone, false);
      RunSnoc(Next, start, first, Go(p, Interrupt));
      ReadOn(p, false);
      value := readers[p].outcome.value;
      RunJoin(Next, start, first + [Go(p, Interrupt)], signalled, ReadOnSteps(p, Signalled, K.KeyNone, false), View());
    }

    /** A poll, up to the answer of its first test. */
    method PollFirst(p: Pid) returns (ready: bool)
      requires features.nonblock && (p in pollers ==> pollers[p].PollDone?)
      modifies this`pollers
      ensures View() == AfterPoll(old(View()), p)
      ensures ready <==> status != K.KeyNone
    {
      ghost var before := pollers;
      PollEnter(p);
      ready := KeyPoll(p);
      PutTwice(before, p, PollQueued, pollers[p]);
    }

    /** A poll on an empty slot is not ready; after a callback that finds the pin changed it is. */
    method PollUntilKey(p: Pid) returns (first: bool, second: bool)
      requires features.nonblock && (p in pollers ==> pollers[p].PollDone?)
      requires status == K.KeyNone && lock.Free? && phase.Entered? && pin != lastValue
      modifies this
      ensures !first && second && p in pollers && pollers[p] == PollDone(true)
      ensures View() == AfterPollSleep(old(View()), p)
      ensures exists steps :: Run(Next, old(View()), steps) == Some(View())
    {
      ghost var start := View();
      PollSleepEffect(start, p);
      first := PollFirst(p);
      CallbackEffect(View());
      TimerFunction();
      PollTests(View(), p);
      second := KeyPoll(p);
      ghost var steps := PollSleepSteps(start, p);
    }
  }
}
