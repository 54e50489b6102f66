/** What sleeping readers, pollers and SIGIO subscribers can rely on. */
module KeyReaders {
  import opened Runs
  import opened KeyWait
  import opened KeyRefinement
  import K = KeyIrq

  // ----- no lost wake-up

  predicate WakePending(phase: Phase) {
    phase.Stored? || phase.Unlocked?
  }

  ghost predicate NobodySleeps(s: State) {
    && (forall p :: p in s.readers ==> !s.readers[p].Asleep?)
    && (forall p :: p in s.pollers ==> !s.pollers[p].PollAsleep?)
  }

  ghost predicate Awake(s: State) {
    s.status != K.KeyNone && !WakePending(s.phase) ==> NobodySleeps(s)
  }

  lemma AwakeWake(s: State)
    requires s.phase.Unlocked?
    ensures NobodySleeps(Callback(s, Wake).value)
  {}

  lemma AwakeStep(s: State, step: Step)
    requires Awake(s) && Next(s, step).Some?
    ensures Awake(Next(s, step).value)
  {}

  lemma WakeFollows(s: State)
    requires WakePending(s.phase)
    ensures exists rest, t :: (rest == [Wake] || rest == [UnlockHandler, Wake])
                              && Run(Next, s, rest) == Some(t) && t.status == s.status && NobodySleeps(t)
  {
    var u := if s.phase.Stored? then Next(s, UnlockHandler).value else s;
    var t := Next(u, Wake).value;
    AwakeWake(u);
    RunOne(Next, u, Wake);
    if s.phase.Stored? {
      RunOne(Next, s, UnlockHandler);
      RunConcat(Next, s, [UnlockHandler], [Wake]);
      assert [UnlockHandler] + [Wake] == [UnlockHandler, Wake];
    }
  }

  /** Whenever a reader or a poller is asleep although the slot holds an event, the callback that stored
      the event has yet to pass its wake_up, which is its next step but one at most. */
  lemma NoLostWakeup(features: Features, delay: nat, steps: seq<Step>, s: State)
    requires Run(Next, Init(features, delay), steps) == Some(s)
    requires s.status != K.KeyNone
    requires (exists p :: p in s.readers && s.readers[p].Asleep?)
             || (exists p :: p in s.pollers && s.pollers[p].PollAsleep?)
    ensures s.phase.Stored? || s.phase.Unlocked?
    ensures exists rest, t :: (rest == [Wake] || rest == [UnlockHandler, Wake])
                              && Run(Next, s, rest) == Some(t) && t.status == s.status && NobodySleeps(t)
  {
    forall t, l | Awake(t) && Next(t, l).Some? ensures Awake(Next(t, l).value) { AwakeStep(t, l); }
    Invariant(Next, Awake, Init(features, delay), steps);
    WakeFollows(s);
  }

  // ----- SIGIO

  predicate SignalPending(phase: Phase) {
    WakePending(phase) || phase.BeforeSignal?
  }

  function InFlight(s: State): nat {
    if s.features.async && SignalPending(s.phase) then 1 else 0
  }

  ghost predicate SubscriptionKept(sub: Subscription, stores: nat, inFlight: nat) {
    && sub.storesBefore <= stores
    && stores <= sub.storesBefore + sub.signals + inFlight <= stores + 1
  }

  ghost predicate Signalled(s: State) {
    && |s.h.events| <= |s.h.stored|
    && (if s.features.async then |s.h.stored| == s.kills + InFlight(s) else s.kills == 0 && s.async == map[])
    && (forall p :: p in s.async ==> SubscriptionKept(s.async[p], |s.h.stored|, InFlight(s)))
  }

  lemma SignalledSignal(s: State)
    requires Signalled(s) && Callback(s, Signal).Some? && s.features.async
    ensures Signalled(Callback(s, Signal).value)
  {
    var t := Callback(s, Signal).value;
    forall p | p in t.async ensures SubscriptionKept(t.async[p], |t.h.stored|, InFlight(t)) {
      assert SubscriptionKept(s.async[p], |s.h.stored|, InFlight(s));
    }
  }

  ghost predicate SignalInv(s: State) {
    && Signalled(s)
    && (s.phase.BeforeSignal? ==> s.features.async)
  }

  lemma SignalCallback(s: State, step: Step)
    requires SignalInv(s) && Callback(s, step).Some?
    ensures SignalInv(Callback(s, step).value)
  {
    if step.Signal? {
      SignalledSignal(s);
    }
  }

  lemma MoveKeepsStores(p: Pid, r: Reader, lock: Lock, status: K.Status, h: K.History, action: Action)
    requires Move(p, r, lock, status, h, action).Some?
    ensures var h' := Move(p, r, lock, status, h, action).value.h; h'.stored == h.stored && h'.events == h.events
  {}

  lemma SignalStep(s: State, step: Step)
    requires SignalInv(s) && Next(s, step).Some?
    ensures SignalInv(Next(s, step).value)
  {
    match step
    case LockHandler | ReadGpio | Store | UnlockHandler | Wake | Signal => SignalCallback(s, step);
    case Subscribe(_) | Unsubscribe(_) =>
    case Edge | Tick | TakeIrq | TaskletStart | TaskletRun | Expire =>
    case BeginPoll(_) | TestPoll(_) | PollTimeout(_) =>
    case Go(p, action) => MoveKeepsStores(p, s.readers[p], s.lock, s.status, s.h, action);
    case BeginRead(_, _) =>
  }

  /** Every stored result, hence every event, is followed by its kill_fasync: results exceed calls by
      the one still in flight at most, and the same holds for each subscriber's own signals, counted
      since it subscribed. */
  lemma SignalsKeepUp(delay: nat, steps: seq<Step>, s: State)
    requires Run(Next, Init(FASYNC, delay), steps) == Some(s)
    ensures |s.h.events| <= |s.h.stored|
    ensures |s.h.stored| == s.kills + (if SignalPending(s.phase) then 1 else 0)
    ensures forall p :: p in s.async ==>
              |s.h.stored| - s.async[p].storesBefore
              <= s.async[p].signals + (if SignalPending(s.phase) then 1 else 0)
              <= |s.h.stored| - s.async[p].storesBefore + 1
  {
    forall t, l | SignalInv(t) && Next(t, l).Some? ensures SignalInv(Next(t, l).value) { SignalStep(t, l); }
    Invariant(Next, SignalInv, Init(FASYNC, delay), steps);
    forall t, l | IsFasync(t) && Next(t, l).Some? ensures IsFasync(Next(t, l).value) { NoblockioSimulation(t, l); }
    Invariant(Next, IsFasync, Init(FASYNC, delay), steps);
    forall p | p in s.async
      ensures |s.h.stored| - s.async[p].storesBefore
              <= s.async[p].signals + (if SignalPending(s.phase) then 1 else 0)
              <= |s.h.stored| - s.async[p].storesBefore + 1
    {
      assert SubscriptionKept(s.async[p], |s.h.stored|, InFlight(s));
    }
  }
}
