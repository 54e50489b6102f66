/** What reads return, against what the history says was delivered.  The value reaches the user when it is
    copied, the delivery is recorded when the slot is cleared, and the read returns later still. */
module KeyReturns {
  import opened Runs
  import opened KeyCalls
  import opened KeyWait
  import opened KeyRefinement
  import K = KeyIrq

  predicate IsEvent(r: Return) {
    r.outcome.Got? && r.outcome.value != K.KeyNone
  }

  /** The returned reads that brought an event. */
  function EventReturns(returned: seq<Return>): seq<Return> {
    if returned == [] then []
    else
      var last := returned[|returned| - 1];
      EventReturns(returned[..|returned| - 1]) + if IsEvent(last) then [last] else []
  }

  /** The read, if any, that has cleared an event and has yet to return. */
  function AboutToReturn(s: State): seq<Return> {
    if s.lock.ByReader? && s.lock.pid in s.readers && s.readers[s.lock.pid].Leaving? then
      var r := Return(s.lock.pid, s.readers[s.lock.pid].outcome, |s.h.writes|);
      if IsEvent(r) then [r] else []
    else []
  }

  /** The read got the value delivered, from the event of that serial: it was the last write to the slot
      before the read's own. */
  ghost predicate Matches(writes: seq<K.Write>, r: Return, d: K.Delivery) {
    && r.pid == d.reader
    && r.outcome.Got? && r.outcome.value == d.value
    && 0 < r.outcome.at < |writes|
    && writes[r.outcome.at - 1] == K.StoredEvent(d.serial)
    && writes[r.outcome.at] == K.Cleared(r.pid)
  }

  ghost predicate OneToOne(writes: seq<K.Write>, rs: seq<Return>, delivered: seq<K.Delivery>) {
    && |rs| == |delivered|
    && forall i :: 0 <= i < |rs| ==> Matches(writes, rs[i], delivered[i])
  }

  /** Between its lock and its return a failed read wrote nothing, a successful one cleared the slot, and
      nobody else wrote. */
  ghost predicate Footprint(h: K.History, r: Return) {
    && r.to <= |h.writes|
    && match r.outcome
       case Efault(at) => r.to == at
       case Got(_, _, at) => r.to == at + 1 && h.writes[at] == K.Cleared(r.pid)
  }

  ghost predicate PlaceOk(h: K.History, p: Pid, r: Reader) {
    match r
    case Holding(_, at) => at == |h.writes|
    case Copied(_, _, at) => at == |h.writes|
    case Leaving(outcome) => Footprint(h, Return(p, outcome, |h.writes|))
    case _ => true
  }

  ghost predicate HasReturned(returned: seq<Return>, p: Pid, r: Reader) {
    r.Done? ==> exists x :: x in returned && x.pid == p && x.outcome == r.outcome
  }

  ghost predicate Tagged(status: K.Status, h: K.History) {
    status != K.KeyNone ==> |h.writes| > 0 && h.writes[|h.writes| - 1] == K.StoredEvent(h.tag)
  }

  ghost predicate Accounted(s: State) {
    && Exclusive(s)
    && Tagged(s.status, s.h)
    && OneToOne(s.h.writes, EventReturns(s.returned) + AboutToReturn(s), s.h.delivered)
    && (forall i :: 0 <= i < |s.returned| ==> Footprint(s.h, s.returned[i]))
    && (forall p :: p in s.readers ==> PlaceOk(s.h, p, s.readers[p]))
    && (forall p :: p in s.readers ==> HasReturned(s.returned, p, s.readers[p]))
  }

  lemma EventReturnsSnoc(returned: seq<Return>, r: Return)
    ensures EventReturns(returned + [r]) == EventReturns(returned) + if IsEvent(r) then [r] else []
  {
    assert (returned + [r])[..|returned|] == returned;
  }

  // ----- steps

  lemma AccountedStore(s: State)
    requires Accounted(s) && s.phase.HasRead?
    ensures Accounted(Callback(s, Store).value)
  {
    var t := Callback(s, Store).value;
    ExclusiveCallback(s, Store);
    assert AboutToReturn(s) == [] == AboutToReturn(t);
    forall p | p in t.readers ensures PlaceOk(t.h, p, t.readers[p]) {
      assert !InSection(s.readers[p]);
    }
  }

  lemma AccountedWake(s: State)
    requires Accounted(s) && s.phase.Unlocked?
    ensures Accounted(Callback(s, Wake).value)
  {
    var t := Callback(s, Wake).value;
    ExclusiveWake(s);
    forall p | p in t.readers ensures t.readers[p] == WokenReader(s.readers[p]) {}
    assert AboutToReturn(t) == AboutToReturn(s);
  }

  lemma OneToOneGrows(writes: seq<K.Write>, w: K.Write, rs: seq<Return>, delivered: seq<K.Delivery>)
    requires OneToOne(writes, rs, delivered)
    ensures OneToOne(writes + [w], rs, delivered)
  {}

  lemma OneToOneSnoc(writes: seq<K.Write>, rs: seq<Return>, delivered: seq<K.Delivery>, r: Return, d: K.Delivery)
    requires OneToOne(writes, rs, delivered) && Matches(writes, r, d)
    ensures OneToOne(writes, rs + [r], delivered + [d])
  {}

  lemma EventMatches(writes: seq<K.Write>, p: Pid, status: K.Status, ticket: Ticket, tag: nat)
    requires |writes| > 0 && writes[|writes| - 1] == K.StoredEvent(tag)
    ensures Matches(writes + [K.Cleared(p)], Return(p, Got(status, ticket, |writes|), |writes| + 1),
                    K.Delivery(tag, status, p))
  {}

  lemma OneToOneClear(h: K.History, rs: seq<Return>, p: Pid, status: K.Status, ticket: Ticket)
    requires OneToOne(h.writes, rs, h.delivered) && Tagged(status, h)
    ensures var h' := K.RecordClear(h, status, p);
            var r := Return(p, Got(status, ticket, |h.writes|), |h.writes| + 1);
            OneToOne(h'.writes, if status != K.KeyNone then rs + [r] else rs, h'.delivered)
  {
    OneToOneGrows(h.writes, K.Cleared(p), rs, h.delivered);
    if status != K.KeyNone {
      EventMatches(h.writes, p, status, ticket, h.tag);
      var r := Return(p, Got(status, ticket, |h.writes|), |h.writes| + 1);
      OneToOneSnoc(h.writes + [K.Cleared(p)], rs, h.delivered, r, K.Delivery(h.tag, status, p));
    }
  }

  lemma FootprintGrows(h: K.History, h': K.History, r: Return)
    requires h.writes <= h'.writes && Footprint(h, r)
    ensures Footprint(h', r)
  {}

  /** What the reader's own clearing leaves for everybody. */
  lemma ClearPlaces(s: State, t: State, p: Pid, o: Outcome)
    requires Accounted(s) && s.lock == ByReader(p)
    requires o.Got? && o.at == |s.h.writes|
    requires t.readers == s.readers[p := Leaving(o)] && t.returned == s.returned
    requires t.h.writes == s.h.writes + [K.Cleared(p)]
    ensures forall i :: 0 <= i < |t.returned| ==> Footprint(t.h, t.returned[i])
    ensures forall q :: q in t.readers ==> PlaceOk(t.h, q, t.readers[q])
    ensures forall q :: q in t.readers ==> HasReturned(t.returned, q, t.readers[q])
  {
    forall i | 0 <= i < |t.returned| ensures Footprint(t.h, t.returned[i]) {
      FootprintGrows(s.h, t.h, s.returned[i]);
    }
    forall q | q in t.readers ensures PlaceOk(t.h, q, t.readers[q]) && HasReturned(t.returned, q, t.readers[q]) {
      if q != p {
        assert q in s.readers && t.readers[q] == s.readers[q];
        assert !InSection(s.readers[q]) && HasReturned(s.returned, q, s.readers[q]);
      }
    }
  }

  lemma ClearAboutToReturn(s: State, t: State, p: Pid, o: Outcome)
    requires p in s.readers && s.lock == t.lock == ByReader(p) && s.readers[p].Copied? && o.Got?
    requires t.readers == s.readers[p := Leaving(o)] && |t.h.writes| == |s.h.writes| + 1
    ensures AboutToReturn(s) == []
    ensures AboutToReturn(t) == if o.value != K.KeyNone then [Return(p, o, |s.h.writes| + 1)] else []
  {}

  lemma ClearAccounted(s: State, t: State, p: Pid, o: Outcome)
    requires Accounted(s) && p in s.readers && s.readers[p].Copied? && s.lock == ByReader(p)
    requires o == Got(s.status, s.readers[p].ticket, |s.h.writes|)
    requires t == s.(readers := s.readers[p := Leaving(o)], status := K.KeyNone, h := K.RecordClear(s.h, s.status, p))
    requires Exclusive(t)
    ensures Accounted(t)
  {
    var rs := EventReturns(s.returned);
    ClearAboutToReturn(s, t, p, o);
    assert rs + [] == rs;
    OneToOneClear(s.h, rs, p, s.status, o.ticket);
    ClearPlaces(s, t, p, o);
  }

  lemma AccountedClear(s: State, p: Pid)
    requires Accounted(s) && p in s.readers && s.readers[p].Copied?
    ensures Accounted(Next(s, Go(p, Clear)).value)
  {
    SectionClears(s, p);
    var o := Got(s.status, s.readers[p].ticket, |s.h.writes|);
    assert s.lock == ByReader(p) && s.readers[p].value == s.status && PlaceOk(s.h, p, s.readers[p]);
    var t := s.(readers := s.readers[p := Leaving(o)], status := K.KeyNone, h := K.RecordClear(s.h, s.status, p));
    ExclusiveAt(s, t, p, Leaving(o));
    ClearAccounted(s, t, p, o);
  }

  lemma HasReturnedGrows(returned: seq<Return>, r: Return, q: Pid, reader: Reader)
    requires HasReturned(returned, q, reader)
    ensures HasReturned(returned + [r], q, reader)
  {
    if reader.Done? {
      var x :| x in returned && x.pid == q && x.outcome == reader.outcome;
      assert x in returned + [r];
    }
  }

  lemma UnlockAppends(s: State, t: State, p: Pid, r: Return)
    requires p in s.readers && s.readers[p] == Leaving(r.outcome) && s.lock == ByReader(p)
    requires r.pid == p && r.to == |s.h.writes|
    requires t.lock.Free? && t.returned == s.returned + [r]
    ensures EventReturns(t.returned) + AboutToReturn(t) == EventReturns(s.returned) + AboutToReturn(s)
  {
    EventReturnsSnoc(s.returned, r);
    assert AboutToReturn(s) == if IsEvent(r) then [r] else [];
    var rs := EventReturns(t.returned);
    assert rs + [] == rs;
  }

  lemma UnlockReturned(s: State, p: Pid, r: Return)
    requires p in s.readers && r.pid == p
    requires forall q :: q in s.readers ==> HasReturned(s.returned, q, s.readers[q])
    ensures var readers := s.readers[p := Done(r.outcome)];
            forall q :: q in readers ==> HasReturned(s.returned + [r], q, readers[q])
  {
    var readers := s.readers[p := Done(r.outcome)];
    forall q | q in readers ensures HasReturned(s.returned + [r], q, readers[q]) {
      if q == p {
        assert (s.returned + [r])[|s.returned|] == r;
      } else {
        HasReturnedGrows(s.returned, r, q, s.readers[q]);
      }
    }
  }

  lemma UnlockAccounted(s: State, t: State, p: Pid, r: Return)
    requires Accounted(s) && Exclusive(t) && p in s.readers && Footprint(s.h, r)
    requires t.status == s.status && t.h == s.h && t.returned == s.returned + [r]
    requires t.readers == s.readers[p := Done(r.outcome)]
    requires EventReturns(t.returned) + AboutToReturn(t) == EventReturns(s.returned) + AboutToReturn(s)
    requires forall q :: q in t.readers ==> HasReturned(t.returned, q, t.readers[q])
    ensures Accounted(t)
  {
    forall i | 0 <= i < |t.returned| ensures Footprint(t.h, t.returned[i]) {
      if i < |s.returned| {
        assert t.returned[i] == s.returned[i];
      }
    }
    forall q | q in t.readers ensures PlaceOk(t.h, q, t.readers[q]) {
      assert q != p ==> t.readers[q] == s.readers[q];
    }
  }

  lemma AccountedUnlock(s: State, p: Pid)
    requires Accounted(s) && p in s.readers && s.readers[p].Leaving?
    ensures Accounted(Next(s, Go(p, UnlockReader)).value)
  {
    SectionLeaves(s, p);
    var r := Return(p, s.readers[p].outcome, |s.h.writes|);
    var t := s.(readers := s.readers[p := Done(r.outcome)], lock := Free, returned := s.returned + [r]);
    assert s.lock == ByReader(p) && PlaceOk(s.h, p, s.readers[p]);
    ExclusiveAt(s, t, p, Done(r.outcome));
    UnlockAppends(s, t, p, r);
    UnlockReturned(s, p, r);
    UnlockAccounted(s, t, p, r);
  }

  /** Nothing written, returned or delivered, and readers move on outside the last steps of a read. */
  lemma AccountedFrame(s: State, t: State)
    requires Accounted(s) && Exclusive(t)
    requires t.status == s.status && t.returned == s.returned && t.h.tag == s.h.tag
    requires t.h.writes == s.h.writes && t.h.delivered == s.h.delivered
    requires AboutToReturn(t) == AboutToReturn(s)
    requires forall p :: p in t.readers ==>
               (p in s.readers && t.readers[p] == s.readers[p])
               || (PlaceOk(s.h, p, t.readers[p]) && !t.readers[p].Done?)
    ensures Accounted(t)
  {
    forall p | p in t.readers ensures PlaceOk(t.h, p, t.readers[p]) {
      if p in s.readers && t.readers[p] == s.readers[p] {
        assert PlaceOk(s.h, p, s.readers[p]);
      }
    }
  }

  lemma MovePlace(p: Pid, r: Reader, lock: Lock, status: K.Status, h: K.History, action: Action)
    requires Move(p, r, lock, status, h, action).Some? && !action.Clear? && !action.UnlockReader?
    requires PlaceOk(h, p, r)
    ensures var m := Move(p, r, lock, status, h, action).value;
            && PlaceOk(h, p, m.reader) && !m.reader.Done? && m.h == h && m.status == status
            && (m.reader.Leaving? ==> m.reader.outcome.Efault?) && !r.Leaving?
  {}

  lemma MoveFrame(s: State, p: Pid, action: Action)
    requires Accounted(s) && Next(s, Go(p, action)).Some? && !action.Clear? && !action.UnlockReader?
    ensures var t := Next(s, Go(p, action)).value;
            && p in s.readers && p in t.readers && t.readers == s.readers[p := t.readers[p]]
            && PlaceOk(s.h, p, t.readers[p]) && !t.readers[p].Done?
            && !s.readers[p].Leaving? && (t.readers[p].Leaving? ==> t.readers[p].outcome.Efault?)
            && t.status == s.status && t.returned == s.returned && t.h == s.h
            && (t.lock == s.lock || (s.lock.Free? && t.lock == ByReader(p)))
  {
    MovePlace(p, s.readers[p], s.lock, s.status, s.h, action);
  }

  lemma AccountedMove(s: State, p: Pid, action: Action)
    requires Accounted(s) && Next(s, Go(p, action)).Some? && !action.Clear? && !action.UnlockReader?
    ensures Accounted(Next(s, Go(p, action)).value)
  {
    var t := Next(s, Go(p, action)).value;
    ExclusiveRead(s, Go(p, action));
    MoveFrame(s, p, action);
    assert AboutToReturn(t) == AboutToReturn(s);
    AccountedFrame(s, t);
  }

  lemma AccountedBegin(s: State, p: Pid, nonblock: bool)
    requires Accounted(s) && Next(s, BeginRead(p, nonblock)).Some?
    ensures Accounted(Next(s, BeginRead(p, nonblock)).value)
  {
    var t := Next(s, BeginRead(p, nonblock)).value;
    ExclusiveRead(s, BeginRead(p, nonblock));
    AccountedFrame(s, t);
  }

  lemma HardwareFrame(s: State, step: Step)
    requires Hardware(s, step).Some?
    ensures var t := Hardware(s, step).value;
            && t.readers == s.readers && t.lock == s.lock && t.status == s.status && t.returned == s.returned
            && t.h.tag == s.h.tag && t.h.writes == s.h.writes && t.h.delivered == s.h.delivered
            && (HandlerInSection(t.phase) <==> HandlerInSection(s.phase))
  {}

  /** What Accounted speaks of is as it was. */
  lemma AccountedSame(s: State, t: State)
    requires Accounted(s)
    requires t.readers == s.readers && t.lock == s.lock && t.status == s.status && t.returned == s.returned
    requires t.h.tag == s.h.tag && t.h.writes == s.h.writes && t.h.delivered == s.h.delivered
    requires HandlerInSection(t.phase) <==> HandlerInSection(s.phase)
    ensures Accounted(t)
  {
    assert Exclusive(t);
    assert AboutToReturn(t) == AboutToReturn(s);
    AccountedFrame(s, t);
  }

  lemma AccountedHardware(s: State, step: Step)
    requires Accounted(s) && Hardware(s, step).Some?
    ensures Accounted(Hardware(s, step).value)
  {
    HardwareFrame(s, step);
    AccountedSame(s, Hardware(s, step).value);
  }

  lemma AccountedCallback(s: State, step: Step)
    requires Accounted(s) && Callback(s, step).Some?
    ensures Accounted(Callback(s, step).value)
  {
    if step.Store? {
      AccountedStore(s);
    } else if step.Wake? {
      AccountedWake(s);
    } else {
      ExclusiveCallback(s, step);
      AccountedFrame(s, Callback(s, step).value);
    }
  }

  lemma AccountedPoll(s: State, step: Step)
    requires Accounted(s) && PollStep(s, step).Some?
    ensures Accounted(PollStep(s, step).value)
  {
    AccountedFrame(s, PollStep(s, step).value);
  }

  lemma AccountedAsync(s: State, step: Step)
    requires Accounted(s) && AsyncStep(s, step).Some?
    ensures Accounted(AsyncStep(s, step).value)
  {
    AccountedFrame(s, AsyncStep(s, step).value);
  }

  lemma AccountedStep(s: State, step: Step)
    requires Accounted(s) && Next(s, step).Some?
    ensures Accounted(Next(s, step).value)
  {
    match step
    case Edge | Tick | TakeIrq | TaskletStart | TaskletRun | Expire => AccountedHardware(s, step);
    case LockHandler | ReadGpio | Store | UnlockHandler | Wake | Signal => AccountedCallback(s, step);
    case BeginPoll(_) | TestPoll(_) | PollTimeout(_) => AccountedPoll(s, step);
    case Subscribe(_) | Unsubscribe(_) => AccountedAsync(s, step);
    case BeginRead(p, nonblock) => AccountedBegin(s, p, nonblock);
    case Go(p, Clear) => AccountedClear(s, p);
    case Go(p, UnlockReader) => AccountedUnlock(s, p);
    case Go(p, action) => AccountedMove(s, p, action);
  }

  lemma AccountedRun(features: Features, delay: nat, steps: seq<Step>, s: State)
    requires Run(Next, Init(features, delay), steps) == Some(s)
    ensures Accounted(s)
  {
    forall t, l | Accounted(t) && Next(t, l).Some? ensures Accounted(Next(t, l).value) { AccountedStep(t, l); }
    Invariant(Next, Accounted, Init(features, delay), steps);
  }

  // ----- the correspondence

  /** The reads that returned an event are, one by one and in the same order, the deliveries, but for the
      last while its read has yet to return: same reader, same value, and the event was the last write to the
      slot before the read's own.  So no event is returned twice, and none is delivered that no read brings. */
  lemma ReturnsAreDeliveries(features: Features, delay: nat, steps: seq<Step>, s: State)
    requires Run(Next, Init(features, delay), steps) == Some(s)
    ensures var rs := EventReturns(s.returned) + AboutToReturn(s);
            && |rs| == |s.h.delivered|
            && forall i :: 0 <= i < |rs| ==> Matches(s.h.writes, rs[i], s.h.delivered[i])
    ensures |AboutToReturn(s)| <= 1 && (s.lock.Free? ==> AboutToReturn(s) == [])
    ensures forall p :: p in s.readers && s.readers[p].Done? ==>
              exists r :: r in s.returned && r.pid == p && r.outcome == s.readers[p].outcome
  {
    AccountedRun(features, delay, steps, s);
    forall p | p in s.readers && s.readers[p].Done?
      ensures exists r :: r in s.returned && r.pid == p && r.outcome == s.readers[p].outcome
    {
      assert HasReturned(s.returned, p, s.readers[p]);
    }
  }

  /** A read that returned -EFAULT saw no write to the slot, its own or another's, between its lock and its
      return; a successful one saw one, its own clearing of the slot. */
  lemma ReadFootprint(features: Features, delay: nat, steps: seq<Step>, s: State)
    requires Run(Next, Init(features, delay), steps) == Some(s)
    ensures forall r :: r in s.returned && r.outcome.Efault? ==> r.to == r.outcome.at
    ensures forall r :: r in s.returned && r.outcome.Got? ==>
              r.to == r.outcome.at + 1 <= |s.h.writes| && s.h.writes[r.outcome.at] == K.Cleared(r.pid)
  {
    AccountedRun(features, delay, steps, s);
    forall r | r in s.returned ensures Footprint(s.h, r) {}
  }
}
