/** When a read returns KEY_NONE.  The status is tested outside the lock and read inside it; what
    happened to the slot between the two decides the value returned. */
module KeyRace {
  import opened Runs
  import opened KeyWait
  import opened KeyRefinement
  import K = KeyIrq

  /** The content of the slot after its first n writes. */
  function SlotAt(h: K.History, n: nat): K.Status
    requires n <= |h.writes|
  {
    if n == 0 then K.KeyNone
    else match h.writes[n - 1]
      case StoredEvent(k) => if k < |h.events| then h.events[k] else K.KeyNone
      case _ => K.KeyNone
  }

  ghost predicate SerialsKnown(h: K.History) {
    && (forall i :: 0 <= i < |h.writes| && h.writes[i].StoredEvent? ==> h.writes[i].serial < |h.events|)
    && (forall k :: 0 <= k < |h.events| ==> h.events[k] != K.KeyNone)
  }

  /** Between its last test and write number `at` the reader itself did not write, and the test saw an event
      exactly if no signal made the reader go on. */
  ghost predicate TicketOk(h: K.History, p: Pid, ticket: Ticket, at: nat) {
    && ticket.mark <= at <= |h.writes|
    && (forall j :: ticket.mark <= j < at ==> h.writes[j] != K.Cleared(p))
    && (ticket.interrupted <==> SlotAt(h, ticket.mark) == K.KeyNone)
  }

  ghost predicate OutcomeOk(h: K.History, p: Pid, outcome: Outcome) {
    outcome.Got? ==> TicketOk(h, p, outcome.ticket, outcome.at) && outcome.value == SlotAt(h, outcome.at)
  }

  ghost predicate ReaderOk(h: K.History, p: Pid, r: Reader) {
    match r
    case Passed(ticket) => TicketOk(h, p, ticket, |h.writes|)
    case Holding(ticket, at) => at == |h.writes| && TicketOk(h, p, ticket, at)
    case Copied(value, ticket, at) => at == |h.writes| && TicketOk(h, p, ticket, at) && value == SlotAt(h, at)
    case Leaving(outcome) => OutcomeOk(h, p, outcome)
    case Done(outcome) => OutcomeOk(h, p, outcome)
    case _ => true
  }

  ghost predicate Races(s: State) {
    && Exclusive(s)
    && SerialsKnown(s.h)
    && s.status == SlotAt(s.h, |s.h.writes|)
    && (forall p :: p in s.readers ==> ReaderOk(s.h, p, s.readers[p]))
  }

  // ----- one write

  ghost predicate Written(h: K.History, h': K.History, w: K.Write) {
    && h'.writes == h.writes + [w]
    && (if w.StoredEvent? then w.serial == |h.events| && |h'.events| == |h.events| + 1 && h.events <= h'.events
                               && h'.events[|h.events|] != K.KeyNone
        else h'.events == h.events)
  }

  lemma SlotAtGrows(h: K.History, h': K.History, w: K.Write, n: nat)
    requires SerialsKnown(h) && Written(h, h', w) && n <= |h.writes|
    ensures SerialsKnown(h')
    ensures SlotAt(h', n) == SlotAt(h, n)
  {}

  lemma OutcomeGrows(h: K.History, h': K.History, w: K.Write, p: Pid, outcome: Outcome)
    requires SerialsKnown(h) && Written(h, h', w)
    requires OutcomeOk(h, p, outcome)
    ensures OutcomeOk(h', p, outcome)
  {}

  /** A write by somebody else leaves what a reader outside its critical section knows. */
  lemma ReaderOkGrows(h: K.History, h': K.History, w: K.Write, p: Pid, r: Reader)
    requires SerialsKnown(h) && Written(h, h', w) && w != K.Cleared(p)
    requires ReaderOk(h, p, r) && !r.Holding? && !r.Copied?
    ensures ReaderOk(h', p, r)
  {
    match r
    case Passed(ticket) => SlotAtGrows(h, h', w, ticket.mark);
    case Leaving(outcome) => OutcomeGrows(h, h', w, p, outcome);
    case Done(outcome) => OutcomeGrows(h, h', w, p, outcome);
    case _ =>
  }

  // ----- steps

  lemma RacesStore(s: State)
    requires Races(s) && s.phase.HasRead?
    ensures Races(Callback(s, Store).value)
  {
    var t := Callback(s, Store).value;
    ExclusiveCallback(s, Store);
    var w := t.h.writes[|s.h.writes|];
    assert Written(s.h, t.h, w);
    SlotAtGrows(s.h, t.h, w, 0);
    forall p | p in t.readers ensures ReaderOk(t.h, p, t.readers[p]) {
      assert !InSection(s.readers[p]);
      ReaderOkGrows(s.h, t.h, w, p, s.readers[p]);
    }
  }

  lemma RacesWake(s: State)
    requires Races(s) && s.phase.Unlocked?
    ensures Races(Callback(s, Wake).value)
  {
    var t := Callback(s, Wake).value;
    ExclusiveWake(s);
    forall p | p in t.readers ensures ReaderOk(t.h, p, t.readers[p]) {
      assert t.readers[p] == WokenReader(s.readers[p]);
    }
  }

  lemma ReaderOkFrame(h: K.History, h': K.History, p: Pid, r: Reader)
    requires h'.writes == h.writes && h'.events == h.events
    requires ReaderOk(h, p, r)
    ensures ReaderOk(h', p, r)
  {}

  /** Slot and log untouched, and no reader has moved. */
  lemma RacesFrame(s: State, t: State)
    requires Races(s) && Exclusive(t)
    requires t.readers == s.readers && t.status == s.status
    requires t.h.writes == s.h.writes && t.h.events == s.h.events
    ensures Races(t)
  {
    forall p | p in t.readers ensures ReaderOk(t.h, p, t.readers[p]) {
      assert ReaderOk(s.h, p, s.readers[p]);
      ReaderOkFrame(s.h, t.h, p, s.readers[p]);
    }
  }

  lemma MoveOk(p: Pid, r: Reader, lock: Lock, status: K.Status, h: K.History, action: Action)
    requires Move(p, r, lock, status, h, action).Some? && action != Clear
    requires SerialsKnown(h) && ReaderOk(h, p, r) && status == SlotAt(h, |h.writes|)
    ensures var m := Move(p, r, lock, status, h, action).value;
            ReaderOk(h, p, m.reader) && m.status == status && m.h == h
  {}

  lemma RacesMove(s: State, p: Pid, action: Action)
    requires Races(s) && Next(s, Go(p, action)).Some? && action != Clear
    ensures Races(Next(s, Go(p, action)).value)
  {
    var t := Next(s, Go(p, action)).value;
    ExclusiveRead(s, Go(p, action));
    MoveOk(p, s.readers[p], s.lock, s.status, s.h, action);
    forall q | q in t.readers ensures ReaderOk(t.h, q, t.readers[q]) {
      assert q != p ==> t.readers[q] == s.readers[q];
    }
  }

  lemma RacesClear(s: State, p: Pid)
    requires Races(s) && p in s.readers && s.readers[p].Copied?
    ensures Races(Next(s, Go(p, Clear)).value)
  {
    var t := Next(s, Go(p, Clear)).value;
    ExclusiveRead(s, Go(p, Clear));
    var r, w := s.readers[p], K.Cleared(p);
    assert Written(s.h, t.h, w);
    SlotAtGrows(s.h, t.h, w, r.at);
    SlotAtGrows(s.h, t.h, w, r.ticket.mark);
    forall q | q in t.readers ensures ReaderOk(t.h, q, t.readers[q]) {
      if q == p {
        assert t.readers[p] == Leaving(Got(r.value, r.ticket, r.at));
      } else {
        assert t.readers[q] == s.readers[q];
        assert !InSection(s.readers[q]);
        ReaderOkGrows(s.h, t.h, w, q, s.readers[q]);
      }
    }
  }

  lemma RacesBegin(s: State, p: Pid, nonblock: bool)
    requires Races(s) && Next(s, BeginRead(p, nonblock)).Some?
    ensures Races(Next(s, BeginRead(p, nonblock)).value)
  {
    var t := Next(s, BeginRead(p, nonblock)).value;
    ExclusiveRead(s, BeginRead(p, nonblock));
    forall q | q in t.readers ensures ReaderOk(t.h, q, t.readers[q]) {
      assert q != p ==> t.readers[q] == s.readers[q];
    }
  }

  lemma RacesStep(s: State, step: Step)
    requires Races(s) && Next(s, step).Some?
    ensures Races(Next(s, step).value)
  {
    ExclusiveStep(s, step);
    var t := Next(s, step).value;
    match step
    case Store => RacesStore(s);
    case Wake => RacesWake(s);
    case Go(p, action) => if action == Clear { RacesClear(s, p); } else { RacesMove(s, p, action); }
    case BeginRead(p, nonblock) => RacesBegin(s, p, nonblock);
    case _ => RacesFrame(s, t);
  }

  lemma RacesRun(features: Features, delay: nat, steps: seq<Step>, s: State)
    requires Run(Next, Init(features, delay), steps) == Some(s)
    ensures Races(s)
  {
    forall t, l | Races(t) && Next(t, l).Some? ensures Races(Next(t, l).value) { RacesStep(t, l); }
    Invariant(Next, Races, Init(features, delay), steps);
  }

  // ----- the characterisation

  /** Writes number mark to at - 1 contain one that left the slot empty and was not the reader's own:
      the store of a sample without change, or the successful critical section of another reader. */
  ghost predicate EmptiedByOther(h: K.History, p: Pid, mark: nat, at: nat) {
    && mark < at <= |h.writes|
    && match h.writes[at - 1]
       case StoredEvent(_) => false
       case StoredNone => true
       case Cleared(q) => q != p
  }

  /** A successful read returns the content of the slot when it took the lock.  It is KEY_NONE exactly when
      the last write between its last test and its lock emptied the slot, being a sample without change or
      another reader's, or when there was no such write and the test had found KEY_NONE already, a signal
      having ended the wait.  In particular an uninterrupted read with no write between its test and its lock
      returns an event. */
  lemma ReadRace(features: Features, delay: nat, steps: seq<Step>, s: State, p: Pid)
    requires Run(Next, Init(features, delay), steps) == Some(s)
    requires p in s.readers && s.readers[p].Done? && s.readers[p].outcome.Got?
    ensures var o := s.readers[p].outcome;
            && o.ticket.mark <= o.at <= |s.h.writes|
            && o.value == SlotAt(s.h, o.at)
            && (forall j :: o.ticket.mark <= j < o.at ==> s.h.writes[j] != K.Cleared(p))
            && (o.value == K.KeyNone <==>
                  if o.ticket.mark < o.at then EmptiedByOther(s.h, p, o.ticket.mark, o.at)
                  else o.ticket.interrupted)
  {
    RacesRun(features, delay, steps, s);
    var o := s.readers[p].outcome;
    assert OutcomeOk(s.h, p, o);
    if o.ticket.mark < o.at {
      assert s.h.writes[o.at - 1] != K.Cleared(p);
    }
  }
}
