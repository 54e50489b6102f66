/** What becomes of key events: the stream the callback produces, and the fate of each event in the
    one-slot status.  All statements are about every run of the 13_irq machine, hence, by refinement,
    about every run of the other three key drivers. */
module KeyEvents {
  import opened Runs
  import opened KeyIrq

  // ----- the produced stream

  /** The samples with adjacent repeats removed. */
  function Dedup(xs: seq<Level>): (ys: seq<Level>)
    ensures xs != [] ==> ys != [] && ys[0] == xs[0]
  {
    if |xs| < 2 then xs
    else if xs[0] == xs[1] then Dedup(xs[1..])
    else [xs[0]] + Dedup(xs[1..])
  }

  function EventOf(level: Level): Status {
    if level == 0 then KeyPress else KeyRelease
  }

  lemma {:induction false} DedupSnoc(xs: seq<Level>, x: Level)
    requires xs != []
    ensures Dedup(xs + [x]) == if xs[|xs| - 1] == x then Dedup(xs) else Dedup(xs) + [x]
  {
    if |xs| == 1 {
      assert xs == [xs[0]];
      assert (xs + [x])[1..] == [x];
    } else {
      assert (xs + [x])[1..] == xs[1..] + [x];
      DedupSnoc(xs[1..], x);
    }
  }

  lemma {:induction false} DedupAlternates(xs: seq<Level>)
    ensures forall i {:trigger Dedup(xs)[i]} :: 0 <= i < |Dedup(xs)| - 1 ==> Dedup(xs)[i] != Dedup(xs)[i + 1]
    ensures xs != [] ==> Dedup(xs)[|Dedup(xs)| - 1] == xs[|xs| - 1]
  {
    if |xs| >= 2 {
      DedupAlternates(xs[1..]);
    }
  }

  lemma {:induction false} AlternatingFromOne(ys: seq<Level>, i: nat)
    requires i < |ys| && ys[0] == 1
    requires forall j {:trigger ys[j]} :: 0 <= j < |ys| - 1 ==> ys[j] != ys[j + 1]
    ensures ys[i] == if i % 2 == 0 then 1 else 0
  {
    if i > 0 {
      AlternatingFromOne(ys, i - 1);
      assert ys[i - 1] != ys[i];
    }
  }

  /** The events are the changes among the levels, seen from the released level 1. */
  ghost predicate Changes(events: seq<Status>, levels: seq<Level>) {
    var ys := Dedup([1] + levels);
    && |events| == |ys| - 1
    && forall i :: 0 <= i < |events| ==> events[i] == EventOf(ys[i + 1])
  }

  lemma ChangesSnoc(events: seq<Status>, levels: seq<Level>, last: Level, x: Level)
    requires Changes(events, levels)
    requires last == ([1] + levels)[|levels|]
    ensures Changes(if x == last then events else events + [EventOf(x)], levels + [x])
  {
    DedupSnoc([1] + levels, x);
    assert [1] + (levels + [x]) == [1] + levels + [x];
  }

  ghost predicate Stream(s: State) {
    && Changes(s.h.events, s.h.levels)
    && s.last == ([1] + s.h.levels)[|s.h.levels|]
    && (s.status == KeyNone || s.status == EventOf(s.last))
  }

  lemma StreamStore(s: State)
    requires Stream(s) && s.handler.HasRead?
    ensures Stream(Next(s, Store).value)
  {
    var t := Next(s, Store).value;
    ChangesSnoc(s.h.events, s.h.levels, s.last, s.handler.cur);
    assert t.h.levels == s.h.levels + [s.handler.cur];
    assert t.h.events == if s.handler.cur == s.last then s.h.events else s.h.events + [EventOf(s.handler.cur)];
  }

  lemma StreamStep(s: State, step: Step)
    requires Stream(s) && Next(s, step).Some?
    ensures Stream(Next(s, step).value)
  {
    if step.Store? {
      StreamStore(s);
    }
  }

  lemma StreamRun(delay: nat, steps: seq<Step>, s: State)
    requires Run(Next, Init(delay), steps) == Some(s)
    ensures Stream(s)
  {
    forall t, l | Stream(t) && Next(t, l).Some? ensures Stream(Next(t, l).value) { StreamStep(t, l); }
    assert [1] + [] == [1];
    Invariant(Next, Stream, Init(delay), steps);
  }

  /** What remains after removing repeats alternates from 1, and ends with the last sample. */
  lemma DedupFromOne(levels: seq<Level>, i: nat)
    requires i < |Dedup([1] + levels)|
    ensures Dedup([1] + levels)[i] == if i % 2 == 0 then 1 else 0
    ensures var ys := Dedup([1] + levels); ys[|ys| - 1] == ([1] + levels)[|levels|]
  {
    DedupAlternates([1] + levels);
    AlternatingFromOne(Dedup([1] + levels), i);
  }

  lemma ChangesAlternate(events: seq<Status>, levels: seq<Level>)
    requires Changes(events, levels)
    ensures forall i :: 0 <= i < |events| ==> events[i] == if i % 2 == 0 then KeyPress else KeyRelease
    ensures ([1] + levels)[|levels|] == if |events| % 2 == 0 then 1 else 0
  {
    DedupFromOne(levels, |events|);
    forall i | 0 <= i < |events| ensures events[i] == if i % 2 == 0 then KeyPress else KeyRelease {
      DedupFromOne(levels, i + 1);
    }
  }

  /** The events are the samples, seen from the released level 1, with adjacent repeats removed; so
      they alternate starting with a press, their number gives last_value, and the slot never holds
      anything but NONE or the event that led to last_value. */
  lemma EventStream(delay: nat, steps: seq<Step>, s: State)
    requires Run(Next, Init(delay), steps) == Some(s)
    ensures Changes(s.h.events, s.h.levels)
    ensures forall i :: 0 <= i < |s.h.events| ==>
              s.h.events[i] == if i % 2 == 0 then KeyPress else KeyRelease
    ensures s.last == if |s.h.events| % 2 == 0 then 1 else 0
    ensures s.status == KeyNone || s.status == EventOf(s.last)
  {
    StreamRun(delay, steps, s);
    ChangesAlternate(s.h.events, s.h.levels);
  }

  // ----- conservation

  ghost predicate WasDelivered(delivered: seq<Delivery>, serial: nat) {
    exists d :: d in delivered && d.serial == serial
  }

  /** The event the slot holds now. */
  function Pending(s: State): Option<nat> {
    if s.status == KeyNone then None else Some(s.h.tag)
  }

  /** Each of the first n serials is delivered, erased or pending, and one of these only. */
  ghost predicate Partition(n: nat, delivered: seq<Delivery>, erased: set<nat>, pending: Option<nat>) {
    && (forall k: nat :: k < n <==> WasDelivered(delivered, k) || k in erased || pending == Some(k))
    && (forall k: nat :: WasDelivered(delivered, k) ==> k !in erased)
    && (pending.Some? ==> !WasDelivered(delivered, pending.value) && pending.value !in erased)
    && n == |delivered| + |erased| + (if pending.Some? then 1 else 0)
  }

  lemma PartitionErase(n: nat, delivered: seq<Delivery>, erased: set<nat>, k: nat)
    requires Partition(n, delivered, erased, Some(k))
    ensures Partition(n, delivered, erased + {k}, None)
  {}

  lemma PartitionProduce(n: nat, delivered: seq<Delivery>, erased: set<nat>)
    requires Partition(n, delivered, erased, None)
    ensures Partition(n + 1, delivered, erased, Some(n))
  {}

  lemma PartitionDeliver(n: nat, delivered: seq<Delivery>, erased: set<nat>, d: Delivery)
    requires Partition(n, delivered, erased, Some(d.serial))
    ensures Partition(n, delivered + [d], erased, None)
  {
    forall k: nat ensures WasDelivered(delivered + [d], k) <==> WasDelivered(delivered, k) || k == d.serial {
      if WasDelivered(delivered, k) {
        var e :| e in delivered && e.serial == k;
        assert e in delivered + [d];
      }
      if k == d.serial {
        assert (delivered + [d])[|delivered|] == d;
      }
    }
  }

  /** Deliveries go up in serial number and hand out the event's own value. */
  ghost predicate Faithful(delivered: seq<Delivery>, events: seq<Status>) {
    && (forall i :: 0 <= i < |delivered| ==> delivered[i].serial < |events|)
    && (forall i :: 0 <= i < |delivered| ==> delivered[i].value == events[delivered[i].serial])
    && (forall i, j :: 0 <= i < j < |delivered| ==> delivered[i].serial < delivered[j].serial)
  }

  lemma FaithfulSnoc(delivered: seq<Delivery>, events: seq<Status>, d: Delivery)
    requires Faithful(delivered, events)
    requires d.serial == |events| - 1 && d.value == events[d.serial]
    requires !WasDelivered(delivered, d.serial)
    ensures Faithful(delivered + [d], events)
  {}

  /** A status in the slot is the event produced last. */
  ghost predicate Tagged(s: State) {
    && (forall i :: 0 <= i < |s.h.events| ==> s.h.events[i] != KeyNone)
    && (s.status != KeyNone ==> s.h.tag == |s.h.events| - 1 && s.status == s.h.events[s.h.tag])
  }

  ghost predicate Conserved(s: State) {
    && Tagged(s)
    && Faithful(s.h.delivered, s.h.events)
    && Partition(|s.h.events|, s.h.delivered, s.h.erased, Pending(s))
  }

  lemma ConservedStore(s: State)
    requires Conserved(s) && s.handler.HasRead?
    ensures Conserved(Next(s, Store).value)
  {
    var n, t := |s.h.events|, Next(s, Store).value;
    if s.status != KeyNone {
      PartitionErase(n, s.h.delivered, s.h.erased, s.h.tag);
    }
    if t.status != KeyNone {
      PartitionProduce(n, s.h.delivered, t.h.erased);
    }
  }

  lemma ConservedRead(s: State, reader: Pid)
    requires Conserved(s) && !s.handler.HasRead?
    ensures Conserved(Next(s, KeryRead(reader, false)).value)
  {
    if s.status != KeyNone {
      var d := Delivery(s.h.tag, s.status, reader);
      FaithfulSnoc(s.h.delivered, s.h.events, d);
      PartitionDeliver(|s.h.events|, s.h.delivered, s.h.erased, d);
    }
  }

  lemma ConservedStep(s: State, step: Step)
    requires Conserved(s) && Next(s, step).Some?
    ensures Conserved(Next(s, step).value)
  {
    match step
    case Store => ConservedStore(s);
    case KeryRead(reader, fault) => if !fault { ConservedRead(s, reader); }
    case _ =>
  }

  lemma ConservedRun(delay: nat, steps: seq<Step>, s: State)
    requires Run(Next, Init(delay), steps) == Some(s)
    ensures Conserved(s)
  {
    forall t, l | Conserved(t) && Next(t, l).Some? ensures Conserved(Next(t, l).value) { ConservedStep(t, l); }
    Invariant(Next, Conserved, Init(delay), steps);
  }

  /** Every event produced is delivered, erased or still in the slot, and exactly one of these; each
      is delivered at most once, in production order, with the value it was produced with; and the
      three numbers add up. */
  lemma EventConservation(delay: nat, steps: seq<Step>, s: State)
    requires Run(Next, Init(delay), steps) == Some(s)
    ensures forall k: nat :: k < |s.h.events| <==>
              WasDelivered(s.h.delivered, k) || k in s.h.erased || Pending(s) == Some(k)
    ensures forall k: nat :: !(WasDelivered(s.h.delivered, k) && k in s.h.erased)
    ensures forall k: nat :: Pending(s) == Some(k) ==> !WasDelivered(s.h.delivered, k) && k !in s.h.erased
    ensures forall i, j :: 0 <= i < j < |s.h.delivered| ==> s.h.delivered[i].serial < s.h.delivered[j].serial
    ensures forall d :: d in s.h.delivered ==>
              d.serial < |s.h.events| && d.value == s.h.events[d.serial] != KeyNone
    ensures |s.h.events| == |s.h.delivered| + |s.h.erased| + (if s.status == KeyNone then 0 else 1)
  {
    ConservedRun(delay, steps, s);
  }

  // ----- the fate of one event is decided by the next write to the slot

  /** The first n serials, each stored once, in order. */
  ghost predicate Ordered(w: seq<Write>, n: nat) {
    && (forall i :: 0 <= i < |w| && w[i].StoredEvent? ==> w[i].serial < n)
    && (forall i, j :: 0 <= i < j < |w| && w[i].StoredEvent? && w[j].StoredEvent? ==> w[i].serial < w[j].serial)
    && (forall k: nat :: k < n ==> StoredEvent(k) in w)
  }

  ghost predicate DeliveredTo(delivered: seq<Delivery>, serial: nat, reader: Pid) {
    exists d :: d in delivered && d.serial == serial && d.reader == reader
  }

  ghost predicate FateOf(serial: nat, following: Write, delivered: seq<Delivery>, erased: set<nat>) {
    if following.Cleared? then DeliveredTo(delivered, serial, following.reader) else serial in erased
  }

  ghost predicate Fated(w: seq<Write>, delivered: seq<Delivery>, erased: set<nat>) {
    forall i :: 0 <= i < |w| - 1 && w[i].StoredEvent? ==> FateOf(w[i].serial, w[i + 1], delivered, erased)
  }

  ghost predicate Logged(s: State) {
    var w := s.h.writes;
    && (s.status != KeyNone <==> |w| > 0 && w[|w| - 1].StoredEvent?)
    && (s.status != KeyNone ==> w[|w| - 1] == StoredEvent(s.h.tag))
    && Ordered(w, |s.h.events|)
    && Fated(w, s.h.delivered, s.h.erased)
  }

  lemma OrderedSnoc(w: seq<Write>, n: nat, x: Write)
    requires Ordered(w, n)
    requires x.StoredEvent? ==> x.serial == n
    ensures Ordered(w + [x], if x.StoredEvent? then n + 1 else n)
  {}

  lemma FatedSnoc(w: seq<Write>, x: Write, d: seq<Delivery>, d': seq<Delivery>, e: set<nat>, e': set<nat>)
    requires Fated(w, d, e)
    requires d <= d' && e <= e'
    requires |w| > 0 && w[|w| - 1].StoredEvent? ==> FateOf(w[|w| - 1].serial, x, d', e')
    ensures Fated(w + [x], d', e')
  {}

  lemma LoggedStore(s: State)
    requires Logged(s) && s.handler.HasRead?
    ensures Logged(Next(s, Store).value)
  {
    var t := Next(s, Store).value;
    var x := if t.status == KeyNone then StoredNone else StoredEvent(|s.h.events|);
    OrderedSnoc(s.h.writes, |s.h.events|, x);
    FatedSnoc(s.h.writes, x, s.h.delivered, t.h.delivered, s.h.erased, t.h.erased);
  }

  lemma LoggedRead(s: State, reader: Pid)
    requires Logged(s) && !s.handler.HasRead?
    ensures Logged(Next(s, KeryRead(reader, false)).value)
  {
    var t := Next(s, KeryRead(reader, false)).value;
    OrderedSnoc(s.h.writes, |s.h.events|, Cleared(reader));
    if s.status != KeyNone {
      assert t.h.delivered[|s.h.delivered|] == Delivery(s.h.tag, s.status, reader);
      assert DeliveredTo(t.h.delivered, s.h.tag, reader);
    }
    FatedSnoc(s.h.writes, Cleared(reader), s.h.delivered, t.h.delivered, s.h.erased, t.h.erased);
  }

  lemma LoggedStep(s: State, step: Step)
    requires Logged(s) && Next(s, step).Some?
    ensures Logged(Next(s, step).value)
  {
    match step
    case Store => LoggedStore(s);
    case KeryRead(reader, fault) => if !fault { LoggedRead(s, reader); }
    case _ =>
  }

  ghost predicate ConservedAndLogged(s: State) {
    Conserved(s) && Logged(s)
  }

  lemma LoggedRun(delay: nat, steps: seq<Step>, s: State)
    requires Run(Next, Init(delay), steps) == Some(s)
    ensures Logged(s) && Conserved(s)
  {
    forall t, l | ConservedAndLogged(t) && Next(t, l).Some? ensures ConservedAndLogged(Next(t, l).value) {
      ConservedStep(t, l);
      LoggedStep(t, l);
    }
    Invariant(Next, ConservedAndLogged, Init(delay), steps);
  }

  /** Entry `at` of the slot's log stored the event, and the entry after it says what became of it. */
  ghost predicate FateAt(s: State, serial: nat, at: nat) {
    var w := s.h.writes;
    && at < |w|
    && w[at] == StoredEvent(serial)
    && (WasDelivered(s.h.delivered, serial) <==> at + 1 < |w| && w[at + 1].Cleared?)
    && (serial in s.h.erased <==> at + 1 < |w| && !w[at + 1].Cleared?)
    && (Pending(s) == Some(serial) <==> at + 1 == |w|)
    && (forall d :: d in s.h.delivered && d.serial == serial ==> at + 1 < |w| && w[at + 1] == Cleared(d.reader))
  }

  /** When exactly an event reaches a reader: it is the very next write to the slot that decides.  A
      successful read delivers the event to that reader; the store of a later sample, whatever it
      finds, erases it; with no further write it is still pending. */
  lemma EventFate(delay: nat, steps: seq<Step>, s: State, serial: nat)
    requires Run(Next, Init(delay), steps) == Some(s)
    requires serial < |s.h.events|
    ensures exists at :: FateAt(s, serial, at)
  {
    LoggedRun(delay, steps, s);
    assert StoredEvent(serial) in s.h.writes;
    var at :| 0 <= at < |s.h.writes| && s.h.writes[at] == StoredEvent(serial);
    if at + 1 < |s.h.writes| {
      assert FateOf(serial, s.h.writes[at + 1], s.h.delivered, s.h.erased);
      if s.h.writes[at + 1].Cleared? {
        var d :| d in s.h.delivered && d.serial == serial && d.reader == s.h.writes[at + 1].reader;
        assert WasDelivered(s.h.delivered, serial);
        forall e | e in s.h.delivered && e.serial == serial ensures e == d {
          var i :| 0 <= i < |s.h.delivered| && s.h.delivered[i] == d;
          var j :| 0 <= j < |s.h.delivered| && s.h.delivered[j] == e;
        }
      }
    } else {
      assert Pending(s) == Some(serial);
    }
    assert FateAt(s, serial, at);
  }

  // ----- failed reads

  function WithoutFailedReads(steps: seq<Step>): seq<Step> {
    if steps == [] then []
    else (if steps[0].KeryRead? && steps[0].fault then [] else [steps[0]]) + WithoutFailedReads(steps[1..])
  }

  /** A read whose copy fails consumes nothing: a run ends the same, with the same history, when its failed
      reads are left out. */
  lemma {:induction false} FailedReadsLeaveNoTrace(s: State, steps: seq<Step>)
    requires Run(Next, s, steps).Some?
    ensures Run(Next, s, WithoutFailedReads(steps)) == Run(Next, s, steps)
    decreases |steps|
  {
    if steps != [] {
      var rest := WithoutFailedReads(steps[1..]);
      FailedReadsLeaveNoTrace(Next(s, steps[0]).value, steps[1..]);
      assert [] + rest == rest && ([steps[0]] + rest)[1..] == rest;
    }
  }
}
