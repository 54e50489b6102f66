/** The touch screen interrupt (23_multitouch/ft5x06.c): five packed records per frame, folded into the
    contact slots of the input device (Linux multi-touch protocol, type B). */
module Touch {
  import opened Runs

  const MAX_SUPPORT_POINTS := 5

  const TOUCH_EVENT_DOWN: bv8 := 0
  const TOUCH_EVENT_UP: bv8 := 1
  const TOUCH_EVENT_ON: bv8 := 2
  const TOUCH_EVENT_RESERVED: bv8 := 3

  /** What the controller sends: one status byte, then six bytes per point. */
  type Frame = f: seq<bv8> | |f| == 29 witness seq(29, _ => 0)

  datatype Record = Record(kind: bv8, id: bv8, x: bv16, y: bv16)

  // ----- decoding

  function Decode(b0: bv8, b1: bv8, b2: bv8, b3: bv8): Record {
    Record(b0 >> 6,
           (b2 >> 4) & 0x0f,
           (((b2 as bv16) << 8) | (b3 as bv16)) & 0x0fff,
           (((b0 as bv16) << 8) | (b1 as bv16)) & 0x0fff)
  }

  /** The fields fit the bits they are sent in. */
  predicate Packable(r: Record) {
    r.kind < 4 && r.id < 16 && r.x < 0x1000 && r.y < 0x1000
  }

  function Pack(r: Record): (bv8, bv8, bv8, bv8)
    requires Packable(r)
  {
    ((r.kind << 6) | ((r.y >> 8) as bv8),
     (r.y & 0xff) as bv8,
     (r.id << 4) | ((r.x >> 8) as bv8),
     (r.x & 0xff) as bv8)
  }

  lemma DecodePack(r: Record)
    requires Packable(r)
    ensures var b := Pack(r); Decode(b.0, b.1, b.2, b.3) == r
  {}

  /** Packing what was decoded gives the bytes back exactly when the two unused bits were clear. */
  lemma PackDecode(b0: bv8, b1: bv8, b2: bv8, b3: bv8)
    ensures Packable(Decode(b0, b1, b2, b3))
    ensures Pack(Decode(b0, b1, b2, b3)) == (b0, b1, b2, b3) <==> b0 & 0x30 == 0
  {}

  // ----- frames and slots

  function RecordAt(f: Frame, i: nat): Record
    requires i < MAX_SUPPORT_POINTS
  {
    Decode(f[6 * i + 1], f[6 * i + 2], f[6 * i + 3], f[6 * i + 4])
  }

  function Records(f: Frame): (rs: seq<Record>)
    ensures |rs| == MAX_SUPPORT_POINTS
  {
    seq(MAX_SUPPORT_POINTS, i requires 0 <= i < MAX_SUPPORT_POINTS => RecordAt(f, i))
  }

  /** What the controller sends: a status byte, five records of four bytes, and two bytes it does not use behind each
      of the first four. */
  datatype Sent = Sent(status: bv8, records: seq<Record>, spare: seq<(bv8, bv8)>)

  predicate Sendable(m: Sent) {
    |m.records| == 5 && |m.spare| == 4 && forall r :: r in m.records ==> Packable(r)
  }

  function Bytes(r: Record): seq<bv8>
    requires Packable(r)
  {
    var b := Pack(r);
    [b.0, b.1, b.2, b.3]
  }

  /** What is sent for point i: its record, and behind each but the last the spare bytes. */
  function Row(m: Sent, i: nat): seq<bv8>
    requires Sendable(m) && i < 5
  {
    Bytes(m.records[i]) + if i < 4 then [m.spare[i].0, m.spare[i].1] else []
  }

  /** The rows from number i on. */
  function Rows(m: Sent, i: nat): (bs: seq<bv8>)
    requires Sendable(m) && i <= 5
    ensures |bs| == if i == 5 then 0 else 28 - 6 * i
    decreases 5 - i
  {
    if i == 5 then [] else Row(m, i) + Rows(m, i + 1)
  }

  function FrameOf(m: Sent): Frame
    requires Sendable(m)
  {
    [m.status] + Rows(m, 0)
  }

  lemma {:induction false} RowAt(m: Sent, from: nat, i: nat, k: nat)
    requires Sendable(m) && from <= i < 5 && k < 4
    ensures Rows(m, from)[6 * (i - from) + k] == Bytes(m.records[i])[k]
    decreases i - from
  {
    if from < i {
      RowAt(m, from + 1, i, k);
    }
  }

  lemma RecordOf(m: Sent, i: nat)
    requires Sendable(m) && i < 5
    ensures RecordAt(FrameOf(m), i) == m.records[i]
  {
    RowAt(m, 0, i, 0);
    RowAt(m, 0, i, 1);
    RowAt(m, 0, i, 2);
    RowAt(m, 0, i, 3);
    DecodePack(m.records[i]);
  }

  /** The records read out of a frame are the records sent, whatever the status and the unused bytes are. */
  lemma RecordsOfFrame(m: Sent)
    requires Sendable(m)
    ensures Records(FrameOf(m)) == m.records
  {
    forall i | 0 <= i < 5 ensures Records(FrameOf(m))[i] == m.records[i] { RecordOf(m, i); }
  }

  datatype Slot = Slot(active: bool, x: bv16, y: bv16)

  /** The input device: the selected slot, and the contacts. */
  datatype Input = Input(current: nat, slots: seq<Slot>)

  predicate Valid(d: Input) {
    d.current < MAX_SUPPORT_POINTS == |d.slots|
  }

  const IDLE_INPUT := Input(0, [Slot(false, 0, 0), Slot(false, 0, 0), Slot(false, 0, 0), Slot(false, 0, 0),
                                Slot(false, 0, 0)])

  /** input_mt_slot: the input core ignores numbers it has no slot for. */
  function Select(current: nat, id: bv8): nat {
    if id as int < MAX_SUPPORT_POINTS then id as int else current
  }

  function Report(d: Input, r: Record): (d': Input)
    requires Valid(d)
    ensures Valid(d')
  {
    if r.kind == TOUCH_EVENT_RESERVED then d
    else
      var k := Select(d.current, r.id);
      var slot := if r.kind == TOUCH_EVENT_UP then d.slots[k].(active := false) else Slot(true, r.x, r.y);
      Input(k, d.slots[k := slot])
  }

  function ReportAll(d: Input, rs: seq<Record>): (d': Input)
    requires Valid(d)
    ensures Valid(d')
  {
    if rs == [] then d else Report(ReportAll(d, rs[..|rs| - 1]), rs[|rs| - 1])
  }

  lemma ReportSnoc(d: Input, rs: seq<Record>, r: Record)
    requires Valid(d)
    ensures ReportAll(d, rs + [r]) == Report(ReportAll(d, rs), r)
  {}

  lemma {:induction false} ReportConcat(d: Input, a: seq<Record>, b: seq<Record>)
    requires Valid(d)
    ensures ReportAll(d, a + b) == ReportAll(ReportAll(d, a), b)
    decreases |b|
  {
    if b == [] {
      assert a + b == a;
    } else {
      var n := |b| - 1;
      assert (a + b)[..|a| + n] == a + b[..n];
      ReportConcat(d, a, b[..n]);
    }
  }

  class Edt {
    var current: nat
    var slots: array<Slot>

    ghost predicate Ready()
      reads this
    {
      slots.Length == MAX_SUPPORT_POINTS && current < MAX_SUPPORT_POINTS
    }

    ghost function View(): Input
      reads this, slots
    {
      Input(current, slots[..])
    }

    constructor ()
      ensures Ready() && View() == IDLE_INPUT && fresh(slots)
    {
      current := 0;
      slots := new Slot[MAX_SUPPORT_POINTS](_ => Slot(false, 0, 0));
      new;
      assert slots[..] == IDLE_INPUT.slots;
    }

    /** The interrupt thread; `input` is what the i2c transfer brought, if it succeeded. */
    method EdtFt5426TsIsr(input: Option<Frame>)
      requires Ready()
      modifies this, slots
      ensures Ready() && slots == old(slots)
      ensures View() == match input case None => old(View()) case Some(f) => ReportAll(old(View()), Records(f))
    {
      if input.None? {
        return;
      }
      var f := input.value;
      var i := 0;
      while i < MAX_SUPPORT_POINTS
        invariant 0 <= i <= MAX_SUPPORT_POINTS
        invariant Ready() && slots == old(slots)
        invariant View() == ReportAll(old(View()), Records(f)[..i])
      {
        var r := Decode(f[6 * i + 1], f[6 * i + 2], f[6 * i + 3], f[6 * i + 4]);
        assert Records(f)[..i + 1] == Records(f)[..i] + [r];
        ReportSnoc(old(View()), Records(f)[..i], r);
        i := i + 1;
        if r.kind == TOUCH_EVENT_RESERVED {
          continue;
        }
        current := Select(current, r.id);
        if r.kind == TOUCH_EVENT_UP {
          slots[current] := slots[current].(active := false);
          continue;
        }
        slots[current] := Slot(true, r.x, r.y);
      }
      assert Records(f)[..MAX_SUPPORT_POINTS] == Records(f);
    }
  }

  // ----- any number of frames

  /** The records of the frames that were read. */
  function AllRecords(inputs: seq<Option<Frame>>): seq<Record> {
    if inputs == [] then []
    else match inputs[0]
      case None => AllRecords(inputs[1..])
      case Some(f) => Records(f) + AllRecords(inputs[1..])
  }

  /** One interrupt after the other. */
  function Interrupts(d: Input, inputs: seq<Option<Frame>>): (d': Input)
    requires Valid(d)
    ensures Valid(d')
    decreases |inputs|
  {
    if inputs == [] then d
    else match inputs[0]
      case None => Interrupts(d, inputs[1..])
      case Some(f) => Interrupts(ReportAll(d, Records(f)), inputs[1..])
  }

  lemma {:induction false} InterruptsReportAll(d: Input, inputs: seq<Option<Frame>>)
    requires Valid(d)
    ensures Interrupts(d, inputs) == ReportAll(d, AllRecords(inputs))
    decreases |inputs|
  {
    if inputs != [] {
      match inputs[0]
      case None => InterruptsReportAll(d, inputs[1..]);
      case Some(f) =>
        InterruptsReportAll(ReportAll(d, Records(f)), inputs[1..]);
        ReportConcat(d, Records(f), AllRecords(inputs[1..]));
    }
  }

  // ----- contacts, seen from the records alone (kind 1 is UP, kind 3 reserved)

  /** The slot selected after the records: that of the last one, not reserved, that names one of the five. */
  function SelectedBy(rs: seq<Record>): nat {
    if rs == [] then 0
    else
      var r, before := rs[|rs| - 1], SelectedBy(rs[..|rs| - 1]);
      if r.kind == 3 then before else if r.id < 5 then r.id as int else before
  }

  /** The last record that is not reserved and lands on slot k. */
  function LastOn(rs: seq<Record>, k: nat): Option<Record> {
    if rs == [] then None
    else if rs[|rs| - 1].kind != 3 && SelectedBy(rs) == k then Some(rs[|rs| - 1])
    else LastOn(rs[..|rs| - 1], k)
  }

  /** The last such record that is not UP either. */
  function LastDownOn(rs: seq<Record>, k: nat): Option<Record> {
    if rs == [] then None
    else if rs[|rs| - 1].kind != 3 && rs[|rs| - 1].kind != 1 && SelectedBy(rs) == k
    then Some(rs[|rs| - 1])
    else LastDownOn(rs[..|rs| - 1], k)
  }

  function Contact(rs: seq<Record>, k: nat): Slot {
    var last, down := LastOn(rs, k), LastDownOn(rs, k);
    Slot(last.Some? && last.value.kind != 1,
         if down.Some? then down.value.x else 0,
         if down.Some? then down.value.y else 0)
  }

  lemma {:induction false} ReportAllContacts(rs: seq<Record>)
    ensures var d := ReportAll(IDLE_INPUT, rs);
            d.current == SelectedBy(rs) && forall k :: 0 <= k < 5 ==> d.slots[k] == Contact(rs, k)
    decreases |rs|
  {
    if rs != [] {
      ReportAllContacts(rs[..|rs| - 1]);
    }
  }

  /** After any interrupts, failed transfers included, a slot is active exactly when the last record on it
      was not UP, and its position is that of the last record on it that was not UP. */
  lemma ContactState(inputs: seq<Option<Frame>>, k: nat)
    requires k < 5
    ensures Interrupts(IDLE_INPUT, inputs).slots[k] == Contact(AllRecords(inputs), k)
  {
    InterruptsReportAll(IDLE_INPUT, inputs);
    ReportAllContacts(AllRecords(inputs));
  }

  ghost predicate NamesSlots(rs: seq<Record>) {
    forall i :: 0 <= i < |rs| && rs[i].kind != 3 ==> rs[i].id < 5
  }

  /** Index of the last record, not reserved, that names slot k; -1 if there is none. */
  function LastNaming(rs: seq<Record>, k: nat): int {
    if rs == [] then -1
    else if rs[|rs| - 1].kind != 3 && rs[|rs| - 1].id as int == k then |rs| - 1
    else LastNaming(rs[..|rs| - 1], k)
  }

  /** The same for records that are not UP either. */
  function LastDownNaming(rs: seq<Record>, k: nat): int {
    if rs == [] then -1
    else
      var r := rs[|rs| - 1];
      if r.kind != 3 && r.kind != 1 && r.id as int == k then |rs| - 1
      else LastDownNaming(rs[..|rs| - 1], k)
  }

  /** While the controller numbers its points below five, records land on the slots they name: the last record that
      names a slot decides whether it is active, and the last that is not UP its position. */
  lemma {:induction false} RecordsLandWhereNamed(rs: seq<Record>, k: nat)
    requires NamesSlots(rs) && k < 5
    ensures var i := LastNaming(rs, k);
            && -1 <= i < |rs|
            && LastOn(rs, k) == (if i < 0 then None else Some(rs[i]))
    ensures var i := LastDownNaming(rs, k);
            && -1 <= i < |rs|
            && LastDownOn(rs, k) == (if i < 0 then None else Some(rs[i]))
    decreases |rs|
  {
    if rs != [] {
      RecordsLandWhereNamed(rs[..|rs| - 1], k);
    }
  }

  /** So, after any interrupts, a slot is active exactly if the last record that names it is not UP, at the position
      of the last that is not UP. */
  lemma ContactNamed(inputs: seq<Option<Frame>>, k: nat)
    requires NamesSlots(AllRecords(inputs)) && k < 5
    ensures var rs, slot := AllRecords(inputs), Interrupts(IDLE_INPUT, inputs).slots[k];
            var i, j := LastNaming(rs, k), LastDownNaming(rs, k);
            && i < |rs| && j < |rs|
            && (slot.active <==> i >= 0 && rs[i].kind != 1)
            && (j >= 0 ==> slot.x == rs[j].x && slot.y == rs[j].y)
  {
    ContactState(inputs, k);
    RecordsLandWhereNamed(AllRecords(inputs), k);
  }

  // ----- contacts, seen from what was sent

  /** The frames that arrive, where the transfer succeeds. */
  function Arrived(sent: seq<Option<Sent>>): seq<Option<Frame>>
    requires forall m :: m in sent && m.Some? ==> Sendable(m.value)
  {
    if sent == [] then []
    else [if sent[0].None? then None else Some(FrameOf(sent[0].value))] + Arrived(sent[1..])
  }

  function SentRecords(sent: seq<Option<Sent>>): seq<Record> {
    if sent == [] then []
    else (if sent[0].None? then [] else sent[0].value.records) + SentRecords(sent[1..])
  }

  lemma {:induction false} ArrivedRecords(sent: seq<Option<Sent>>)
    requires forall m :: m in sent && m.Some? ==> Sendable(m.value)
    ensures AllRecords(Arrived(sent)) == SentRecords(sent)
  {
    if sent != [] {
      ArrivedRecords(sent[1..]);
      var first: Option<Frame> := if sent[0].None? then None else Some(FrameOf(sent[0].value));
      assert ([first] + Arrived(sent[1..]))[1..] == Arrived(sent[1..]);
      if sent[0].Some? {
        RecordsOfFrame(sent[0].value);
      } else {
        assert [] + SentRecords(sent[1..]) == SentRecords(sent[1..]);
      }
    }
  }

  /** From the controller to the contacts: whatever frames were sent with numbers below five, and whichever of them
      arrived, a slot is active exactly if the last record sent that names it, of those that arrived, is not UP, at the
      position of the last such that is not UP. */
  lemma ContactSent(sent: seq<Option<Sent>>, k: nat)
    requires forall m :: m in sent && m.Some? ==> Sendable(m.value)
    requires NamesSlots(SentRecords(sent)) && k < 5
    ensures var rs, slot := SentRecords(sent), Interrupts(IDLE_INPUT, Arrived(sent)).slots[k];
            var i, j := LastNaming(rs, k), LastDownNaming(rs, k);
            && i < |rs| && j < |rs|
            && (slot.active <==> i >= 0 && rs[i].kind != 1)
            && (j >= 0 ==> slot.x == rs[j].x && slot.y == rs[j].y)
            && (j < 0 ==> slot.x == 0 && slot.y == 0)
  {
    ArrivedRecords(sent);
    ContactState(Arrived(sent), k);
    RecordsLandWhereNamed(SentRecords(sent), k);
  }
}
