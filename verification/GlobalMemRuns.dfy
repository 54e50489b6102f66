/** The memory device over whole runs, against what its callers asked for: an array of bytes that holds the
    last byte written to each address, and a cursor for each descriptor. */
module GlobalMemRuns {
  import opened CInts
  import opened GlobalMem
  import opened Runs

  type Fd = nat

  /** Where a descriptor stands.  That every operation keeps it here, whatever 64-bit offset or size it is
      called with, is checked where Next constructs the new cursor. */
  type Cursor = n: int | 0 <= n <= GLOBALMEM_SIZE

  datatype World = World(mem: Memory, cursors: map<Fd, Cursor>)

  function Init(): World {
    World(Zeros(), map[])
  }

  /** The calls, with what they answered.  A transfer takes place at the cursor, and moves it, or at a position of
      its own (pread and pwrite). */
  datatype Op =
    | Open(fd: Fd)
    | Llseek(fd: Fd, offset: Loff, orig: int, ret: int)
    | Read(fd: Fd, pos: Option<Loff>, size: nat, ret: int, data: seq<Byte>)
    | ReadFault(fd: Fd, pos: Option<Loff>, size: nat)
    | Write(fd: Fd, pos: Option<Loff>, buf: seq<Byte>, ret: int)
    | WriteFault(fd: Fd, pos: Option<Loff>, size: nat, junk: seq<Byte>)   // what the failed copy left in the window
    | Ioctl(cmd: int, ret: int)

  function PosOf(w: World, fd: Fd, pos: Option<Loff>): Loff
    requires fd in w.cursors
  {
    if pos.Some? then pos.value else w.cursors[fd]
  }

  function Advance(w: World, fd: Fd, pos: Option<Loff>, size: nat): map<Fd, Cursor>
    requires fd in w.cursors
  {
    if pos.Some? then w.cursors else w.cursors[fd := w.cursors[fd] + Transfer(w.cursors[fd], size)]
  }

  /** A call is possible where the driver gives just this answer. */
  function Next(w: World, op: Op): Option<World> {
    match op
    case Open(fd) =>
      if fd in w.cursors then None else Some(w.(cursors := w.cursors[fd := 0]))
    case Llseek(fd, offset, orig, ret) =>
      if fd !in w.cursors then None
      else (match Seek(w.cursors[fd], offset, orig)
            case None => if ret == -EINVAL then Some(w) else None
            case Some(to) => if ret == to then Some(w.(cursors := w.cursors[fd := to])) else None)
    case Read(fd, pos, size, ret, data) =>
      if fd !in w.cursors then None
      else
        var at := PosOf(w, fd, pos);
        if ret == TransferResult(at, size) && data == ReadBytes(w.mem, at, size)
        then Some(w.(cursors := Advance(w, fd, pos, size)))
        else None
    case ReadFault(fd, pos, size) =>
      if fd in w.cursors && U64(PosOf(w, fd, pos)) < GLOBALMEM_SIZE then Some(w) else None
    case Write(fd, pos, buf, ret) =>
      if fd !in w.cursors then None
      else
        var at := PosOf(w, fd, pos);
        if ret == TransferResult(at, |buf|)
        then Some(World(WriteBytes(w.mem, at, buf[..Transfer(at, |buf|)]), Advance(w, fd, pos, |buf|)))
        else None
    case WriteFault(fd, pos, size, junk) =>
      if fd !in w.cursors then None
      else
        var at := PosOf(w, fd, pos);
        if U64(at) < GLOBALMEM_SIZE && |junk| == Transfer(at, size)
        then Some(w.(mem := WriteBytes(w.mem, at, junk)))
        else None
    case Ioctl(cmd, ret) =>
      if cmd == MEM_CLEAR then (if ret == 0 then Some(w.(mem := Zeros())) else None)
      else if ret == -EINVAL then Some(w) else None
  }

  // ----- what the callers asked for

  /** A request in the device moves its size modulo 2^32, as far as there is room; elsewhere nothing. */
  function Granted(at: int, size: nat): (n: nat)
    ensures n <= size
  {
    if at < 0 || at > 4096 then 0
    else if size % TWO_32 <= 4096 - at then size % TWO_32
    else 4096 - at
  }

  /** And is answered with -ENXIO where the device has no byte, unless it asks for none. */
  function AnswerTo(at: int, size: nat): int {
    if (at < 0 || at >= 4096) && size % TWO_32 != 0 then -6 else Granted(at, size)
  }

  /** An absolute seek goes to the low 32 bits of a non-negative offset, a relative one to the sum; both only
      into the device. */
  function Target(at: nat, offset: int, orig: int): (to: Option<nat>)
    ensures to.Some? ==> to.value <= 4096
  {
    if orig == 0 && 0 <= offset && offset % TWO_32 <= 4096 then Some(offset % TWO_32)
    else if orig == 1 && 0 <= at + offset <= 4096 then Some(at + offset)
    else None
  }

  /** Where the calls on a descriptor have taken it. */
  function CursorAfter(ops: seq<Op>, fd: Fd): (at: nat)
    ensures at <= 4096
  {
    if ops == [] then 0
    else
      var op, at := ops[|ops| - 1], CursorAfter(ops[..|ops| - 1], fd);
      match op
      case Open(f) => if f == fd then 0 else at
      case Llseek(f, offset, orig, _) =>
        if f == fd && Target(at, offset, orig).Some? then Target(at, offset, orig).value else at
      case Read(f, pos, size, _, _) => if f == fd && pos.None? then at + Granted(at, size) else at
      case Write(f, pos, buf, _) => if f == fd && pos.None? then at + Granted(at, |buf|) else at
      case _ => at
  }

  /** Where a transfer takes place. */
  function Place(ops: seq<Op>, fd: Fd, pos: Option<Loff>): int {
    if pos.Some? then pos.value else CursorAfter(ops, fd)
  }

  /** The byte last written to an address since the last clear: byte i of a buffer goes to the place of the write
      plus i, as far as it was granted; a failing write leaves what it leaves. */
  function LastWritten(ops: seq<Op>, a: nat): Byte {
    if ops == [] then 0
    else
      var op, before := ops[|ops| - 1], ops[..|ops| - 1];
      match op
      case Write(fd, pos, buf, _) =>
        var at := Place(before, fd, pos);
        if at <= a < at + Granted(at, |buf|) then buf[a - at] else LastWritten(before, a)
      case WriteFault(fd, pos, size, junk) =>
        var at := Place(before, fd, pos);
        if at <= a < at + |junk| then junk[a - at] else LastWritten(before, a)
      case Ioctl(cmd, _) => if cmd == 1 then 0 else LastWritten(before, a)
      case _ => LastWritten(before, a)
  }

  // ----- one call

  lemma TransferIsGranted(at: Loff, size: nat)
    ensures Transfer(at, size) == Granted(at, size) && TransferResult(at, size) == AnswerTo(at, size)
    ensures Granted(at, size) > 0 ==> 0 <= at && at + Granted(at, size) <= GLOBALMEM_SIZE
  {}

  /** A relative seek succeeds exactly when the sum lies in the device, no 64-bit overflow being taken for
      one that does; an absolute seek looks at the low 32 bits of a non-negative offset only, and so goes
      where it was asked to exactly up to 4096. */
  lemma SeekExact(at: Cursor, offset: Loff, orig: int)
    ensures Seek(at, offset, orig).Some? <==> Target(at, offset, orig).Some?
    ensures Seek(at, offset, orig).Some? ==> Seek(at, offset, orig).value == Target(at, offset, orig).value
    ensures Seek(at, offset, 0) == Some(offset) <==> 0 <= offset <= GLOBALMEM_SIZE
  {}

  /** An absolute seek far beyond the device can succeed. */
  lemma SeekBeyondLands()
    ensures Seek(0, TWO_32 + 5, 0) == Some(5)
  {}

  lemma ReadIsSlice(mem: Memory, at: Cursor, size: nat)
    ensures var data := ReadBytes(mem, at, size);
            && |data| == (if U32(size) <= GLOBALMEM_SIZE - at then U32(size) else GLOBALMEM_SIZE - at)
            && data == mem[at..at + |data|]
  {}

  lemma ReadByte(mem: Memory, at: Loff, size: nat, j: nat)
    requires j < Granted(at, size)
    ensures 0 <= at && at + j < GLOBALMEM_SIZE
    ensures |ReadBytes(mem, at, size)| == Granted(at, size) && ReadBytes(mem, at, size)[j] == mem[at + j]
  {
    TransferIsGranted(at, size);
  }

  lemma WrittenByte(mem: Memory, at: Loff, bytes: seq<Byte>, a: nat)
    requires bytes == [] || (0 <= at && at + |bytes| <= GLOBALMEM_SIZE)
    requires a < GLOBALMEM_SIZE
    ensures WriteBytes(mem, at, bytes)[a] == if at <= a < at + |bytes| then bytes[a - at] else mem[a]
  {}

  // ----- refinement

  ghost predicate Remembers(w: World, ops: seq<Op>) {
    && (forall a: nat :: a < GLOBALMEM_SIZE ==> w.mem[a] == LastWritten(ops, a))
    && (forall fd :: fd in w.cursors ==> w.cursors[fd] == CursorAfter(ops, fd))
    && (forall fd :: fd in w.cursors <==> Open(fd) in ops)
  }

  lemma SameMemory(w: World, ops: seq<Op>, op: Op)
    requires Remembers(w, ops)
    requires op.Open? || op.Llseek? || op.Read? || op.ReadFault?
    ensures forall a: nat :: a < GLOBALMEM_SIZE ==> w.mem[a] == LastWritten(ops + [op], a)
  {
    assert (ops + [op])[..|ops|] == ops;
  }

  lemma SameCursors(w: World, ops: seq<Op>, op: Op)
    requires Remembers(w, ops)
    requires op.ReadFault? || op.WriteFault? || op.Ioctl?
    ensures forall fd :: fd in w.cursors ==> w.cursors[fd] == CursorAfter(ops + [op], fd)
  {
    assert (ops + [op])[..|ops|] == ops;
  }

  lemma RemembersMoves(w: World, ops: seq<Op>, op: Op)
    requires Remembers(w, ops) && Next(w, op).Some?
    requires op.Open? || op.Llseek? || op.Read? || op.ReadFault?
    ensures Remembers(Next(w, op).value, ops + [op])
  {
    SameMemory(w, ops, op);
    assert (ops + [op])[..|ops|] == ops;
    match op
    case Llseek(fd, offset, orig, ret) => SeekExact(w.cursors[fd], offset, orig);
    case Read(fd, pos, size, ret, data) => TransferIsGranted(w.cursors[fd], size);
    case _ =>
  }

  lemma RemembersWrite(w: World, ops: seq<Op>, op: Op)
    requires Remembers(w, ops) && Next(w, op).Some? && op.Write?
    ensures Remembers(Next(w, op).value, ops + [op])
  {
    var t, at := Next(w, op).value, PosOf(w, op.fd, op.pos);
    assert (ops + [op])[..|ops|] == ops;
    TransferIsGranted(at, |op.buf|);
    var bytes := op.buf[..Transfer(at, |op.buf|)];
    forall a: nat | a < GLOBALMEM_SIZE ensures t.mem[a] == LastWritten(ops + [op], a) {
      WrittenByte(w.mem, at, bytes, a);
    }
    TransferIsGranted(w.cursors[op.fd], |op.buf|);
  }

  lemma RemembersWriteFault(w: World, ops: seq<Op>, op: Op)
    requires Remembers(w, ops) && Next(w, op).Some? && op.WriteFault?
    ensures Remembers(Next(w, op).value, ops + [op])
  {
    var t, at := Next(w, op).value, PosOf(w, op.fd, op.pos);
    assert (ops + [op])[..|ops|] == ops;
    SameCursors(w, ops, op);
    TransferIsGranted(at, op.size);
    forall a: nat | a < GLOBALMEM_SIZE ensures t.mem[a] == LastWritten(ops + [op], a) {
      WrittenByte(w.mem, at, op.junk, a);
    }
  }

  lemma RemembersStep(w: World, ops: seq<Op>, op: Op)
    requires Remembers(w, ops) && Next(w, op).Some?
    ensures Remembers(Next(w, op).value, ops + [op])
  {
    match op
    case Write(_, _, _, _) => RemembersWrite(w, ops, op);
    case WriteFault(_, _, _, _) => RemembersWriteFault(w, ops, op);
    case Ioctl(_, _) =>
      SameCursors(w, ops, op);
      assert (ops + [op])[..|ops|] == ops;
    case _ => RemembersMoves(w, ops, op);
  }

  /** Over any run, every byte of the device is the one that a write, or a failing one, last put there since the last
      clear, and every cursor is where the calls on its own descriptor have taken it, between 0 and 4096. */
  lemma DeviceRemembers(ops: seq<Op>, w: World)
    requires Run(Next, Init(), ops) == Some(w)
    ensures forall a: nat :: a < GLOBALMEM_SIZE ==> w.mem[a] == LastWritten(ops, a)
    ensures forall fd :: fd in w.cursors <==> Open(fd) in ops
    ensures forall fd :: fd in w.cursors ==> w.cursors[fd] == CursorAfter(ops, fd) <= 4096
  {
    forall v, op, past | Remembers(v, past) && Next(v, op).Some? ensures Remembers(Next(v, op).value, past + [op]) {
      RemembersStep(v, past, op);
    }
    TraceInvariant(Next, Remembers, Init(), [], ops);
    assert [] + ops == ops;
  }

  /** Where call number i finds the device. */
  lemma FoundAt(ops: seq<Op>, i: nat) returns (w: World)
    requires Run(Next, Init(), ops).Some? && i < |ops|
    ensures Next(w, ops[i]).Some? && Remembers(w, ops[..i])
  {
    RunAt(Next, Init(), ops, i);
    w := Run(Next, Init(), ops[..i]).value;
    DeviceRemembers(ops[..i], w);
  }

  /** Every successful read of any run, at its cursor or at any other position, was answered with the bytes last
      written from there on, as many as asked for modulo 2^32 or as were left; -ENXIO exactly outside the device. */
  lemma ReadsReturnLastWritten(ops: seq<Op>, i: nat)
    requires Run(Next, Init(), ops).Some? && i < |ops| && ops[i].Read?
    ensures var before, data := ops[..i], ops[i].data;
            var at := Place(before, ops[i].fd, ops[i].pos);
            && |data| == Granted(at, ops[i].size)
            && (forall j: nat :: j < |data| ==> 0 <= at + j && data[j] == LastWritten(before, at + j))
            && ops[i].ret == AnswerTo(at, ops[i].size)
  {
    var w := FoundAt(ops, i);
    var at := Place(ops[..i], ops[i].fd, ops[i].pos);
    assert at == PosOf(w, ops[i].fd, ops[i].pos);
    TransferIsGranted(at, ops[i].size);
    forall j: nat | j < |ops[i].data|
      ensures 0 <= at + j && ops[i].data[j] == LastWritten(ops[..i], at + j)
    {
      ReadByte(w.mem, at, ops[i].size, j);
    }
  }

  /** Every write and every seek of any run was answered with what it moved, or where it went, and every ioctl with 0
      if it cleared the device. */
  lemma WritesAndSeeksAnswer(ops: seq<Op>, i: nat)
    requires Run(Next, Init(), ops).Some? && i < |ops|
    ensures ops[i].Write? ==> ops[i].ret == AnswerTo(Place(ops[..i], ops[i].fd, ops[i].pos), |ops[i].buf|)
    ensures ops[i].Llseek? ==>
              ops[i].ret == match Target(CursorAfter(ops[..i], ops[i].fd), ops[i].offset, ops[i].orig)
                            case None => -22
                            case Some(to) => to
    ensures ops[i].Ioctl? ==> ops[i].ret == if ops[i].cmd == 1 then 0 else -22
  {
    var w := FoundAt(ops, i);
    match ops[i]
    case Write(fd, pos, buf, _) => TransferIsGranted(PosOf(w, fd, pos), |buf|);
    case Llseek(fd, offset, orig, _) => SeekExact(w.cursors[fd], offset, orig);
    case _ =>
  }

  ghost predicate Answers(w: World, op: Op) {
    Next(w, op).Some?
  }

  /** Whatever is asked of an open descriptor, at whatever position, the driver has an answer, and only one; and a copy
      can fail where the device has a byte. */
  lemma EveryCallAnswered(w: World, fd: Fd, pos: Option<Loff>, size: nat, buf: seq<Byte>, offset: Loff, orig: int)
    requires fd in w.cursors
    ensures exists ret, data :: Answers(w, Read(fd, pos, size, ret, data))
    ensures exists ret :: Answers(w, Write(fd, pos, buf, ret))
    ensures exists ret :: Answers(w, Llseek(fd, offset, orig, ret))
    ensures forall r1, d1, r2, d2 {:trigger Answers(w, Read(fd, pos, size, r1, d1)),
                                           Answers(w, Read(fd, pos, size, r2, d2))} ::
              Answers(w, Read(fd, pos, size, r1, d1)) && Answers(w, Read(fd, pos, size, r2, d2)) ==>
              r1 == r2 && d1 == d2
    ensures Answers(w, ReadFault(fd, pos, size)) <==>
            0 <= (if pos.Some? then pos.value else w.cursors[fd]) < 4096
    ensures var at := if pos.Some? then pos.value else w.cursors[fd];
            Answers(w, WriteFault(fd, pos, size, buf)) <==> 0 <= at < 4096 && |buf| == Granted(at, size)
  {
    var at := PosOf(w, fd, pos);
    TransferIsGranted(at, size);
    assert Answers(w, Read(fd, pos, size, TransferResult(at, size), ReadBytes(w.mem, at, size)));
    assert Answers(w, Write(fd, pos, buf, TransferResult(at, |buf|)));
    var to := Seek(w.cursors[fd], offset, orig);
    assert Answers(w, Llseek(fd, offset, orig, if to.Some? then to.value else -EINVAL));
  }

  /** A descriptor is opened once, and ioctl is always answered. */
  lemma OpenAndIoctlAnswered(w: World, fd: Fd, cmd: int)
    ensures Answers(w, Open(fd)) <==> fd !in w.cursors
    ensures exists ret :: Answers(w, Ioctl(cmd, ret))
  {
    assert Answers(w, Ioctl(cmd, if cmd == MEM_CLEAR then 0 else -EINVAL));
  }
}
