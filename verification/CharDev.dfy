/** The 60-byte character device (drivers/chrdev/chardev.c). */
module CharDev {
  import opened CInts
  import opened Runs

  const MAX_LENGTH := 60
  const ENOSPC := 28
  const SEEK_SET := 0
  const SEEK_CUR := 1
  const SEEK_END := 2

  // ----- one call, in the program's own arithmetic

  /** maxbytes: a loff_t difference assigned to an int. */
  function MaxBytes(pos: Loff): int {
    S32(MAX_LENGTH - pos)
  }

  /** The comparison of an int with a size_t converts the int. */
  function Greater(maxbytes: int, lbuf: nat): bool {
    (if maxbytes < 0 then maxbytes + TWO_64 else maxbytes) > lbuf
  }

  /** bytes_to_read and bytes_to_write. */
  function BytesToMove(pos: Loff, lbuf: nat): (n: int)
    ensures -0x8000_0000 <= n < 0x8000_0000
    ensures n <= lbuf
  {
    if Greater(MaxBytes(pos), lbuf) then S32(lbuf) else MaxBytes(pos)
  }

  /** How many bytes a copy of n can miss.  Its size is an unsigned long: a negative n is more than 2^63 bytes, and
      of these the kernel copies none. */
  predicate CanMiss(n: int, missed: nat) {
    if n < 0 then missed == n + TWO_64 else missed <= n
  }

  /** nbytes: an unsigned long difference assigned to an int. */
  function Moved(n: int, missed: nat): int {
    S32(n - missed)
  }

  lemma MovedIs(n: int, missed: nat)
    requires -0x8000_0000 <= n < 0x8000_0000 && CanMiss(n, missed)
    ensures Moved(n, missed) == if n < 0 then 0 else n - missed
  {}

  function Lseek(pos: Loff, offset: Loff, whence: int): Loff {
    var newPos :=
      if whence == SEEK_SET then offset
      else if whence == SEEK_CUR then AddLoff(pos, offset)
      else if whence == SEEK_END then AddLoff(MAX_LENGTH, offset)
      else 0;
    if newPos > MAX_LENGTH then MAX_LENGTH else if newPos < 0 then 0 else newPos
  }

  // ----- what it comes to for cursors in the device

  type Cursor = n: int | 0 <= n <= MAX_LENGTH

  /** A request is granted as far as there is room, which beyond the device is taken modulo 2^32, and does not
      count where that is 2^31 or more. */
  function Granted(pos: nat, lbuf: nat): (n: nat)
    ensures n <= lbuf
    ensures pos <= 60 ==> n == if lbuf <= 60 - pos then lbuf else 60 - pos
  {
    var room := (60 - pos) % TWO_32;
    if room < 0x8000_0000 && room < lbuf then room else lbuf
  }

  /** In the device maxbytes is the room left, the comparison means what it says, and a transfer is bounded
      by the request and by the room. */
  lemma NoConversionBites(pos: Cursor, lbuf: nat)
    ensures MaxBytes(pos) == MAX_LENGTH - pos >= 0
    ensures Greater(MaxBytes(pos), lbuf) <==> MAX_LENGTH - pos > lbuf
    ensures BytesToMove(pos, lbuf) == Granted(pos, lbuf)
  {}

  /** So it is at any position that the kernel passes, for any size that it does. */
  lemma NoConversionBitesBelow(pos: Loff, lbuf: nat)
    requires 0 <= pos && lbuf < 0x8000_0000
    ensures BytesToMove(pos, lbuf) == Granted(pos, lbuf)
  {}

  function Clamp(n: int): Cursor {
    if n > 60 then 60 else if n < 0 then 0 else n
  }

  /** lseek always lands in the device; a relative seek lands on the clamped sum exactly when the sum of the
      64-bit numbers does not overflow, otherwise it lands on 0. */
  lemma LseekLands(pos: Cursor, offset: Loff)
    ensures Lseek(pos, offset, SEEK_SET) == Clamp(offset)
    ensures Lseek(pos, offset, SEEK_CUR) == Clamp(pos + offset) <==> pos + offset < 0x8000_0000_0000_0000
    ensures Lseek(pos, offset, SEEK_END) == Clamp(MAX_LENGTH + offset)
            <==> MAX_LENGTH + offset < 0x8000_0000_0000_0000
    ensures forall whence :: 0 <= Lseek(pos, offset, whence) <= MAX_LENGTH
    ensures pos + offset >= 0x8000_0000_0000_0000 ==> Lseek(pos, offset, SEEK_CUR) == 0
  {}

  /** A large relative seek goes back to the start. */
  lemma SeekFarGoesBack()
    ensures Lseek(1, 0x7fff_ffff_ffff_ffff, SEEK_CUR) == 0
  {}

  // ----- transfers at any position (pread and pwrite bring their own)

  /** The bytes a read touches, the front of the buffer whatever its position, all exist. */
  predicate ReadInside(pos: Loff, lbuf: nat) {
    0 <= BytesToMove(pos, lbuf) <= MAX_LENGTH
  }

  /** The bytes a write touches all exist. */
  predicate WriteInside(pos: Loff, lbuf: nat) {
    var n := BytesToMove(pos, lbuf);
    n == 0 || (0 <= pos && 0 < n && pos + n <= MAX_LENGTH)
  }

  /** A write stays in the buffer exactly at a position in the device; or if it is empty, because the room,
      cut to 32 bits, is none, or because the request, so cut, is. */
  lemma WriteStaysInside(pos: Loff, lbuf: nat)
    ensures WriteInside(pos, lbuf) <==>
            || 0 <= pos <= MAX_LENGTH
            || (pos - MAX_LENGTH) % TWO_32 == 0
            || lbuf == 0
            || (lbuf % TWO_32 == 0 && MaxBytes(pos) < 0 && lbuf < TWO_64 + MaxBytes(pos))
  {}

  /** A read stays in the buffer exactly if the room, cut to 32 bits, is at most the whole buffer, or the request
      is; beyond 4 GiB the request counts cut to 32 bits where the room is negative. */
  lemma ReadStaysInside(pos: Loff, lbuf: nat)
    ensures ReadInside(pos, lbuf) <==>
            || (MAX_LENGTH - pos) % TWO_32 <= MAX_LENGTH
            || lbuf <= MAX_LENGTH
            || (lbuf % TWO_32 <= MAX_LENGTH && MaxBytes(pos) < 0 && lbuf < TWO_64 + MaxBytes(pos))
  {}

  /** Beyond the end a transfer can leave the buffer. */
  lemma TransfersCanLeave()
    ensures !WriteInside(61, 1) && !ReadInside(61, 61)
  {}

  // ----- a read does not look at the cursor

  predicate FrontIsAt(buf: seq<Byte>, pos: nat, n: nat)
    requires pos + n <= |buf|
  {
    buf[..n] == buf[pos..pos + n]
  }

  /** A read returns the bytes at its cursor, whatever the buffer holds, exactly if the cursor is at the start or
      nothing is read: at the end of the device, or with an empty request. */
  lemma ReadsAtCursor(pos: Cursor, lbuf: nat)
    ensures 0 <= BytesToMove(pos, lbuf) <= MAX_LENGTH - pos
    ensures (forall buf: seq<Byte> :: |buf| == MAX_LENGTH ==> FrontIsAt(buf, pos, BytesToMove(pos, lbuf)))
            <==> pos == 0 || pos == MAX_LENGTH || lbuf == 0
  {
    NoConversionBites(pos, lbuf);
    var n := BytesToMove(pos, lbuf);
    if 0 < pos && 0 < n {
      var buf: seq<Byte> := seq(MAX_LENGTH, i => if i < pos then 0 else 1);
      assert buf[..n][0] == 0 && buf[pos..pos + n][0] == 1;
      assert !FrontIsAt(buf, pos, n);
    }
  }

  // ----- the buffer and its files in place

  class Device {
    const buf: array<Byte>

    ghost predicate Valid() {
      buf.Length == MAX_LENGTH
    }

    constructor ()
      ensures Valid() && fresh(buf)
      ensures forall k :: 0 <= k < MAX_LENGTH ==> buf[k] == 0
    {
      buf := new Byte[MAX_LENGTH];
      new;
      InitDevice();
    }

    method InitDevice()
      requires Valid()
      modifies buf
      ensures forall k :: 0 <= k < MAX_LENGTH ==> buf[k] == 0
    {
      var i := 0;
      while i < MAX_LENGTH
        invariant 0 <= i <= MAX_LENGTH
        invariant forall k :: 0 <= k < i ==> buf[k] == 0
      {
        buf[i] := 0;
        i := i + 1;
      }
    }

    /** `missed`: how many of the bytes copy_to_user did not copy.  The copy starts at the front of the
        buffer whatever *ppos is, and does not stop at its end: `behind` is what lies there. */
    method DeviceRead(ppos: Loff, lbuf: nat, missed: nat, behind: seq<Byte>)
      returns (ret: int, data: seq<Byte>, newPos: Loff)
      requires Valid()
      requires CanMiss(BytesToMove(ppos, lbuf), missed) && BytesToMove(ppos, lbuf) <= MAX_LENGTH + |behind|
      ensures var n := BytesToMove(ppos, lbuf);
              if n == 0 then ret == -ENOSPC && data == [] && newPos == ppos
              else && ret == |data| == Moved(n, missed) && data == (buf[..] + behind)[..ret]
                   && newPos == AddLoff(ppos, ret)
    {
      var maxbytes := MaxBytes(ppos);
      var bytesToRead := if Greater(maxbytes, lbuf) then S32(lbuf) else maxbytes;
      if bytesToRead == 0 {
        return -ENOSPC, [], ppos;
      }
      MovedIs(bytesToRead, missed);
      var nbytes := S32(bytesToRead - missed);
      data := (buf[..] + behind)[..nbytes];
      newPos := AddLoff(ppos, nbytes);
      ret := nbytes;
    }

    /** `missed`: how many of the bytes copy_from_user did not copy. */
    method DeviceWrite(ppos: Loff, from: seq<Byte>, missed: nat) returns (ret: int, newPos: Loff)
      requires Valid()
      requires CanMiss(BytesToMove(ppos, |from|), missed)
      modifies buf
      ensures ret <= |from|
      ensures var n := BytesToMove(ppos, |from|);
              if n == 0 then ret == -ENOSPC && newPos == ppos && buf[..] == old(buf[..])
              else && ret == Moved(n, missed) && newPos == AddLoff(ppos, ret)
                   && forall a :: 0 <= a < MAX_LENGTH ==>
                        buf[a] == if ppos <= a < ppos + ret then from[a - ppos] else old(buf[a])
    {
      var maxbytes := MaxBytes(ppos);
      var bytesToWrite := if Greater(maxbytes, |from|) then S32(|from|) else maxbytes;
      if bytesToWrite == 0 {
        return -ENOSPC, ppos;
      }
      MovedIs(bytesToWrite, missed);
      var nbytes := S32(bytesToWrite - missed);
      forall a | 0 <= a < buf.Length && ppos <= a < ppos + nbytes {
        buf[a] := from[a - ppos];
      }
      newPos := AddLoff(ppos, nbytes);
      ret := nbytes;
    }
  }

  class File {
    const dev: Device
    var fPos: Cursor

    constructor (dev: Device)
      ensures this.dev == dev && fPos == 0
    {
      this.dev := dev;
      fPos := 0;
    }

    /** read(2): the position is the cursor. */
    method Read(lbuf: nat, missed: nat) returns (ret: int, data: seq<Byte>)
      requires dev.Valid()
      requires missed <= Granted(fPos, lbuf)
      modifies this`fPos
      ensures var n := Granted(old(fPos), lbuf);
              if n == 0 then ret == -ENOSPC && data == [] && fPos == old(fPos)
              else ret == |data| == n - missed && data == dev.buf[..n - missed] && fPos == old(fPos) + ret
    {
      NoConversionBites(fPos, lbuf);
      MovedIs(BytesToMove(fPos, lbuf), missed);
      ret, data, fPos := dev.DeviceRead(fPos, lbuf, missed, []);
      assert dev.buf[..] + [] == dev.buf[..];
    }

    /** write(2). */
    method Write(buf: seq<Byte>, missed: nat) returns (ret: int)
      requires dev.Valid()
      requires missed <= Granted(fPos, |buf|)
      modifies this`fPos, dev.buf
      ensures var n := Granted(old(fPos), |buf|);
              if n == 0 then ret == -ENOSPC && fPos == old(fPos) && dev.buf[..] == old(dev.buf[..])
              else && ret == n - missed && fPos == old(fPos) + ret
                   && dev.buf[..] == old(dev.buf[..fPos]) + buf[..ret] + old(dev.buf[fPos..])[ret..]
    {
      NoConversionBites(fPos, |buf|);
      MovedIs(BytesToMove(fPos, |buf|), missed);
      ret, fPos := dev.DeviceWrite(fPos, buf, missed);
    }

    method DeviceLseek(offset: Loff, whence: int) returns (newPos: Loff)
      modifies this`fPos
      ensures newPos == fPos == Lseek(old(fPos), offset, whence)
    {
      newPos := 0;
      if whence == SEEK_SET {
        newPos := offset;
      } else if whence == SEEK_CUR {
        newPos := AddLoff(fPos, offset);
      } else if whence == SEEK_END {
        newPos := AddLoff(MAX_LENGTH, offset);
      }
      if newPos > MAX_LENGTH {
        newPos := MAX_LENGTH;
      }
      if newPos < 0 {
        newPos := 0;
      }
      fPos := newPos;
    }
  }

  // ----- whole runs

  type Fd = nat

  type Buffer = b: seq<Byte> | |b| == MAX_LENGTH witness seq(MAX_LENGTH, _ => 0)

  datatype World = World(buf: Buffer, cursors: map<Fd, Cursor>)

  function Init(): World {
    World(seq(MAX_LENGTH, _ => 0), map[])
  }

  /** The calls, with what they answered; `missed` bytes of a transfer were not copied.  A transfer takes place at the
      cursor, and moves it, or at a position of its own (pread and pwrite). */
  datatype Op =
    | Open(fd: Fd)
    | Seek(fd: Fd, offset: Loff, whence: int, ret: int)
    | Read(fd: Fd, pos: Option<Loff>, lbuf: nat, missed: nat, ret: int, data: seq<Byte>)
    | Write(fd: Fd, pos: Option<Loff>, buf: seq<Byte>, missed: nat, ret: int)

  /** The kernel passes no negative position. */
  predicate PosOk(w: World, fd: Fd, pos: Option<Loff>) {
    fd in w.cursors && (pos.Some? ==> 0 <= pos.value)
  }

  function PosOf(w: World, fd: Fd, pos: Option<Loff>): Loff
    requires PosOk(w, fd, pos)
  {
    if pos.Some? then pos.value else w.cursors[fd]
  }

  /** The value of a transfer of n bytes of which some were missed. */
  function Result(n: int, missed: nat): int {
    if n == 0 then -ENOSPC else Moved(n, missed)
  }

  function Advance(w: World, fd: Fd, pos: Option<Loff>, lbuf: nat, missed: nat): map<Fd, Cursor>
    requires PosOk(w, fd, pos) && CanMiss(BytesToMove(PosOf(w, fd, pos), lbuf), missed)
  {
    if pos.Some? then w.cursors
    else w.cursors[fd := w.cursors[fd] + BytesToMove(w.cursors[fd], lbuf) - missed]
  }

  /** The answer starts with the buffer; what comes after its end, where a read goes on, is anything. */
  predicate FromFront(buf: Buffer, data: seq<Byte>) {
    if |data| <= MAX_LENGTH then data == buf[..|data|] else data[..MAX_LENGTH] == buf
  }

  function Overwrite(buf: Buffer, at: int, bytes: seq<Byte>): Buffer {
    seq(MAX_LENGTH, a requires 0 <= a < MAX_LENGTH => if at <= a < at + |bytes| then bytes[a - at] else buf[a])
  }

  /** A call is possible where the driver gives just this answer. */
  function Next(w: World, op: Op): Option<World> {
    match op
    case Open(fd) => if fd in w.cursors then None else Some(w.(cursors := w.cursors[fd := 0]))
    case Seek(fd, offset, whence, ret) =>
      if fd in w.cursors && ret == Lseek(w.cursors[fd], offset, whence)
      then Some(w.(cursors := w.cursors[fd := ret]))
      else None
    case Read(fd, pos, lbuf, missed, ret, data) =>
      if !PosOk(w, fd, pos) then None
      else
        var n := BytesToMove(PosOf(w, fd, pos), lbuf);
        if CanMiss(n, missed) && ret == Result(n, missed) && |data| == Moved(n, missed) && FromFront(w.buf, data)
        then Some(w.(cursors := Advance(w, fd, pos, lbuf, missed)))
        else None
    case Write(fd, pos, buf, missed, ret) =>
      if !PosOk(w, fd, pos) then None
      else
        var at := PosOf(w, fd, pos);
        var n := BytesToMove(at, |buf|);
        if CanMiss(n, missed) && ret == Result(n, missed)
        then Some(World(Overwrite(w.buf, at, buf[..if n < 0 then 0 else n - missed]),
                        Advance(w, fd, pos, |buf|, missed)))
        else None
  }

  // ----- what the callers asked for

  /** A seek goes to the sum, clamped, or to 0 if it overflows. */
  function Target(at: Cursor, offset: int, whence: int): Cursor {
    if whence == 0 then Clamp(offset)
    else if whence == 1 then if at + offset >= 0x8000_0000_0000_0000 then 0 else Clamp(at + offset)
    else if whence == 2 then if 60 + offset >= 0x8000_0000_0000_0000 then 0 else Clamp(60 + offset)
    else 0
  }

  /** Where the calls on a descriptor have taken it. */
  function CursorAfter(ops: seq<Op>, fd: Fd): Cursor {
    if ops == [] then 0
    else
      var op, at := ops[|ops| - 1], CursorAfter(ops[..|ops| - 1], fd);
      match op
      case Open(f) => if f == fd then 0 else at
      case Seek(f, offset, whence, _) => if f == fd then Target(at, offset, whence) else at
      case Read(f, pos, lbuf, missed, _, _) =>
        if f == fd && pos.None? && missed <= Granted(at, lbuf) then at + Granted(at, lbuf) - missed else at
      case Write(f, pos, buf, missed, _) =>
        if f == fd && pos.None? && missed <= Granted(at, |buf|) then at + Granted(at, |buf|) - missed else at
  }

  /** Where a transfer takes place. */
  function Place(ops: seq<Op>, fd: Fd, pos: Option<Loff>): int {
    if pos.Some? then pos.value else CursorAfter(ops, fd)
  }

  /** The byte last written to an address: byte i of a buffer goes to the place of the write plus i, but for what was
      not granted and what was missed; no write beyond the device reaches it. */
  function LastWritten(ops: seq<Op>, a: nat): Byte {
    if ops == [] then 0
    else
      var op, before := ops[|ops| - 1], ops[..|ops| - 1];
      match op
      case Write(fd, pos, buf, missed, _) =>
        var at := Place(before, fd, pos);
        if 0 <= at <= 60 && at <= a < at + Granted(at, |buf|) - missed then buf[a - at]
        else LastWritten(before, a)
      case _ => LastWritten(before, a)
  }

  lemma LseekIsTarget(pos: Cursor, offset: Loff, whence: int)
    ensures Lseek(pos, offset, whence) == Target(pos, offset, whence)
  {}

  // ----- refinement

  ghost predicate Remembers(w: World, ops: seq<Op>) {
    && (forall a: nat :: a < MAX_LENGTH ==> w.buf[a] == LastWritten(ops, a))
    && (forall fd :: fd in w.cursors ==> w.cursors[fd] == CursorAfter(ops, fd))
    && (forall fd :: fd in w.cursors <==> Open(fd) in ops)
  }

  lemma RemembersMoves(w: World, ops: seq<Op>, op: Op)
    requires Remembers(w, ops) && Next(w, op).Some?
    requires op.Open? || op.Seek? || op.Read?
    ensures Remembers(Next(w, op).value, ops + [op])
  {
    assert (ops + [op])[..|ops|] == ops;
    match op
    case Seek(fd, offset, whence, _) => LseekIsTarget(w.cursors[fd], offset, whence);
    case Read(fd, _, lbuf, _, _, _) => NoConversionBites(w.cursors[fd], lbuf);
    case _ =>
  }

  lemma RemembersWrite(w: World, ops: seq<Op>, op: Op)
    requires Remembers(w, ops) && Next(w, op).Some? && op.Write?
    ensures Remembers(Next(w, op).value, ops + [op])
  {
    var t, at := Next(w, op).value, PosOf(w, op.fd, op.pos);
    assert (ops + [op])[..|ops|] == ops;
    NoConversionBites(w.cursors[op.fd], |op.buf|);
    if at <= MAX_LENGTH {
      NoConversionBites(at, |op.buf|);
    }
    forall a: nat | a < MAX_LENGTH ensures t.buf[a] == LastWritten(ops + [op], a) {
      assert w.buf[a] == LastWritten(ops, a);
    }
  }

  /** Over any run of opens, seeks with arbitrary 64-bit offsets, reads and writes, complete or partial, at the
      cursor or at any other position, every byte of the buffer is the last one that a caller wrote there, and every
      cursor is where the calls on its own descriptor have taken it, between 0 and 60. */
  lemma DeviceRemembers(ops: seq<Op>, w: World)
    requires Run(Next, Init(), ops) == Some(w)
    ensures forall a: nat :: a < MAX_LENGTH ==> w.buf[a] == LastWritten(ops, a)
    ensures forall fd :: fd in w.cursors <==> Open(fd) in ops
    ensures forall fd :: fd in w.cursors ==> 0 <= w.cursors[fd] == CursorAfter(ops, fd) <= 60
  {
    forall v, op, past | Remembers(v, past) && Next(v, op).Some? ensures Remembers(Next(v, op).value, past + [op]) {
      if op.Write? { RemembersWrite(v, past, op); } else { RemembersMoves(v, past, op); }
    }
    TraceInvariant(Next, Remembers, Init(), [], ops);
    assert [] + ops == ops;
  }

  /** Where call number i finds the device. */
  lemma FoundAt(ops: seq<Op>, i: nat) returns (w: World)
    requires Run(Next, Init(), ops).Some? && i < |ops|
    ensures Next(w, ops[i]).Some? && Remembers(w, ops[..i])
  {
    RunAt(Next, Init(), ops, i);
    w := Run(Next, Init(), ops[..i]).value;
    DeviceRemembers(ops[..i], w);
  }

  lemma TransferIsGranted(pos: Loff, lbuf: nat, missed: nat)
    requires 0 <= pos && (pos <= MAX_LENGTH || lbuf < 0x8000_0000)
    requires CanMiss(BytesToMove(pos, lbuf), missed)
    ensures missed <= Granted(pos, lbuf)
    ensures Moved(BytesToMove(pos, lbuf), missed) == Granted(pos, lbuf) - missed
    ensures Result(BytesToMove(pos, lbuf), missed) ==
            if Granted(pos, lbuf) == 0 then -ENOSPC else Granted(pos, lbuf) - missed
  {
    if pos <= MAX_LENGTH { NoConversionBites(pos, lbuf); } else { NoConversionBitesBelow(pos, lbuf); }
    MovedIs(BytesToMove(pos, lbuf), missed);
  }

  /** Every read of any run returns the bytes last written to the front of the buffer, as many as were granted less
      those missed; every transfer answers with what it moved, and every seek with where it went.  Beyond the device
      this is said of the sizes that the kernel passes. */
  lemma Answers(ops: seq<Op>, i: nat)
    requires Run(Next, Init(), ops).Some? && i < |ops|
    ensures ops[i].Read? ==>
              var at := Place(ops[..i], ops[i].fd, ops[i].pos);
              && 0 <= at
              && (forall j: nat :: j < |ops[i].data| && j < 60 ==> ops[i].data[j] == LastWritten(ops[..i], j))
              && (at <= 60 || ops[i].lbuf < 0x8000_0000 ==>
                    var n := Granted(at, ops[i].lbuf);
                    && |ops[i].data| == n - ops[i].missed
                    && ops[i].ret == if n == 0 then -28 else |ops[i].data|)
    ensures ops[i].Write? ==>
              var at := Place(ops[..i], ops[i].fd, ops[i].pos);
              && 0 <= at
              && (at <= 60 || |ops[i].buf| < 0x8000_0000 ==>
                    var n := Granted(at, |ops[i].buf|);
                    ops[i].missed <= n && ops[i].ret == if n == 0 then -28 else n - ops[i].missed)
    ensures ops[i].Seek? ==> ops[i].ret == Target(CursorAfter(ops[..i], ops[i].fd), ops[i].offset, ops[i].whence)
  {
    var w := FoundAt(ops, i);
    match ops[i]
    case Read(fd, pos, lbuf, missed, _, data) =>
      var at := PosOf(w, fd, pos);
      if at <= 60 || lbuf < 0x8000_0000 { TransferIsGranted(at, lbuf, missed); }
    case Write(fd, pos, buf, missed, _) =>
      var at := PosOf(w, fd, pos);
      if at <= 60 || |buf| < 0x8000_0000 { TransferIsGranted(at, |buf|, missed); }
    case Seek(fd, offset, whence, _) => LseekIsTarget(w.cursors[fd], offset, whence);
    case _ =>
  }

  ghost predicate Answered(w: World, op: Op) {
    Next(w, op).Some?
  }

  /** How many bytes of a copy can be missed: none to all, and of more than 2^63, which a negative n asks for, all. */
  predicate AnyMissed(n: int, missed: nat) {
    if n >= 0 then missed <= n else missed == n + 0x1_0000_0000_0000_0000
  }

  /** Whatever is asked of an open descriptor, at whatever position the kernel passes, the driver has an answer, for
      every number of bytes that the copy can miss; and a descriptor is opened once. */
  lemma EveryCallAnswered(w: World, fd: Fd, pos: Option<Loff>, lbuf: nat, buf: seq<Byte>, missed: nat, offset: Loff,
                          whence: int)
    requires fd in w.cursors && (pos.Some? ==> 0 <= pos.value)
    ensures AnyMissed(BytesToMove(PosOf(w, fd, pos), lbuf), missed) <==>
            exists ret, data :: Answered(w, Read(fd, pos, lbuf, missed, ret, data))
    ensures AnyMissed(BytesToMove(PosOf(w, fd, pos), |buf|), missed) <==>
            exists ret :: Answered(w, Write(fd, pos, buf, missed, ret))
    ensures exists ret :: Answered(w, Seek(fd, offset, whence, ret))
  {
    var at := PosOf(w, fd, pos);
    var n, m := BytesToMove(at, lbuf), BytesToMove(at, |buf|);
    if CanMiss(n, missed) {
      MovedIs(n, missed);
      var data: seq<Byte> := seq(Moved(n, missed), i => if 0 <= i < MAX_LENGTH then w.buf[i] else 0);
      assert Answered(w, Read(fd, pos, lbuf, missed, Result(n, missed), data));
    }
    assert CanMiss(m, missed) ==> Answered(w, Write(fd, pos, buf, missed, Result(m, missed)));
    assert Answered(w, Seek(fd, offset, whence, Lseek(w.cursors[fd], offset, whence)));
  }

  lemma OpenAnswered(w: World, fd: Fd)
    ensures Answered(w, Open(fd)) <==> fd !in w.cursors
  {}

  // ----- a run whose read returns something else than was written at its cursor

  const WRITE_SEEK_READ: seq<Op> :=
    [Open(0), Write(0, None, [7, 8], 0, 2), Seek(0, 1, SEEK_SET, 1), Read(0, None, 1, 0, 1, [7])]

  /** 7 and 8 are written, the cursor goes back to the 8, and a read returns the 7. */
  lemma ReadIgnoresCursor()
    ensures Run(Next, Init(), WRITE_SEEK_READ).Some?
    ensures CursorAfter(WRITE_SEEK_READ[..3], 0) == 1
    ensures LastWritten(WRITE_SEEK_READ[..3], 1) == 8
  {
    var a := Next(Init(), WRITE_SEEK_READ[0]).value;
    NoConversionBites(0, 2);
    var b := Next(a, WRITE_SEEK_READ[1]).value;
    var c := Next(b, WRITE_SEEK_READ[2]).value;
    NoConversionBites(1, 1);
    assert b.buf[..1] == [7];
    var d := Next(c, WRITE_SEEK_READ[3]).value;
    RunFour(Next, Init(), WRITE_SEEK_READ[0], a, WRITE_SEEK_READ[1], b, WRITE_SEEK_READ[2], c, WRITE_SEEK_READ[3], d);
    var ops := WRITE_SEEK_READ[..3];
    assert ops[..2] == WRITE_SEEK_READ[..2] && ops[..2][..1] == WRITE_SEEK_READ[..1];
    assert WRITE_SEEK_READ[..1][..0] == [];
  }
}
