/** The memory device (drivers/globalMem/global_mem.c): 4096 bytes shared by all descriptors, a cursor for
    each. */
module GlobalMem {
  import opened CInts
  import opened Runs

  const GLOBALMEM_SIZE: nat := 0x1000
  const MEM_CLEAR := 0x1
  const ENXIO := 6
  const EFAULT := 14
  const EINVAL := 22

  type Memory = m: seq<Byte> | |m| == GLOBALMEM_SIZE witness seq(GLOBALMEM_SIZE, _ => 0)

  function Zeros(): Memory {
    seq(GLOBALMEM_SIZE, _ => 0)
  }

  // ----- one call

  /** How many bytes a read or a write of `size` bytes at *ppos transfers, if the copy succeeds. */
  function Transfer(pos: Loff, size: nat): (n: nat)
    ensures U64(pos) + n <= GLOBALMEM_SIZE || n == 0
    ensures 0 <= pos <= GLOBALMEM_SIZE ==> pos + n <= GLOBALMEM_SIZE
  {
    var p, count := U64(pos), U32(size);
    if p >= GLOBALMEM_SIZE then 0
    else if count > GLOBALMEM_SIZE - p then GLOBALMEM_SIZE - p
    else count
  }

  /** The value of a read or a write whose copy succeeds. */
  function TransferResult(pos: Loff, size: nat): int {
    if U64(pos) >= GLOBALMEM_SIZE then (if U32(size) != 0 then -ENXIO else 0)
    else Transfer(pos, size)
  }

  function Splice(mem: seq<Byte>, at: nat, bytes: seq<Byte>): (r: seq<Byte>)
    requires at + |bytes| <= |mem|
    ensures |r| == |mem|
  {
    mem[..at] + bytes + mem[at + |bytes|..]
  }

  /** The bytes a successful read hands out. */
  function ReadBytes(mem: Memory, pos: Loff, size: nat): seq<Byte> {
    var n := Transfer(pos, size);
    if n == 0 then [] else mem[U64(pos)..U64(pos) + n]
  }

  /** The memory after `bytes` arrived at *ppos. */
  function WriteBytes(mem: Memory, pos: Loff, bytes: seq<Byte>): Memory
    requires bytes == [] || U64(pos) + |bytes| <= GLOBALMEM_SIZE
  {
    if bytes == [] then mem else Splice(mem, U64(pos), bytes)
  }

  /** llseek: the new f_pos, or None for -EINVAL. */
  function Seek(pos: Loff, offset: Loff, orig: int): (to: Option<Loff>)
    ensures to.Some? ==> 0 <= to.value <= GLOBALMEM_SIZE
  {
    if orig == 0 then
      if offset < 0 then None
      else if U32(offset) > GLOBALMEM_SIZE then None
      else Some(U32(offset))
    else if orig == 1 then
      if AddLoff(pos, offset) > GLOBALMEM_SIZE then None
      else if AddLoff(pos, offset) < 0 then None
      else Some(AddLoff(pos, offset))
    else None
  }

  /** A cursor whose unsigned form lies in the device is not negative. */
  lemma CursorIsPlain(pos: Loff)
    requires U64(pos) < GLOBALMEM_SIZE
    ensures U64(pos) == pos
  {}

  // ----- the device and its open files in place

  class Device {
    const mem: array<Byte>

    ghost predicate Valid() {
      mem.Length == GLOBALMEM_SIZE
    }

    ghost function Contents(): Memory
      requires Valid()
      reads mem
    {
      mem[..]
    }

    constructor ()
      ensures Valid() && fresh(mem) && Contents() == Zeros()
    {
      mem := new Byte[GLOBALMEM_SIZE](_ => 0);
      new;
      assert mem[..] == Zeros();
    }

    method Ioctl(cmd: int) returns (ret: int)
      requires Valid()
      modifies mem
      ensures cmd == MEM_CLEAR ==> ret == 0 && Contents() == Zeros()
      ensures cmd != MEM_CLEAR ==> ret == -EINVAL && Contents() == old(Contents())
    {
      if cmd != MEM_CLEAR {
        return -EINVAL;
      }
      forall i | 0 <= i < mem.Length {
        mem[i] := 0;
      }
      assert mem[..] == Zeros();
      ret := 0;
    }
  }

  class File {
    const dev: Device
    var fPos: Loff

    constructor (dev: Device)
      ensures this.dev == dev && fPos == 0
    {
      this.dev := dev;
      fPos := 0;
    }

    /** `fault`: copy_to_user fails. */
    method Read(size: nat, fault: bool) returns (ret: int, data: seq<Byte>)
      requires dev.Valid()
      modifies this`fPos
      ensures U64(old(fPos)) < GLOBALMEM_SIZE && fault ==> ret == -EFAULT && data == [] && fPos == old(fPos)
      ensures !(U64(old(fPos)) < GLOBALMEM_SIZE && fault) ==>
                && ret == TransferResult(old(fPos), size)
                && data == ReadBytes(dev.Contents(), old(fPos), size)
                && fPos == old(fPos) + |data|
    {
      var p, count := U64(fPos), U32(size);
      data := [];
      if p >= GLOBALMEM_SIZE {
        ret := if count != 0 then -ENXIO else 0;
        return;
      }
      CursorIsPlain(fPos);
      if count > GLOBALMEM_SIZE - p {
        count := GLOBALMEM_SIZE - p;
      }
      if fault {
        ret := -EFAULT;
      } else {
        data := dev.mem[p..p + count];
        fPos := fPos + count;
        ret := count;
      }
    }

    /** `fault`: copy_from_user fails and leaves the given bytes in the window instead. */
    method Write(buf: seq<Byte>, fault: Option<seq<Byte>>) returns (ret: int)
      requires dev.Valid()
      requires fault.Some? ==> |fault.value| == Transfer(fPos, |buf|)
      modifies this`fPos, dev.mem
      ensures var n := Transfer(old(fPos), |buf|);
              if U64(old(fPos)) < GLOBALMEM_SIZE && fault.Some? then
                && ret == -EFAULT && fPos == old(fPos)
                && dev.Contents() == WriteBytes(old(dev.Contents()), old(fPos), fault.value)
              else
                && ret == TransferResult(old(fPos), |buf|) && fPos == old(fPos) + n
                && dev.Contents() == WriteBytes(old(dev.Contents()), old(fPos), buf[..n])
    {
      var p, count := U64(fPos), U32(|buf|);
      if p >= GLOBALMEM_SIZE {
        ret := if count != 0 then -ENXIO else 0;
        return;
      }
      CursorIsPlain(fPos);
      if count > GLOBALMEM_SIZE - p {
        count := GLOBALMEM_SIZE - p;
      }
      var bytes := if fault.Some? then fault.value else buf[..count];
      forall i | 0 <= i < count {
        dev.mem[p + i] := bytes[i];
      }
      assert dev.mem[..] == WriteBytes(old(dev.Contents()), old(fPos), bytes);
      if fault.Some? {
        ret := -EFAULT;
      } else {
        fPos := fPos + count;
        ret := count;
      }
    }

    method Llseek(offset: Loff, orig: int) returns (ret: int)
      modifies this`fPos
      ensures match Seek(old(fPos), offset, orig)
              case None => ret == -EINVAL && fPos == old(fPos)
              case Some(to) => ret == to == fPos
    {
      ret := -EINVAL;
      if orig == 0 {
        if offset >= 0 && U32(offset) <= GLOBALMEM_SIZE {
          fPos := U32(offset);
          ret := fPos;
        }
      } else if orig == 1 {
        if 0 <= AddLoff(fPos, offset) <= GLOBALMEM_SIZE {
          fPos := AddLoff(fPos, offset);
          ret := fPos;
        }
      }
    }
  }
}
