/** Cutting a transfer on the memory device into pieces. */
module GlobalMemChunks {
  import opened CInts
  import opened GlobalMem
  import opened GlobalMemRuns

  function Flatten(chunks: seq<seq<Byte>>): seq<Byte> {
    if chunks == [] then [] else chunks[0] + Flatten(chunks[1..])
  }

  function Sum(sizes: seq<nat>): nat {
    if sizes == [] then 0 else sizes[0] + Sum(sizes[1..])
  }

  function Min(a: nat, b: nat): nat {
    if a <= b then a else b
  }

  // ----- successive writes

  /** The memory and the cursor after successful writes of the chunks one after the other, whatever they
      answer. */
  function WriteChunks(mem: Memory, at: Cursor, chunks: seq<seq<Byte>>): (Memory, Cursor)
    decreases |chunks|
  {
    if chunks == [] then (mem, at)
    else
      var n := Transfer(at, |chunks[0]|);
      WriteChunks(WriteBytes(mem, at, chunks[0][..n]), at + n, chunks[1..])
  }

  /** The front of a, then the front of b where a left room, is the front of a + b. */
  lemma FrontOfConcat(mem: seq<Byte>, at: nat, a: seq<Byte>, b: seq<Byte>, room: nat)
    requires at + room == |mem|
    ensures var n := Min(|a|, room);
            var m := Min(|b|, room - n);
            && n + m == Min(|a + b|, room)
            && Splice(Splice(mem, at, a[..n]), at + n, b[..m]) == Splice(mem, at, (a + b)[..n + m])
  {}

  lemma SpliceNothing(mem: seq<Byte>, at: nat)
    requires at <= |mem|
    ensures Splice(mem, at, []) == mem
  {}

  lemma OneWrite(mem: Memory, at: Cursor, buf: seq<Byte>)
    ensures var n := Min(U32(|buf|), GLOBALMEM_SIZE - at);
            && n <= |buf| && Transfer(at, |buf|) == n
            && WriteBytes(mem, at, buf[..n]) == Splice(mem, at, buf[..n])
            && TransferResult(at, |buf|) == (if at == GLOBALMEM_SIZE && U32(|buf|) != 0 then -ENXIO else n)
  {}

  /** The same without conversions. */
  function StoreChunks(mem: Memory, at: Cursor, chunks: seq<seq<Byte>>): (Memory, Cursor)
    decreases |chunks|
  {
    if chunks == [] then (mem, at)
    else
      var n := Min(|chunks[0]|, GLOBALMEM_SIZE - at);
      StoreChunks(Splice(mem, at, chunks[0][..n]), at + n, chunks[1..])
  }

  lemma {:induction false} WriteChunksIsStore(mem: Memory, at: Cursor, chunks: seq<seq<Byte>>)
    requires forall i :: 0 <= i < |chunks| ==> |chunks[i]| < TWO_32
    ensures WriteChunks(mem, at, chunks) == StoreChunks(mem, at, chunks)
    decreases |chunks|
  {
    if chunks != [] {
      OneWrite(mem, at, chunks[0]);
      var n := Min(|chunks[0]|, GLOBALMEM_SIZE - at);
      WriteChunksIsStore(Splice(mem, at, chunks[0][..n]), at + n, chunks[1..]);
    }
  }

  /** Successive chunks store the front of the whole, as much as fits. */
  lemma {:induction false} ChunksStoreFront(mem: Memory, at: Cursor, chunks: seq<seq<Byte>>)
    ensures var all := Flatten(chunks);
            var n := Min(|all|, GLOBALMEM_SIZE - at);
            StoreChunks(mem, at, chunks) == (Splice(mem, at, all[..n]), at + n)
    decreases |chunks|
  {
    if chunks == [] {
      SpliceNothing(mem, at);
    } else {
      var chunk, all := chunks[0], Flatten(chunks[1..]);
      var n := Min(|chunk|, GLOBALMEM_SIZE - at);
      ChunksStoreFront(Splice(mem, at, chunk[..n]), at + n, chunks[1..]);
      FrontOfConcat(mem, at, chunk, all, GLOBALMEM_SIZE - at);
    }
  }

  /** A size keeps its meaning when it is converted to unsigned int, as far as the device is concerned: it
      is below 4 GiB, or what remains of it still fills the room left. */
  predicate Survives(size: nat, room: nat) {
    size < TWO_32 || U32(size) >= room
  }

  lemma SurvivesIffSameFront(size: nat, room: nat)
    requires room <= GLOBALMEM_SIZE
    ensures Min(U32(size), room) == Min(size, room) <==> Survives(size, room)
  {}

  lemma SingleWrite(mem: Memory, at: Cursor, buf: seq<Byte>)
    ensures var n := Min(U32(|buf|), GLOBALMEM_SIZE - at);
            n <= |buf| && WriteChunks(mem, at, [buf]) == (Splice(mem, at, buf[..n]), at + n)
  {
    OneWrite(mem, at, buf);
    assert [buf][1..] == [];
  }

  /** Splitting a buffer into any successive writes below 4 GiB leaves the same memory and cursor as one
      write of the whole, exactly when the size of the whole survives its conversion. */
  lemma ChunkIndependence(mem: Memory, at: Cursor, chunks: seq<seq<Byte>>)
    requires forall i :: 0 <= i < |chunks| ==> |chunks[i]| < TWO_32
    ensures WriteChunks(mem, at, chunks) == WriteChunks(mem, at, [Flatten(chunks)])
            <==> Survives(|Flatten(chunks)|, GLOBALMEM_SIZE - at)
  {
    var whole, room := Flatten(chunks), GLOBALMEM_SIZE - at;
    WriteChunksIsStore(mem, at, chunks);
    ChunksStoreFront(mem, at, chunks);
    SingleWrite(mem, at, whole);
    SurvivesIffSameFront(|whole|, room);
    var n, m := Min(|whole|, room), Min(U32(|whole|), room);
    assert n == m ==> WriteChunks(mem, at, chunks) == WriteChunks(mem, at, [whole]);
    assert n != m ==> WriteChunks(mem, at, chunks).1 != WriteChunks(mem, at, [whole]).1;
  }

  // ----- successive reads

  /** The bytes and the cursor after successful reads of the given sizes one after the other. */
  function ReadChunks(mem: Memory, at: Cursor, sizes: seq<nat>): (seq<Byte>, Cursor)
    decreases |sizes|
  {
    if sizes == [] then ([], at)
    else
      var rest := ReadChunks(mem, at + Transfer(at, sizes[0]), sizes[1..]);
      (ReadBytes(mem, at, sizes[0]) + rest.0, rest.1)
  }

  function SliceChunks(mem: Memory, at: Cursor, sizes: seq<nat>): (seq<Byte>, Cursor)
    decreases |sizes|
  {
    if sizes == [] then ([], at)
    else
      var n := Min(sizes[0], GLOBALMEM_SIZE - at);
      var rest := SliceChunks(mem, at + n, sizes[1..]);
      (mem[at..at + n] + rest.0, rest.1)
  }

  lemma OneRead(mem: Memory, at: Cursor, size: nat)
    requires size < TWO_32
    ensures var n := Min(size, GLOBALMEM_SIZE - at);
            Transfer(at, size) == n && ReadBytes(mem, at, size) == mem[at..at + n]
  {}

  lemma ReadChunksFirst(mem: Memory, at: Cursor, sizes: seq<nat>)
    requires sizes != [] && sizes[0] < TWO_32
    ensures var n := Min(sizes[0], GLOBALMEM_SIZE - at);
            var rest := ReadChunks(mem, at + n, sizes[1..]);
            ReadChunks(mem, at, sizes) == (mem[at..at + n] + rest.0, rest.1)
  {
    OneRead(mem, at, sizes[0]);
  }

  lemma {:induction false} ReadChunksIsSlice(mem: Memory, at: Cursor, sizes: seq<nat>)
    requires forall i :: 0 <= i < |sizes| ==> sizes[i] < TWO_32
    ensures ReadChunks(mem, at, sizes) == SliceChunks(mem, at, sizes)
    decreases |sizes|
  {
    if sizes != [] {
      var n := Min(sizes[0], GLOBALMEM_SIZE - at);
      ReadChunksFirst(mem, at, sizes);
      ReadChunksIsSlice(mem, at + n, sizes[1..]);
      var rest := SliceChunks(mem, at + n, sizes[1..]);
      assert SliceChunks(mem, at, sizes) == (mem[at..at + n] + rest.0, rest.1);
    }
  }

  lemma SliceTwice(mem: seq<Byte>, at: nat, k: nat, m: nat)
    requires at + k + m <= |mem|
    ensures mem[at..at + k] + mem[at + k..at + k + m] == mem[at..at + k + m]
  {}

  lemma {:induction false} SlicesReturnFront(mem: Memory, at: Cursor, sizes: seq<nat>)
    ensures var n := Min(Sum(sizes), GLOBALMEM_SIZE - at);
            SliceChunks(mem, at, sizes) == (mem[at..at + n], at + n)
    decreases |sizes|
  {
    if sizes == [] {
      assert mem[at..at] == [];
    } else {
      var k := Min(sizes[0], GLOBALMEM_SIZE - at);
      SlicesReturnFront(mem, at + k, sizes[1..]);
      SliceTwice(mem, at, k, Min(Sum(sizes[1..]), GLOBALMEM_SIZE - at - k));
    }
  }

  lemma SingleRead(mem: Memory, at: Cursor, size: nat)
    ensures var n := Min(U32(size), GLOBALMEM_SIZE - at);
            ReadChunks(mem, at, [size]) == (mem[at..at + n], at + n)
  {
    ReadIsSlice(mem, at, size);
    assert [size][1..] == [];
    var data := ReadBytes(mem, at, size);
    assert data + [] == data;
  }

  /** Successive reads below 4 GiB return what one read of the sum returns, under the same condition. */
  lemma ReadChunkIndependence(mem: Memory, at: Cursor, sizes: seq<nat>)
    requires forall i :: 0 <= i < |sizes| ==> sizes[i] < TWO_32
    ensures ReadChunks(mem, at, sizes) == ReadChunks(mem, at, [Sum(sizes)])
            <==> Survives(Sum(sizes), GLOBALMEM_SIZE - at)
  {
    ReadChunksIsSlice(mem, at, sizes);
    SlicesReturnFront(mem, at, sizes);
    SingleRead(mem, at, Sum(sizes));
    SurvivesIffSameFront(Sum(sizes), GLOBALMEM_SIZE - at);
  }

  /** The condition can fail: two reads return the whole device, one read of the sum nothing. */
  lemma HugeReadMovesNothing(mem: Memory)
    ensures ReadChunks(mem, 0, [TWO_32 - 1, 1]) == (mem, GLOBALMEM_SIZE)
    ensures ReadChunks(mem, 0, [Sum([TWO_32 - 1, 1])]) == ([], 0)
  {
    var sizes: seq<nat> := [TWO_32 - 1, 1];
    assert sizes[1..] == [1] && [1][1..] == [];
    assert Sum([1]) == 1;
    ReadChunksIsSlice(mem, 0, sizes);
    SlicesReturnFront(mem, 0, sizes);
    assert mem[0..0 + GLOBALMEM_SIZE] == mem;
    SingleRead(mem, 0, TWO_32);
  }

  /** So it can for writes: cut in two at any inner byte, a buffer of 4 GiB fills the device, and written at
      once it changes nothing. */
  lemma HugeWriteMovesNothing(mem: Memory, buf: seq<Byte>, cut: nat)
    requires |buf| == TWO_32 && 0 < cut < TWO_32
    ensures WriteChunks(mem, 0, [buf[..cut], buf[cut..]]) == (buf[..GLOBALMEM_SIZE], GLOBALMEM_SIZE)
    ensures WriteChunks(mem, 0, [buf]) == (mem, 0)
  {
    var chunks := [buf[..cut], buf[cut..]];
    assert chunks[1..] == [buf[cut..]] && [buf[cut..]][1..] == [];
    assert Flatten([buf[cut..]]) == buf[cut..];
    assert Flatten(chunks) == buf;
    WriteChunksIsStore(mem, 0, chunks);
    ChunksStoreFront(mem, 0, chunks);
    assert Splice(mem, 0, buf[..GLOBALMEM_SIZE]) == buf[..GLOBALMEM_SIZE];
    SingleWrite(mem, 0, buf);
    SpliceNothing(mem, 0);
  }

  // ----- reading or writing to the end

  /** Reads until one answers -ENXIO or the sizes run out: the bytes read, and whether the end was seen. */
  function ReadToEnd(mem: Memory, at: Cursor, sizes: seq<nat>): (seq<Byte>, bool)
    decreases |sizes|
  {
    if sizes == [] then ([], false)
    else if TransferResult(at, sizes[0]) == -ENXIO then ([], true)
    else
      var data := ReadBytes(mem, at, sizes[0]);
      var rest := ReadToEnd(mem, at + |data|, sizes[1..]);
      (data + rest.0, rest.1)
  }

  /** The same for writes: the memory, the bytes taken from the chunks, and whether the end was seen. */
  function WriteToEnd(mem: Memory, at: Cursor, chunks: seq<seq<Byte>>): (Memory, seq<Byte>, bool)
    decreases |chunks|
  {
    if chunks == [] then (mem, [], false)
    else if TransferResult(at, |chunks[0]|) == -ENXIO then (mem, [], true)
    else
      var n := Transfer(at, |chunks[0]|);
      var rest := WriteToEnd(WriteBytes(mem, at, chunks[0][..n]), at + n, chunks[1..]);
      (rest.0, chunks[0][..n] + rest.1, rest.2)
  }

  /** Reading on, with sizes that are not multiples of 2^32, sees the end after at most one call per byte
      left and one more, and has then returned exactly the bytes from the cursor to the end. */
  lemma {:induction false} ReadsReachEnd(mem: Memory, at: Cursor, sizes: seq<nat>)
    requires forall i :: 0 <= i < |sizes| ==> U32(sizes[i]) != 0
    requires |sizes| > GLOBALMEM_SIZE - at
    ensures ReadToEnd(mem, at, sizes) == (mem[at..], true)
    decreases |sizes|
  {
    assert U32(sizes[0]) != 0;
    if at < GLOBALMEM_SIZE {
      ReadIsSlice(mem, at, sizes[0]);
      var data := ReadBytes(mem, at, sizes[0]);
      ReadsReachEnd(mem, at + |data|, sizes[1..]);
      assert mem[at..] == data + mem[at + |data|..];
    } else {
      assert mem[at..] == [];
    }
  }

  lemma FrontOfSplice(mem: seq<Byte>, at: nat, bytes: seq<Byte>, taken: seq<Byte>)
    requires at + |bytes| <= |mem|
    ensures Splice(mem, at, bytes)[..at + |bytes|] + taken == mem[..at] + (bytes + taken)
  {}

  /** Writing on fills the device from the cursor to the end with bytes taken from the chunks in order,
      and leaves the bytes before the cursor alone. */
  lemma {:induction false} WritesReachEnd(mem: Memory, at: Cursor, chunks: seq<seq<Byte>>)
    requires forall i :: 0 <= i < |chunks| ==> U32(|chunks[i]|) != 0
    requires |chunks| > GLOBALMEM_SIZE - at
    ensures var (mem', taken, ended) := WriteToEnd(mem, at, chunks);
            ended && at + |taken| == GLOBALMEM_SIZE && mem' == mem[..at] + taken
    decreases |chunks|
  {
    assert U32(|chunks[0]|) != 0;
    if at < GLOBALMEM_SIZE {
      OneWrite(mem, at, chunks[0]);
      var n := Min(U32(|chunks[0]|), GLOBALMEM_SIZE - at);
      var bytes := chunks[0][..n];
      WritesReachEnd(Splice(mem, at, bytes), at + n, chunks[1..]);
      var (_, taken, _) := WriteToEnd(Splice(mem, at, bytes), at + n, chunks[1..]);
      FrontOfSplice(mem, at, bytes, taken);
    } else {
      assert mem == mem[..at] + [];
    }
  }
}
