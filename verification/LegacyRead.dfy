/** The legacy read of a circular block (ioc_dma_read_request_a, read stride 1): mask arithmetic
    splits the read at the end of the block, and exactly when the split delivers the block. */
module LegacyRead {
  import opened Words
  import opened Bits
  import Descriptors

  const DRIVER_BUFFER: nat := 0x10_0000 // TPCE_DMA_DRIVER_BUFFER_SIZE
  const DDR3: nat := 0x4000_0000        // TPCE_AVALON_ADDR_DDR3_OFFSET

  /** The fields of T_DMA_TPCE_DATA_READ that the read uses. NextAddress is 1. */
  datatype ReadArgs = ReadArgs(address: u32, input: u32, channel: u32, mux8: bool,
                               blockSize: u32, blockNr: u32, count: u32)
  {
    /** The documented range of a request: a block of 2^n entries, n >= 10, and an address in it. */
    predicate InRange() {
      IsPowerOf2(blockSize) && InBlock()
    }

    predicate InBlock() {
      0x400 <= blockSize <= 0x4000_0000 && address < blockSize
    }

    /** Bytes of the block; an entry has two. */
    function BlockBytes(): nat {
      2 * blockSize
    }

    /** The byte of the block that the read starts at. */
    function First(): nat {
      2 * address
    }
  }

  /** The device memory. */
  type Memory = u32 -> u8

  /** What the transfers of a channel read: memory at their device address, or, where the channel has a
      stream for its input and its read address is set to 0, the next bytes of that stream. */
  datatype Source = Addressed(mem: Memory) | Fifo(data: nat -> u8)
  {
    /** Byte i of a transfer from addr, after taken bytes of the stream. */
    function At(addr: u32, taken: nat, i: nat): u8 {
      match this
      case Addressed(mem) => mem(W32(addr + i))
      case Fifo(data) => data(taken + i)
    }

    predicate IsOf(channel: u32) {
      channel < 3 ==> (Fifo? <==> Descriptors.ChannelTable(channel).hasStreamRead)
    }
  }

  function ChannelAddr(a: ReadArgs): u32 {
    if !a.mux8 then
      if a.input == 0 then 0 else if a.input == 1 then 0x1000_0000
      else if a.input == 2 then 0x2000_0000 else if a.input == 3 then 0x3000_0000 else 0
    else
      if a.input < 8 then a.input * 0x800_0000 else 0
  }

  /** Device address of the block, with the wrap-around of 32-bit arithmetic. */
  function BlockAddr(a: ReadArgs): u32 {
    W32(DDR3 + W32(BlockOffset(a)) + ChannelAddr(a))
  }

  /** AddrBlockNr * AddrBlockSize * 2, before it is truncated. */
  function BlockOffset(a: ReadArgs): nat {
    a.blockNr * a.blockSize * 2
  }

  // ----- Masks --------------------------------------------------------------------------------

  /** x & 0xFFFFFFF8 */
  function Align8(x: u32): u32 {
    x - x % 8
  }

  lemma {:induction false} MaskAlign8(x: u32)
    ensures And(x, 0xFFFF_FFF8) == Align8(x)
  {
    Pow2Values();
    AndHighMask(x, 32, 3);
  }

  /** The block mask ~(2 * size - 1) clears, and its complement keeps, the position in the block. */
  lemma {:induction false} BlockMasks(a: ReadArgs, x: u32)
    requires a.InRange()
    ensures And(x, Not32(a.BlockBytes() - 1)) == x - x % a.BlockBytes()
    ensures And(x, Not32(Not32(a.BlockBytes() - 1))) == x % a.BlockBytes()
  {
    var k := PowerOfTwoExponent(a.blockSize);
    assert Pow2(k + 1) == a.BlockBytes();
    MasksByExponent(x, a.BlockBytes(), k + 1);
  }

  lemma {:induction false} MasksByExponent(x: u32, n: u32, k: nat)
    requires n == Pow2(k)
    ensures And(x, Not32(n - 1)) == x - x % n
    ensures And(x, Not32(Not32(n - 1))) == x % n
  {
    Pow2Values();
    Pow2Mono(k, 32);
    AndHighMask(x, 32, k);
    AndLowMask(x, k);
    assert Not32(n - 1) == Pow2(32) - Pow2(k) && Not32(Not32(n - 1)) == Pow2(k) - 1;
  }

  /** A block starts at a multiple of 8. */
  lemma {:induction false} BlockAddrAligned(a: ReadArgs)
    requires a.InRange()
    ensures BlockAddr(a) % 8 == 0
    ensures a.BlockBytes() % 8 == 0
  {
    BlockSizeAligned(a);
    AlignedSum(a, a.blockSize / 4);
  }

  lemma {:induction false} AlignedSum(a: ReadArgs, m: nat)
    requires a.blockSize == 4 * m
    ensures BlockAddr(a) % 8 == 0
    ensures a.BlockBytes() % 8 == 0
  {
    var x, c := BlockOffset(a), ChannelAddr(a);
    TimesEight(a.blockNr, m);
    W32Mod8(x);
    SumMod8(DDR3, W32(x), c);
    W32Mod8(DDR3 + W32(x) + c);
    DivModUnique(a.BlockBytes(), m, 0, 8);
  }

  lemma {:induction false} BlockSizeAligned(a: ReadArgs)
    requires a.InRange()
    ensures a.blockSize == 4 * (a.blockSize / 4)
  {
    var k := PowerOfTwoExponent(a.blockSize);
    assert Pow2(0) == 1 && Pow2(1) == 2;
    var m := Pow2(k - 2);
    assert a.blockSize == 4 * m;
  }

  lemma {:induction false} SumMod8(x: nat, y: nat, z: nat)
    requires x % 8 == 0 && y % 8 == 0 && z % 8 == 0
    ensures (x + y + z) % 8 == 0
  {
  }

  lemma {:induction false} TimesEight(x: nat, m: nat)
    ensures (x * (4 * m) * 2) % 8 == 0
  {
    assert x * (4 * m) * 2 == (x * m) * 8;
    DivModUnique(x * (4 * m) * 2, x * m, 0, 8);
  }

  lemma {:induction false} W32Mod8(x: nat)
    ensures W32(x) % 8 == x % 8
  {
    var q := x / 0x1_0000_0000;
    assert x == W32(x) + (q * 0x2000_0000) * 8;
    AddMultiple(W32(x), q * 0x2000_0000, 8);
  }

  // ----- What the read delivers ----------------------------------------------------------------

  datatype Branch = NoRollover | OverFull | TwoSegments

  /** Which of the three branches a request takes. */
  function BranchOf(a: ReadArgs): Branch
    requires a.InBlock()
  {
    if a.First() + a.count < a.BlockBytes() then NoRollover
    else if a.count / 2 > a.blockSize then OverFull
    else TwoSegments
  }

  /** Bytes by which the start is past a multiple of 8. */
  function Offset(a: ReadArgs): nat {
    (a.address % 4) * 2
  }

  function Overread(a: ReadArgs): nat {
    if Offset(a) == 0 then 0 else 8
  }

  /** Length of the transfer of the first branch. */
  function DirectLength(a: ReadArgs): nat {
    var o := if Align8(a.count) + Overread(a) < a.count then Overread(a) + 8 else Overread(a);
    if a.count < 8 then 16 else Align8(a.count) + o
  }

  /** Bytes up to the end of the block, and length of the transfer that fetches them. */
  function HeadBytes(a: ReadArgs): nat
    requires a.InBlock()
  {
    a.BlockBytes() - a.First()
  }

  function HeadLength(a: ReadArgs): nat
    requires a.InBlock()
  {
    Align8(HeadBytes(a)) + Overread(a)
  }

  /** The rest, from the start of the block, and the length of its transfer. */
  function TailBytes(a: ReadArgs): nat
    requires a.InBlock() && BranchOf(a) == TwoSegments
  {
    a.count - HeadBytes(a)
  }

  function TailLength(a: ReadArgs): nat
    requires a.InBlock() && BranchOf(a) == TwoSegments
  {
    var l := Align8(TailBytes(a)) + Overread(a);
    if l < 8 then 16 else l
  }

  /** Device address of the first byte, rounded down to a multiple of 8. */
  function StartAddr(a: ReadArgs, base: u32): u32 {
    Align8(W32(base + a.First()))
  }

  /** The driver buffer after a transfer of len bytes from addr, after taken bytes of the stream. */
  function AfterDma(src: Source, stale: seq<u8>, addr: u32, taken: nat, len: nat): (b: seq<u8>)
    ensures |b| == |stale|
  {
    seq(|stale|, i requires 0 <= i < |stale| => ByteAfter(src, stale, addr, taken, len, i))
  }

  function ByteAfter(src: Source, stale: seq<u8>, addr: u32, taken: nat, len: nat, i: nat): u8
    requires i < |stale|
  {
    if i < len then src.At(addr, taken, i) else stale[i]
  }

  /** How many bytes the read delivers: at most the block. */
  function Delivered(a: ReadArgs): nat
    requires a.InBlock()
  {
    if BranchOf(a) == OverFull then a.BlockBytes() else a.count
  }

  /** Byte k that the read delivers, given the device address of the block and what the driver
      buffer held before. */
  function DeliveredByte(a: ReadArgs, base: u32, src: Source, stale: seq<u8>, k: nat): u8
    requires a.InBlock() && |stale| == DRIVER_BUFFER && k < Delivered(a)
  {
    var i := SourceIndex(a, k);
    if i >= DRIVER_BUFFER then 0
    else
      match BranchOf(a)
      case NoRollover => AfterDma(src, stale, StartAddr(a, base), 0, DirectLength(a))[i]
      case OverFull => AfterDma(src, stale, base, 0, Align8(a.count) + Overread(a))[i]
      case TwoSegments =>
        var first := AfterDma(src, stale, StartAddr(a, base), 0, HeadLength(a));
        if k < HeadBytes(a) then first[i]
        else AfterDma(src, first, base, HeadLength(a), TailLength(a))[i]
  }

  /** The place in the driver buffer that byte k is copied from. */
  function SourceIndex(a: ReadArgs, k: nat): nat
    requires a.InBlock() && k < Delivered(a)
  {
    match BranchOf(a)
    case NoRollover => Offset(a) + k
    case OverFull => if k < HeadBytes(a) then a.First() + k else k - HeadBytes(a)
    case TwoSegments => if k < HeadBytes(a) then k else k - HeadBytes(a)
  }

  /** What the request asks for: the block, read around its end. */
  function RequestedByte(a: ReadArgs, base: u32, mem: Memory, k: nat): u8
    requires a.InBlock()
  {
    mem(W32(base + (a.First() + k) % a.BlockBytes()))
  }

  // ----- When it delivers the block -----------------------------------------------------------------

  /** The test on the request: an unaligned start must not push the data past the transfer, a read
      across the end of the block must start aligned, and what is read after the wrap must be a
      multiple of 8 bytes, or less than 8. */
  predicate Deliverable(a: ReadArgs)
    requires a.InBlock()
  {
    match BranchOf(a)
    case NoRollover => a.count < 8 || Offset(a) == 0 || Offset(a) + a.count % 8 <= 8
    case OverFull => true
    case TwoSegments => Offset(a) == 0 && (TailBytes(a) < 8 || TailBytes(a) % 8 == 0)
  }

  /** The bounds that the driver itself checks; a request outside them is refused. */
  predicate FitsBuffer(a: ReadArgs)
    requires a.InBlock()
  {
    && a.count <= DRIVER_BUFFER
    && match BranchOf(a)
       case NoRollover =>
         DirectLength(a) <= DRIVER_BUFFER && (a.count > 0 ==> Offset(a) + a.count <= DRIVER_BUFFER)
       case OverFull => Align8(a.count) + Overread(a) <= DRIVER_BUFFER
       case TwoSegments =>
         HeadLength(a) <= DRIVER_BUFFER && (TailBytes(a) > 0 ==> TailLength(a) <= DRIVER_BUFFER)
  }

  /** In numbers: 16 bytes less than the buffer always fit, whole words from an aligned start up to the buffer
      itself, and more never. */
  lemma {:induction false} FitsInNumbers(a: ReadArgs)
    requires a.InRange()
    ensures a.count <= 0xF_FFF0 ==> FitsBuffer(a)
    ensures a.count <= 0x10_0000 && a.count % 8 == 0 && a.address % 4 == 0 ==> FitsBuffer(a)
    ensures a.count > 0x10_0000 ==> !FitsBuffer(a)
  {
    BlockAddrAligned(a);
    StartOffset(a, 0);
  }

  lemma {:induction false} SourceInBuffer(a: ReadArgs, k: nat)
    requires a.InBlock() && FitsBuffer(a) && k < Delivered(a)
    ensures SourceIndex(a, k) < DRIVER_BUFFER
  {
  }

  /** The read delivers what was requested, whatever the device memory and the driver buffer hold. */
  ghost predicate AlwaysDelivers(a: ReadArgs, base: u32)
    requires a.InBlock()
  {
    forall mem: Memory, stale: seq<u8>, k: nat | |stale| == DRIVER_BUFFER && k < Delivered(a) ::
      DeliveredByte(a, base, Addressed(mem), stale, k) == RequestedByte(a, base, mem, k)
  }

  lemma {:induction false} StartOffset(a: ReadArgs, base: u32)
    requires a.InBlock() && base % 8 == 0 && a.BlockBytes() % 8 == 0
    ensures Offset(a) == a.First() % 8 && Offset(a) <= base + a.First()
    ensures StartAddr(a, base) == W32(base + a.First() - Offset(a)) == W32(base + a.First()) - Offset(a)
    ensures HeadBytes(a) % 8 == 0 <==> Offset(a) == 0
  {
    OffsetMod(a.address);
    AddMod8(base, a.First());
    AddMod8(a.BlockBytes() - a.First(), a.First());
    var x := base + a.First();
    W32Mod8(x);
    W32Minus(x, Offset(a));
  }

  lemma {:induction false} OffsetMod(x: nat)
    ensures (2 * x) % 8 == 2 * (x % 4)
  {
    DivModUnique(2 * x, x / 4, 2 * (x % 4), 8);
  }

  lemma {:induction false} AddMod8(x: nat, y: nat)
    ensures x % 8 == 0 ==> (x + y) % 8 == y % 8
    ensures (x + y) % 8 == 0 ==> (x % 8 == 0 <==> y % 8 == 0)
  {
  }

  lemma {:induction false} W32Minus(x: nat, o: nat)
    requires o <= W32(x) && o <= x
    ensures W32(x - o) == W32(x) - o
  {
  }

  /** A deliverable request delivers. */
  lemma {:induction false} Delivers(a: ReadArgs, base: u32, mem: Memory, stale: seq<u8>, k: nat)
    requires a.InBlock() && base % 8 == 0 && a.BlockBytes() % 8 == 0 && a.count <= DRIVER_BUFFER && Deliverable(a)
    requires |stale| == DRIVER_BUFFER && k < Delivered(a) && SourceIndex(a, k) < DRIVER_BUFFER
    ensures DeliveredByte(a, base, Addressed(mem), stale, k) == RequestedByte(a, base, mem, k)
  {
    match BranchOf(a) {
      case NoRollover => DirectDelivers(a, base, mem, stale, k);
      case OverFull => OverFullDelivers(a, base, mem, stale, k);
      case TwoSegments => SplitDelivers(a, base, mem, stale, k);
    }
  }

  lemma {:induction false} DirectDelivers(a: ReadArgs, base: u32, mem: Memory, stale: seq<u8>, k: nat)
    requires a.InBlock() && base % 8 == 0 && a.BlockBytes() % 8 == 0 && Deliverable(a) && BranchOf(a) == NoRollover
    requires |stale| == DRIVER_BUFFER && k < Delivered(a) && SourceIndex(a, k) < DRIVER_BUFFER
    ensures DeliveredByte(a, base, Addressed(mem), stale, k) == RequestedByte(a, base, mem, k)
  {
    StartOffset(a, base);
    DirectCovered(a.count, Offset(a), Overread(a), k);
    DirectByte(a, base, mem, stale, k);
    SameAddress(base, a.First(), Offset(a), k);
    SmallMod(a.First() + k, a.BlockBytes());
  }

  lemma {:induction false} DirectByte(a: ReadArgs, base: u32, mem: Memory, stale: seq<u8>, k: nat)
    requires a.InBlock() && BranchOf(a) == NoRollover && |stale| == DRIVER_BUFFER && k < a.count
    requires Offset(a) + k < DRIVER_BUFFER && Offset(a) + k < DirectLength(a)
    ensures DeliveredByte(a, base, Addressed(mem), stale, k) == mem(W32(StartAddr(a, base) + (Offset(a) + k)))
  {
    assert SourceIndex(a, k) == Offset(a) + k;
  }

  /** Stepping back to the aligned address and forward by the same offset changes nothing. */
  lemma {:induction false} SameAddress(base: nat, first: nat, offset: nat, k: nat)
    requires offset <= base + first
    ensures W32(W32(base + first - offset) + (offset + k)) == W32(base + (first + k))
  {
    W32Add(base + first - offset, offset + k);
  }

  /** The transfer of the first branch covers byte k of the copy. */
  lemma {:induction false} DirectCovered(count: u32, offset: nat, overread: nat, k: nat)
    requires k < count && offset < 8 && overread == (if offset == 0 then 0 else 8)
    requires count < 8 || offset == 0 || offset + count % 8 <= 8
    ensures offset + k
            < if count < 8 then 16
              else Align8(count) + (if Align8(count) + overread < count then overread + 8 else overread)
  {
  }

  lemma {:induction false} OverFullDelivers(a: ReadArgs, base: u32, mem: Memory, stale: seq<u8>, k: nat)
    requires a.InBlock() && base % 8 == 0 && a.BlockBytes() % 8 == 0 && BranchOf(a) == OverFull
    requires |stale| == DRIVER_BUFFER && k < Delivered(a) && SourceIndex(a, k) < DRIVER_BUFFER
    ensures DeliveredByte(a, base, Addressed(mem), stale, k) == RequestedByte(a, base, mem, k)
  {
    OverFullCovered(a);
    WrapIndex(a, k);
  }

  lemma {:induction false} SplitDelivers(a: ReadArgs, base: u32, mem: Memory, stale: seq<u8>, k: nat)
    requires a.InBlock() && base % 8 == 0 && a.BlockBytes() % 8 == 0 && Deliverable(a) && BranchOf(a) == TwoSegments
    requires |stale| == DRIVER_BUFFER && k < Delivered(a) && SourceIndex(a, k) < DRIVER_BUFFER
    ensures DeliveredByte(a, base, Addressed(mem), stale, k) == RequestedByte(a, base, mem, k)
  {
    StartOffset(a, base);
    SplitRequest(a, base, mem, k);
    if k < HeadBytes(a) {
      HeadByte(a, base, mem, stale, k);
    } else {
      TailByte(a, base, mem, stale, k);
    }
  }

  /** Byte k of the block lies after an aligned start, or after the start of the block. */
  lemma {:induction false} SplitRequest(a: ReadArgs, base: u32, mem: Memory, k: nat)
    requires a.InBlock() && k <= a.BlockBytes() && StartAddr(a, base) == W32(base + a.First())
    ensures RequestedByte(a, base, mem, k)
            == if k < HeadBytes(a) then mem(W32(StartAddr(a, base) + k)) else mem(W32(base + (k - HeadBytes(a))))
  {
    WrapIndex(a, k);
    RequestedAt(a, base, mem, k, if k < HeadBytes(a) then a.First() + k else k - HeadBytes(a));
    AlignedSame(base, a.First(), k);
  }

  lemma {:induction false} RequestedAt(a: ReadArgs, base: u32, mem: Memory, k: nat, i: nat)
    requires a.InBlock() && (a.First() + k) % a.BlockBytes() == i
    ensures RequestedByte(a, base, mem, k) == mem(W32(base + i))
  {
  }

  lemma {:induction false} AlignedSame(base: nat, first: nat, k: nat)
    ensures W32(W32(base + first) + k) == W32(base + (first + k))
  {
    W32Add(base + first, k);
  }

  lemma {:induction false} HeadByte(a: ReadArgs, base: u32, mem: Memory, stale: seq<u8>, k: nat)
    requires a.InBlock() && BranchOf(a) == TwoSegments && |stale| == DRIVER_BUFFER
    requires k < HeadBytes(a) && k < Delivered(a) && k < HeadLength(a) && k < DRIVER_BUFFER
    ensures DeliveredByte(a, base, Addressed(mem), stale, k) == mem(W32(StartAddr(a, base) + k))
  {
  }

  lemma {:induction false} TailByte(a: ReadArgs, base: u32, mem: Memory, stale: seq<u8>, k: nat)
    requires a.InBlock() && BranchOf(a) == TwoSegments && |stale| == DRIVER_BUFFER
    requires HeadBytes(a) <= k < Delivered(a) && k - HeadBytes(a) < TailLength(a) && k - HeadBytes(a) < DRIVER_BUFFER
    ensures DeliveredByte(a, base, Addressed(mem), stale, k) == mem(W32(base + (k - HeadBytes(a))))
  {
  }

  lemma {:induction false} WrapIndex(a: ReadArgs, k: nat)
    requires a.InBlock() && k <= a.BlockBytes()
    ensures (a.First() + k) % a.BlockBytes()
            == if k < HeadBytes(a) then a.First() + k else k - HeadBytes(a)
  {
    if k < HeadBytes(a) {
      SmallMod(a.First() + k, a.BlockBytes());
    } else {
      DivModUnique(a.First() + k, 1, k - HeadBytes(a), a.BlockBytes());
    }
  }

  lemma {:induction false} OverFullCovered(a: ReadArgs)
    requires a.InBlock() && BranchOf(a) == OverFull && a.BlockBytes() % 8 == 0
    ensures Align8(a.count) >= a.BlockBytes()
  {
    AlignKeepsBound(a.count, a.BlockBytes());
  }

  lemma {:induction false} AlignKeepsBound(x: u32, n: nat)
    requires n <= x && n % 8 == 0
    ensures n <= Align8(x)
  {
  }

  /** A memory that is 1 at one address and 0 elsewhere tells two addresses apart. */
  function Marker(addr: u32): Memory {
    x => if x == addr then 1 else 0
  }

  function Filled(b: u8): (s: seq<u8>)
    ensures |s| == DRIVER_BUFFER
  {
    seq(DRIVER_BUFFER, _ => b)
  }

  /** The unaligned start pushes the last byte past the transfer: it is stale. */
  lemma {:induction false} DirectStale(a: ReadArgs, base: u32)
    requires a.InBlock() && FitsBuffer(a) && BranchOf(a) == NoRollover && !Deliverable(a)
    ensures !AlwaysDelivers(a, base)
  {
    var k := a.count - 1;
    var mem: Memory := _ => 0;
    assert a.count == Align8(a.count) + a.count % 8;
    assert DeliveredByte(a, base, Addressed(mem), Filled(1), k) == 1;
    assert RequestedByte(a, base, mem, k) == 0;
  }

  /** The first byte of a split read comes from the aligned start address. */
  lemma {:induction false} FirstOfSplit(a: ReadArgs, base: u32, mem: Memory, stale: seq<u8>)
    requires a.InBlock() && BranchOf(a) == TwoSegments && Offset(a) != 0 && |stale| == DRIVER_BUFFER
    ensures DeliveredByte(a, base, Addressed(mem), stale, 0) == mem(StartAddr(a, base))
  {
    var addr := StartAddr(a, base);
    W32Fits(addr);
    assert SourceIndex(a, 0) == 0 && HeadLength(a) > 0;
    assert AfterDma(Addressed(mem), stale, addr, 0, HeadLength(a))[0] == mem(W32(addr + 0));
  }

  lemma {:induction false} FirstRequested(a: ReadArgs, base: u32, mem: Memory)
    requires a.InBlock()
    ensures RequestedByte(a, base, mem, 0) == mem(W32(base + a.First()))
  {
    SmallMod(a.First(), a.BlockBytes());
  }

  /** Distinct bytes tell a delivery apart. */
  lemma {:induction false} FirstByteTells(a: ReadArgs, base: u32)
    requires a.InBlock() && BranchOf(a) == TwoSegments && Offset(a) != 0
    requires StartAddr(a, base) != W32(base + a.First())
    ensures !AlwaysDelivers(a, base)
  {
    var wanted := W32(base + a.First());
    var mem := Marker(wanted);
    FirstOfSplit(a, base, mem, Filled(0));
    FirstRequested(a, base, mem);
    Tells(a, base, mem, Filled(0), 0);
  }

  /** A split read from an unaligned start delivers an earlier byte first. */
  lemma {:induction false} SplitShifted(a: ReadArgs, base: u32)
    requires a.InBlock() && base % 8 == 0 && a.BlockBytes() % 8 == 0
    requires BranchOf(a) == TwoSegments && Offset(a) != 0
    ensures !AlwaysDelivers(a, base)
  {
    StartOffset(a, base);
    FirstByteTells(a, base);
  }

  /** A split read from an aligned start whose rest is ragged. */
  predicate RaggedRest(a: ReadArgs)
    requires a.InBlock()
  {
    FitsBuffer(a) && BranchOf(a) == TwoSegments && Offset(a) == 0 && TailBytes(a) >= 8 && TailBytes(a) % 8 != 0
  }

  /** It leaves the last bytes as the first transfer, or an earlier one, left them. */
  lemma {:induction false} SplitStale(a: ReadArgs, base: u32)
    requires a.InBlock() && base % 8 == 0 && a.BlockBytes() % 8 == 0 && RaggedRest(a)
    ensures !AlwaysDelivers(a, base)
  {
    StartOffset(a, base);
    LastByteTells(a, base);
  }

  lemma {:induction false} LastByteTells(a: ReadArgs, base: u32)
    requires a.InBlock() && RaggedRest(a) && StartAddr(a, base) == W32(base + a.First())
    ensures !AlwaysDelivers(a, base)
  {
    var mem := Marker(W32(base + (TailBytes(a) - 1)));
    LastOfSplit(a, base, mem);
    LastRequested(a, base, mem);
    LastBytesDiffer(a, base, mem);
    Tells(a, base, mem, Filled(0), a.count - 1);
  }

  lemma {:induction false} LastBytesDiffer(a: ReadArgs, base: u32, mem: Memory)
    requires a.InBlock() && RaggedRest(a) && StartAddr(a, base) == W32(base + a.First())
    requires mem == Marker(W32(base + (TailBytes(a) - 1)))
    ensures LastByte(a, base, mem) == 0 && mem(W32(base + (TailBytes(a) - 1))) == 1
  {
    var j := TailBytes(a) - 1;
    DifferentPlaces(a, base, j);
    MarkedOnly(W32(base + j), W32(StartAddr(a, base) + j));
  }

  lemma {:induction false} DifferentPlaces(a: ReadArgs, base: u32, j: nat)
    requires a.InBlock() && RaggedRest(a) && StartAddr(a, base) == W32(base + a.First())
    ensures W32(StartAddr(a, base) + j) != W32(base + j)
  {
    OtherAddress(base, a.First(), j);
  }

  lemma {:induction false} MarkedOnly(x: u32, y: u32)
    ensures Marker(x)(x) == 1 && (x != y ==> Marker(x)(y) == 0)
  {
  }

  lemma {:induction false} Tells(a: ReadArgs, base: u32, mem: Memory, stale: seq<u8>, k: nat)
    requires a.InBlock() && |stale| == DRIVER_BUFFER && k < Delivered(a)
    requires DeliveredByte(a, base, Addressed(mem), stale, k) != RequestedByte(a, base, mem, k)
    ensures !AlwaysDelivers(a, base)
  {
  }

  lemma {:induction false} LastRequested(a: ReadArgs, base: u32, mem: Memory)
    requires a.InBlock() && BranchOf(a) == TwoSegments && TailBytes(a) > 0
    ensures RequestedByte(a, base, mem, a.count - 1) == mem(W32(base + (TailBytes(a) - 1)))
  {
    WrapIndex(a, a.count - 1);
  }

  function LastByte(a: ReadArgs, base: u32, mem: Memory): u8
    requires a.InBlock() && RaggedRest(a)
  {
    var j := TailBytes(a) - 1;
    if j < HeadLength(a) then mem(W32(StartAddr(a, base) + j)) else 0
  }

  /** The last byte of such a read is the byte of the first segment in the same place, or stale. */
  lemma {:induction false} LastOfSplit(a: ReadArgs, base: u32, mem: Memory)
    requires a.InBlock() && RaggedRest(a)
    ensures DeliveredByte(a, base, Addressed(mem), Filled(0), a.count - 1) == LastByte(a, base, mem)
  {
    var j := TailBytes(a) - 1;
    assert SourceIndex(a, a.count - 1) == j && TailLength(a) <= j < DRIVER_BUFFER;
  }

  lemma {:induction false} OtherAddress(base: nat, d: nat, j: nat)
    requires 0 < d < TWO32
    ensures W32(W32(base + d) + j) != W32(base + j)
  {
    W32Add(base + d, j);
    DistinctWords(base + j, d);
  }

  lemma {:induction false} DistinctWords(x: nat, d: nat)
    requires 0 < d < TWO32
    ensures W32(x + d) != W32(x)
  {
  }

  /** The circular read from a channel with addresses, exactly. A request in the documented range that the
      driver does not refuse delivers the requested bytes of the block, for every device memory and every
      old content of the driver buffer, if and only if it passes the test Deliverable. */
  lemma {:induction false} CircularReadExact(a: ReadArgs)
    requires a.InRange() && FitsBuffer(a)
    ensures AlwaysDelivers(a, BlockAddr(a)) <==> Deliverable(a)
  {
    BlockAddrAligned(a);
    var base := BlockAddr(a);
    if Deliverable(a) {
      forall mem: Memory, stale: seq<u8>, k: nat | |stale| == DRIVER_BUFFER && k < Delivered(a)
        ensures DeliveredByte(a, base, Addressed(mem), stale, k) == RequestedByte(a, base, mem, k)
      {
        SourceInBuffer(a, k);
        Delivers(a, base, mem, stale, k);
      }
    } else {
      match BranchOf(a)
      case NoRollover => DirectStale(a, base);
      case OverFull =>
      case TwoSegments =>
        if Offset(a) != 0 {
          SplitShifted(a, base);
        } else {
          SplitStale(a, base);
        }
    }
  }

  /** A request in range that is not refused and not delivered: 15 bytes from entry 1 of a block of
      1024 entries. */
  lemma {:induction false} UndeliverableRead() returns (a: ReadArgs)
    ensures a.InRange() && FitsBuffer(a) && BranchOf(a) == NoRollover && !AlwaysDelivers(a, BlockAddr(a))
  {
    a := ReadArgs(1, 0, 0, false, 1024, 0, 15);
    PowersOfTwo(10);
    assert Pow2(5) == 32;
    Pow2Add(5, 5);
    CircularReadExact(a);
  }

  // ----- Where the bytes come from -----------------------------------------------------------------------------

  /** The device memory of an input: four regions of 256 MiB, or eight of 128 MiB with the second multiplexer. An
      input that does not exist counts as input 0. */
  function RegionSize(a: ReadArgs): nat {
    if a.mux8 then 0x800_0000 else 0x1000_0000
  }

  function Region(a: ReadArgs): nat {
    if a.input < (if a.mux8 then 8 else 4) then a.input else 0
  }

  /** The device address of byte k of the block, from the requested start on and around its end. */
  function Place(a: ReadArgs, k: nat): u32
    requires a.blockSize > 0
  {
    W32(0x4000_0000 + Region(a) * RegionSize(a) + 2 * a.blockSize * a.blockNr
        + (2 * a.address + k) % (2 * a.blockSize))
  }

  lemma {:induction false} ChannelRegion(a: ReadArgs)
    ensures ChannelAddr(a) == Region(a) * RegionSize(a)
  {
  }

  /** What is requested is what lies at that place. */
  lemma {:induction false} RequestedPlace(a: ReadArgs, mem: Memory, k: nat)
    requires a.InBlock()
    ensures RequestedByte(a, BlockAddr(a), mem, k) == mem(Place(a, k))
  {
    var x, i := a.blockNr * a.blockSize * 2, (2 * a.address + k) % (2 * a.blockSize);
    ChannelRegion(a);
    assert x == 2 * a.blockSize * a.blockNr;
    BlockSum(x, ChannelAddr(a), i);
  }

  lemma {:induction false} BlockSum(x: nat, c: nat, i: nat)
    ensures W32(W32(0x4000_0000 + W32(x) + c) + i) == W32(0x4000_0000 + c + x + i)
  {
    W32Add(0x4000_0000 + W32(x) + c, i);
    W32Add(x, 0x4000_0000 + c + i);
  }

  /** So a deliverable request delivers the bytes from their places. */
  lemma {:induction false} DeliveredFrom(a: ReadArgs, mem: Memory, stale: seq<u8>, k: nat)
    requires a.InRange() && FitsBuffer(a) && Deliverable(a) && |stale| == DRIVER_BUFFER && k < Delivered(a)
    ensures DeliveredByte(a, BlockAddr(a), Addressed(mem), stale, k) == mem(Place(a, k))
  {
    CircularReadExact(a);
    RequestedPlace(a, mem, k);
  }

  /** The block lies in the region of its input. */
  predicate FitsRegion(a: ReadArgs)
    requires a.InBlock()
  {
    2 * a.blockSize * (a.blockNr + 1) <= RegionSize(a)
  }

  /** Blocks of one size and multiplexer that fit their regions, of different inputs or numbers, have no byte in
      common. */
  lemma {:induction false} BlocksDisjoint(a: ReadArgs, b: ReadArgs, j: nat, k: nat)
    requires a.InBlock() && b.InBlock() && FitsRegion(a) && FitsRegion(b)
    requires a.mux8 == b.mux8 && a.blockSize == b.blockSize && (Region(a) != Region(b) || a.blockNr != b.blockNr)
    ensures Place(a, j) != Place(b, k)
  {
    var n, r := 2 * a.blockSize, RegionSize(a);
    PlaceInRegion(a, j);
    PlaceInRegion(b, k);
    var x, y := n * a.blockNr + (2 * a.address + j) % n, n * b.blockNr + (2 * b.address + k) % n;
    if Region(a) == Region(b) {
      DifferentBlocks(n, a.blockNr, (2 * a.address + j) % n, b.blockNr, (2 * b.address + k) % n);
    } else {
      DifferentBlocks(r, Region(a), x, Region(b), y);
    }
  }

  lemma {:induction false} PlaceInRegion(a: ReadArgs, k: nat)
    requires a.InBlock() && FitsRegion(a)
    ensures var n := 2 * a.blockSize;
      var x := n * a.blockNr + (2 * a.address + k) % n;
      0 <= x < RegionSize(a) && Place(a, k) == 0x4000_0000 + Region(a) * RegionSize(a) + x
  {
    var n, i := 2 * a.blockSize, (2 * a.address + k) % (2 * a.blockSize);
    assert n * (a.blockNr + 1) == n * a.blockNr + n;
    MulMono(0, a.blockNr, n);
    W32Fits(0x4000_0000 + Region(a) * RegionSize(a) + n * a.blockNr + i);
  }

  lemma {:induction false} DifferentBlocks(n: nat, p: nat, x: nat, q: nat, y: nat)
    requires n > 0 && p != q && x < n && y < n
    ensures n * p + x != n * q + y
  {
    DivModUnique(n * p + x, p, x, n);
    DivModUnique(n * q + y, q, y, n);
  }

  /** The legacy read in numbers: how many bytes a request that is not refused delivers, and the tests that decide
      whether they are the right ones, from memory and from a stream. */
  lemma {:induction false} ReadInNumbers(a: ReadArgs)
    requires a.InRange()
    ensures var first, n, o := 2 * a.address, 2 * a.blockSize, 2 * (a.address % 4);
      && Delivered(a) == (if a.count >= n + 2 then n else a.count)
      && (Deliverable(a) <==>
            if first + a.count < n then a.count < 8 || o == 0 || o + a.count % 8 <= 8
            else a.count >= n + 2 || (o == 0 && (first + a.count < n + 8 || (first + a.count - n) % 8 == 0)))
      && (Streamable(a) <==>
            if first + a.count < n then a.count == 0 || o == 0
            else if a.count >= n + 2 then first == 0
            else first + a.count == n || (o == 0 && (first + a.count < n + 8 || (first + a.count - n) % 8 == 0)))
  {
  }

  /** The least multiple of 8 that is not below x, and the greatest that is not above. */
  function Up8(x: nat): nat {
    8 * CeilDiv(x, 8)
  }

  function Down8(x: nat): nat {
    x - x % 8
  }

  /** The lengths of the transfers. From an aligned start as many whole words are read as were asked for, rounded up
      in the first branch and down in the others; from any other start the whole words and one more; and 16 bytes
      for less than a word. */
  lemma {:induction false} LengthsInNumbers(a: ReadArgs)
    requires a.InRange()
    ensures var aligned := a.address % 4 == 0;
      && DirectLength(a) == (if a.count < 8 then 16 else if aligned then Up8(a.count) else Down8(a.count) + 8)
      && HeadLength(a) == Down8(HeadBytes(a)) + (if aligned then 0 else 8)
      && (BranchOf(a) == TwoSegments ==>
            TailLength(a) == if !aligned then Down8(TailBytes(a)) + 8
                             else if TailBytes(a) < 8 then 16 else Down8(TailBytes(a)))
  {
  }

  // ----- From a channel with a stream ---------------------------------------------------------------------

  /** From a channel that reads a stream, whose transfers ignore the block and its address, the read
      delivers the next bytes of the stream. */
  ghost predicate AlwaysStreams(a: ReadArgs)
    requires a.InBlock()
  {
    forall data: nat -> u8, stale: seq<u8>, k: nat | |stale| == DRIVER_BUFFER && k < Delivered(a) ::
      DeliveredByte(a, BlockAddr(a), Fifo(data), stale, k) == data(k)
  }

  /** The test: the start must be aligned, for more than the block it must be the start of the block, and
      what is read after the wrap must be a multiple of 8 bytes, or less than 8. */
  predicate Streamable(a: ReadArgs)
    requires a.InBlock()
  {
    match BranchOf(a)
    case NoRollover => a.count == 0 || Offset(a) == 0
    case OverFull => a.address == 0
    case TwoSegments => TailBytes(a) == 0 || (Offset(a) == 0 && (TailBytes(a) < 8 || TailBytes(a) % 8 == 0))
  }

  /** A stream whose byte at this position is 1, and 0 elsewhere. */
  function MarkedStream(pos: nat): nat -> u8 {
    x => if x == pos then 1 else 0
  }

  lemma {:induction false} HeadAligned(a: ReadArgs)
    requires a.InBlock() && a.BlockBytes() % 8 == 0
    ensures Offset(a) == 0 ==> HeadLength(a) == HeadBytes(a)
    ensures Offset(a) != 0 ==> HeadLength(a) > HeadBytes(a)
  {
    StartOffset(a, 0);
  }

  lemma {:induction false} Streams(a: ReadArgs, data: nat -> u8, stale: seq<u8>, k: nat)
    requires a.InBlock() && a.BlockBytes() % 8 == 0 && FitsBuffer(a) && Streamable(a)
    requires |stale| == DRIVER_BUFFER && k < Delivered(a)
    ensures DeliveredByte(a, BlockAddr(a), Fifo(data), stale, k) == data(k)
  {
    SourceInBuffer(a, k);
    HeadAligned(a);
    if BranchOf(a) == OverFull {
      OverFullCovered(a);
    }
  }

  /** Byte k of the stream lands in another place. */
  lemma {:induction false} StreamTells(a: ReadArgs, k: nat)
    requires a.InBlock() && k < Delivered(a)
    requires DeliveredByte(a, BlockAddr(a), Fifo(MarkedStream(k)), Filled(0), k) == 0
    ensures !AlwaysStreams(a)
  {
    assert MarkedStream(k)(k) == 1;
  }

  lemma {:induction false} StreamShifted(a: ReadArgs)
    requires a.InBlock() && a.BlockBytes() % 8 == 0 && FitsBuffer(a) && !Streamable(a)
    ensures !AlwaysStreams(a)
  {
    HeadAligned(a);
    match BranchOf(a) {
      case NoRollover => DirectShifted(a);
      case OverFull => OverFullShifted(a);
      case TwoSegments =>
        if Offset(a) != 0 {
          TailShifted(a);
        } else {
          TailShort(a);
        }
    }
  }

  lemma {:induction false} DirectShifted(a: ReadArgs)
    requires a.InBlock() && FitsBuffer(a) && BranchOf(a) == NoRollover && a.count > 0 && Offset(a) != 0
    ensures !AlwaysStreams(a)
  {
    SourceInBuffer(a, 0);
    assert SourceIndex(a, 0) == Offset(a);
    StreamTells(a, 0);
  }

  lemma {:induction false} OverFullShifted(a: ReadArgs)
    requires a.InBlock() && a.BlockBytes() % 8 == 0 && FitsBuffer(a) && BranchOf(a) == OverFull && a.address > 0
    ensures !AlwaysStreams(a)
  {
    SourceInBuffer(a, 0);
    OverFullCovered(a);
    assert SourceIndex(a, 0) == a.First();
    StreamTells(a, 0);
  }

  lemma {:induction false} TailShifted(a: ReadArgs)
    requires a.InBlock() && FitsBuffer(a) && BranchOf(a) == TwoSegments && TailBytes(a) > 0
    requires HeadLength(a) > HeadBytes(a)
    ensures !AlwaysStreams(a)
  {
    var k := HeadBytes(a);
    SourceInBuffer(a, k);
    assert SourceIndex(a, k) == 0 && TailLength(a) > 0;
    StreamTells(a, k);
  }

  lemma {:induction false} TailShort(a: ReadArgs)
    requires a.InBlock() && FitsBuffer(a) && BranchOf(a) == TwoSegments && Offset(a) == 0
    requires HeadLength(a) == HeadBytes(a) && TailBytes(a) >= 8 && TailBytes(a) % 8 != 0
    ensures !AlwaysStreams(a)
  {
    var k := a.count - 1;
    SourceInBuffer(a, k);
    assert SourceIndex(a, k) == TailBytes(a) - 1 >= TailLength(a);
    StreamTells(a, k);
  }

  /** The legacy read of a stream, exactly: a request in range that is not refused delivers the next bytes of
      the stream, for every stream and old buffer content, if and only if it passes the test. */
  lemma {:induction false} StreamReadExact(a: ReadArgs)
    requires a.InRange() && FitsBuffer(a)
    ensures AlwaysStreams(a) <==> Streamable(a)
  {
    BlockAddrAligned(a);
    if Streamable(a) {
      forall data: nat -> u8, stale: seq<u8>, k: nat | |stale| == DRIVER_BUFFER && k < Delivered(a)
        ensures DeliveredByte(a, BlockAddr(a), Fifo(data), stale, k) == data(k)
      {
        Streams(a, data, stale, k);
      }
    } else {
      StreamShifted(a);
    }
  }

  /** A request to channel 2 in range that is not refused and not delivered: 8 bytes from entry 1 of a block
      of 1024 entries. */
  lemma {:induction false} UnstreamableRead() returns (a: ReadArgs)
    ensures a.InRange() && FitsBuffer(a) && a.channel == 2 && !AlwaysStreams(a)
  {
    a := ReadArgs(1, 0, 2, false, 1024, 0, 8);
    PowersOfTwo(10);
    assert Pow2(5) == 32;
    Pow2Add(5, 5);
    StreamReadExact(a);
  }

  // ----- The driver's code ---------------------------------------------------------------------------

  datatype ReadResult = Ok | Invalid | DmaFailed

  /** read_kernel_dma_buffer: dmaOk is the outcome of the transfer itself. */
  method ReadKernelDmaBuffer(src: Source, buf: array<u8>, addr: u32, len: u32, channel: u32, taken: nat,
                             dmaOk: bool)
    returns (res: ReadResult)
    requires buf.Length == DRIVER_BUFFER && src.IsOf(channel)
    modifies buf
    ensures res == Ok <==> channel < 3 && len <= DRIVER_BUFFER && dmaOk
    ensures res == Invalid <==> channel >= 3 || len > DRIVER_BUFFER
    ensures res == Ok ==> buf[..] == AfterDma(src, old(buf[..]), addr, taken, len)
    ensures res != Ok ==> buf[..] == old(buf[..])
  {
    if channel >= 3 || len > DRIVER_BUFFER {
      return Invalid;
    }
    if !dmaOk {
      return DmaFailed;
    }
    forall i | 0 <= i < len {
      buf[i] := src.At(addr, taken, i);
    }
    res := Ok;
  }

  /** now is was with len bytes of buf, from place from, pasted in at place at. */
  ghost predicate Pasted(now: seq<u8>, was: seq<u8>, at: nat, buf: seq<u8>, from: nat, len: nat) {
    && |now| == |was| && (len > 0 ==> from + len <= |buf|)
    && forall k | 0 <= k < |now| ::
         now[k] == if at <= k < at + len && from + (k - at) < |buf| then buf[from + (k - at)] else was[k]
  }

  /** copy_kernel_dma_to_user */
  method CopyToUser(buf: array<u8>, dst: array<u8>, at: nat, from: nat, len: nat) returns (res: ReadResult)
    requires buf.Length == DRIVER_BUFFER && at + len <= dst.Length && buf != dst
    modifies dst
    ensures res == Ok <==> len == 0 || from + len <= DRIVER_BUFFER
    ensures res != Ok ==> res == Invalid && dst[..] == old(dst[..])
    ensures res == Ok ==> Pasted(dst[..], old(dst[..]), at, buf[..], from, len)
  {
    if len == 0 {
      return Ok;
    }
    if from > DRIVER_BUFFER || len > DRIVER_BUFFER - from {
      return Invalid;
    }
    forall k | at <= k < at + len {
      dst[k] := buf[from + (k - at)];
    }
    res := Ok;
  }

  /** read_kernel_dma_to_user */
  method ReadToUser(src: Source, buf: array<u8>, dst: array<u8>, at: nat, addr: u32, dmaLen: u32,
                    from: nat, len: nat, channel: u32, taken: nat, dmaOk: bool) returns (res: ReadResult)
    requires buf.Length == DRIVER_BUFFER && at + len <= dst.Length && buf != dst && src.IsOf(channel)
    modifies buf, dst
    ensures res == Ok <==> channel < 3 && dmaLen <= DRIVER_BUFFER && dmaOk && (len == 0 || from + len <= DRIVER_BUFFER)
    ensures res == Ok ==> buf[..] == AfterDma(src, old(buf[..]), addr, taken, dmaLen)
    ensures res == Ok ==> Pasted(dst[..], old(dst[..]), at, AfterDma(src, old(buf[..]), addr, taken, dmaLen), from, len)
  {
    res := ReadKernelDmaBuffer(src, buf, addr, dmaLen, channel, taken, dmaOk);
    if res != Ok {
      return;
    }
    res := CopyToUser(buf, dst, at, from, len);
  }

  /** The device address of the start, as the driver adds it up in 32 bits. */
  lemma {:induction false} StartSum(a: ReadArgs, pos: nat)
    ensures W32(W32(DDR3 + (pos + W32(BlockOffset(a)))) + ChannelAddr(a)) == W32(BlockAddr(a) + pos)
  {
    SumOrder(DDR3, pos, W32(BlockOffset(a)), ChannelAddr(a));
  }

  lemma {:induction false} SumOrder(d: nat, pos: nat, o: nat, c: nat)
    ensures W32(W32(d + (pos + o)) + c) == W32(W32(d + o + c) + pos)
  {
    W32Add(d + (pos + o), c);
    W32Add(d + o + c, pos);
    assert d + (pos + o) + c == d + o + c + pos;
  }

  lemma {:induction false} RolloverTest(a: ReadArgs)
    requires a.InRange() && a.count <= DRIVER_BUFFER
    ensures var mask := Not32(a.BlockBytes() - 1);
      && (And(a.First(), mask) == And(a.First() + a.count, mask) <==> BranchOf(a) == NoRollover)
      && And(a.First(), Not32(mask)) == a.First() && And(a.First(), mask) == 0
  {
    var x := a.First() + a.count;
    BlockMasks(a, a.First());
    BlockMasks(a, x);
    SmallMod(a.First(), a.BlockBytes());
    NoMultipleBelow(x, a.BlockBytes());
    assert BranchOf(a) == NoRollover <==> x < a.BlockBytes();
  }

  lemma {:induction false} NoMultipleBelow(x: nat, n: nat)
    requires n > 0
    ensures x - x % n == 0 <==> x < n
  {
    if x < n {
      SmallMod(x, n);
    }
  }

  /** The user's buffer holds the delivered bytes, and nothing else changed. */
  ghost predicate Stored(a: ReadArgs, src: Source, stale: seq<u8>, now: seq<u8>, was: seq<u8>)
    requires a.InBlock() && |stale| == DRIVER_BUFFER
  {
    && |now| == |was| && Delivered(a) <= |now|
    && (forall k | 0 <= k < Delivered(a) :: now[k] == DeliveredByte(a, BlockAddr(a), src, stale, k))
    && forall k | Delivered(a) <= k < |now| :: now[k] == was[k]
  }

  /** x & 0xFFFFFFF8 */
  method RoundDown8(x: u32) returns (r: u32)
    ensures r == Align8(x)
  {
    MaskAlign8(x);
    r := And(x, 0xFFFF_FFF8);
  }

  /** The position in the block, by the complement of the block mask. */
  method MaskedStart(a: ReadArgs, blockMask: u32) returns (pos: u32)
    requires a.InRange() && a.count <= DRIVER_BUFFER && blockMask == Not32(a.BlockBytes() - 1)
    ensures pos == a.First()
  {
    RolloverTest(a);
    pos := And(a.address * 2, Not32(blockMask));
  }

  /** dev_addr of the branches that start at the requested address. */
  method StartAddress(a: ReadArgs, pos: u32) returns (devAddr: u32)
    requires pos == a.First()
    ensures devAddr == StartAddr(a, BlockAddr(a))
  {
    StartSum(a, pos);
    devAddr := W32(DDR3 + (pos + W32(a.blockNr * a.blockSize * 2)));
    devAddr := W32(devAddr + ChannelAddr(a));
    devAddr := RoundDown8(devAddr);
  }

  /** dev_addr of the branches that start at the block. */
  method BlockAddress(a: ReadArgs) returns (devAddr: u32)
    requires a.InRange()
    ensures devAddr == BlockAddr(a) == Align8(devAddr)
  {
    devAddr := W32(DDR3 + W32(a.blockNr * a.blockSize * 2));
    W32Add(DDR3 + W32(BlockOffset(a)), ChannelAddr(a));
    devAddr := W32(devAddr + ChannelAddr(a));
    assert devAddr == BlockAddr(a);
    BlockAddrAligned(a);
  }

  /** The branch without a roll-over. */
  method ReadDirect(a: ReadArgs, src: Source, buf: array<u8>, dst: array<u8>, dma1: bool) returns (res: ReadResult)
    requires a.InRange() && buf.Length == DRIVER_BUFFER && buf != dst && a.count <= dst.Length
    requires BranchOf(a) == NoRollover && a.channel < 3 && src.IsOf(a.channel) && a.count <= DRIVER_BUFFER
    modifies buf, dst
    ensures res == Ok ==> Stored(a, src, old(buf[..]), dst[..], old(dst[..]))
    ensures res == Ok <==> FitsBuffer(a) && dma1
  {
    var offset := (a.address % 4) * 2;
    var overread := if offset == 0 then 0 else 8;
    var len := RoundDown8(a.count);
    if len + overread < a.count {
      overread := overread + 8;
    }
    var pos := MaskedStart(a, Not32(a.blockSize * 2 - 1));
    var devAddr := StartAddress(a, pos);
    var dmaLen := if a.count < 8 then 16 else len + overread;
    assert dmaLen == DirectLength(a);
    res := ReadToUser(src, buf, dst, 0, devAddr, dmaLen, offset, a.count, a.channel, 0, dma1);
    if res == Ok {
      DirectStored(a, src, old(buf[..]), dst[..], old(dst[..]));
    }
  }

  lemma {:induction false} DirectStored(a: ReadArgs, src: Source, stale: seq<u8>, now: seq<u8>, was: seq<u8>)
    requires a.InBlock() && BranchOf(a) == NoRollover && |stale| == DRIVER_BUFFER && a.count <= |was|
    requires Pasted(now, was, 0, AfterDma(src, stale, StartAddr(a, BlockAddr(a)), 0, DirectLength(a)),
                    Offset(a), a.count)
    ensures Stored(a, src, stale, now, was)
  {
  }

  /** The branch for more than the whole block. */
  method ReadOverFull(a: ReadArgs, src: Source, buf: array<u8>, dst: array<u8>, dma1: bool) returns (res: ReadResult)
    requires a.InRange() && buf.Length == DRIVER_BUFFER && buf != dst && a.count <= dst.Length
    requires BranchOf(a) == OverFull && a.channel < 3 && src.IsOf(a.channel) && a.count <= DRIVER_BUFFER
    modifies buf, dst
    ensures res == Ok ==> Stored(a, src, old(buf[..]), dst[..], old(dst[..]))
    ensures res == Ok <==> FitsBuffer(a) && dma1
  {
    var offset := (a.address % 4) * 2;
    var overread := if offset == 0 then 0 else 8;
    var devAddr := BlockAddress(a);
    var addr := RoundDown8(devAddr);
    var len := RoundDown8(a.count);
    res := ReadKernelDmaBuffer(src, buf, addr, len + overread, a.channel, 0, dma1);
    if res == Ok {
      res := CopyAround(a, src, old(buf[..]), buf, dst);
    }
  }

  /** The two copies of that branch. */
  method CopyAround(a: ReadArgs, ghost src: Source, ghost stale: seq<u8>, buf: array<u8>, dst: array<u8>)
    returns (res: ReadResult)
    requires a.InBlock() && buf.Length == DRIVER_BUFFER == |stale| && buf != dst && a.count <= dst.Length
    requires BranchOf(a) == OverFull && a.count <= DRIVER_BUFFER
    requires buf[..] == AfterDma(src, stale, BlockAddr(a), 0, Align8(a.count) + Overread(a))
    modifies dst
    ensures res == Ok && Stored(a, src, stale, dst[..], old(dst[..]))
  {
    var head := (a.blockSize - a.address) * 2;
    res := CopyToUser(buf, dst, 0, a.address * 2, head);
    ghost var half := dst[..];
    res := CopyToUser(buf, dst, head, 0, a.address * 2);
    OverFullStored(a, src, stale, dst[..], half, old(dst[..]));
  }

  lemma {:induction false} OverFullStored(a: ReadArgs, src: Source, stale: seq<u8>, now: seq<u8>,
                                          half: seq<u8>, was: seq<u8>)
    requires a.InBlock() && BranchOf(a) == OverFull && |stale| == DRIVER_BUFFER && a.count <= |was|
    requires var b := AfterDma(src, stale, BlockAddr(a), 0, Align8(a.count) + Overread(a));
      Pasted(half, was, 0, b, a.First(), HeadBytes(a)) && Pasted(now, half, HeadBytes(a), b, 0, a.First())
    ensures Stored(a, src, stale, now, was)
  {
  }

  /** The branch that reads in two segments. */
  method ReadSplit(a: ReadArgs, src: Source, buf: array<u8>, dst: array<u8>, dma1: bool, dma2: bool)
    returns (res: ReadResult)
    requires a.InRange() && buf.Length == DRIVER_BUFFER && buf != dst && a.count <= dst.Length
    requires BranchOf(a) == TwoSegments && a.channel < 3 && src.IsOf(a.channel) && a.count <= DRIVER_BUFFER
    modifies buf, dst
    ensures res == Ok ==> Stored(a, src, old(buf[..]), dst[..], old(dst[..]))
    ensures res == Ok <==> FitsBuffer(a) && dma1 && (TailBytes(a) > 0 ==> dma2)
  {
    var blockMask := Not32(a.blockSize * 2 - 1);
    var lcount := SplitPoint(a, blockMask);
    var pos := MaskedStart(a, blockMask);
    var devAddr := StartAddress(a, pos);
    var blockAddr := BlockAddress(a);
    res := ReadHead(a, src, buf, dst, devAddr, lcount, dma1);
    if res == Ok {
      res := ReadTail(a, src, buf, dst, blockAddr, lcount, dma2, old(buf[..]), old(dst[..]));
    }
  }

  /** lcount, the bytes up to the end of the block. */
  method SplitPoint(a: ReadArgs, blockMask: u32) returns (lcount: nat)
    requires a.InRange() && a.count <= DRIVER_BUFFER && blockMask == Not32(a.BlockBytes() - 1)
    ensures lcount == HeadBytes(a)
  {
    RolloverTest(a);
    var maskedAddr := And(a.address * 2, Not32(blockMask));
    var blockStart := And(maskedAddr, blockMask);
    var blockEnd := blockStart + a.blockSize * 2;
    lcount := blockEnd - maskedAddr;
  }

  /** The first segment. There is always one: the start lies in the block. */
  method ReadHead(a: ReadArgs, src: Source, buf: array<u8>, dst: array<u8>, devAddr: u32, lcount: u32, dma1: bool)
    returns (res: ReadResult)
    requires a.InBlock() && buf.Length == DRIVER_BUFFER && buf != dst && a.count <= dst.Length
    requires BranchOf(a) == TwoSegments && a.channel < 3 && src.IsOf(a.channel) && a.count <= DRIVER_BUFFER
    requires devAddr == StartAddr(a, BlockAddr(a)) && lcount == HeadBytes(a)
    modifies buf, dst
    ensures res == Ok <==> HeadLength(a) <= DRIVER_BUFFER && dma1
    ensures res == Ok ==> buf[..] == AfterDma(src, old(buf[..]), devAddr, 0, HeadLength(a))
    ensures res == Ok ==> Pasted(dst[..], old(dst[..]), 0, buf[..], 0, lcount)
  {
    var overread := if (a.address % 4) * 2 == 0 then 0 else 8;
    var len := RoundDown8(lcount);
    res := ReadToUser(src, buf, dst, 0, devAddr, len + overread, 0, lcount, a.channel, 0, dma1);
  }

  /** The second segment, from the start of the block; empty if the read ends with the block. */
  method ReadTail(a: ReadArgs, src: Source, buf: array<u8>, dst: array<u8>, blockAddr: u32, lcount: nat, dma2: bool,
                  ghost stale: seq<u8>, ghost was: seq<u8>)
    returns (res: ReadResult)
    requires a.InBlock() && buf.Length == DRIVER_BUFFER == |stale| && buf != dst && a.count <= dst.Length
    requires BranchOf(a) == TwoSegments && a.channel < 3 && src.IsOf(a.channel) && a.count <= DRIVER_BUFFER
    requires blockAddr == BlockAddr(a) && lcount == HeadBytes(a)
    requires buf[..] == AfterDma(src, stale, StartAddr(a, BlockAddr(a)), 0, HeadLength(a))
    requires Pasted(dst[..], was, 0, buf[..], 0, lcount)
    modifies buf, dst
    ensures res == Ok ==> Stored(a, src, stale, dst[..], was)
    ensures res == Ok <==> TailBytes(a) > 0 ==> TailLength(a) <= DRIVER_BUFFER && dma2
  {
    ghost var first, half := buf[..], dst[..];
    var lcount2 := a.count - lcount;
    res := Ok;
    if lcount2 > 0 {
      var overread := if (a.address % 4) * 2 == 0 then 0 else 8;
      var tail := RoundDown8(lcount2);
      tail := tail + overread;
      res := ReadToUser(src, buf, dst, lcount, blockAddr, if tail < 8 then 16 else tail, 0, lcount2, a.channel,
                        HeadLength(a), dma2);
    }
    if res == Ok {
      SplitStored(a, src, stale, first, dst[..], half, was);
    }
  }

  lemma {:induction false} SplitStored(a: ReadArgs, src: Source, stale: seq<u8>, first: seq<u8>,
                                       now: seq<u8>, half: seq<u8>, was: seq<u8>)
    requires a.InBlock() && BranchOf(a) == TwoSegments && |stale| == DRIVER_BUFFER && a.count <= |was|
    requires first == AfterDma(src, stale, StartAddr(a, BlockAddr(a)), 0, HeadLength(a))
    requires Pasted(half, was, 0, first, 0, HeadBytes(a))
    requires if TailBytes(a) == 0 then now == half
             else Pasted(now, half, HeadBytes(a), AfterDma(src, first, BlockAddr(a), HeadLength(a), TailLength(a)),
                         0, TailBytes(a))
    ensures Stored(a, src, stale, now, was)
  {
  }

  /** ioc_dma_read_request_a for read stride 1. dma1 and dma2 are the outcomes of its transfers. On
      success the user's buffer holds the bytes of DeliveredByte, and nothing else changed. */
  method ReadRequestA(a: ReadArgs, src: Source, buf: array<u8>, dst: array<u8>, dma1: bool, dma2: bool)
    returns (res: ReadResult)
    requires a.InRange() && buf.Length == DRIVER_BUFFER && buf != dst && a.count <= dst.Length && src.IsOf(a.channel)
    modifies buf, dst
    ensures !FitsBuffer(a) ==> res != Ok
    ensures res == Ok ==> Stored(a, src, old(buf[..]), dst[..], old(dst[..]))
    ensures res == Ok && a.channel != 2 && Deliverable(a) ==>
              src.Addressed? && forall k | 0 <= k < Delivered(a) :: dst[k] == src.mem(Place(a, k))
    ensures res == Ok && a.channel == 2 && Streamable(a) ==>
              src.Fifo? && forall k | 0 <= k < Delivered(a) :: dst[k] == src.data(k)
    ensures FitsBuffer(a) && a.channel < 3 && dma1 && dma2 ==> res == Ok
    ensures a.channel >= 3 || a.count > DRIVER_BUFFER ==>
              res == Invalid && buf[..] == old(buf[..]) && dst[..] == old(dst[..])
  {
    ghost var stale, was := buf[..], dst[..];
    if a.channel >= 3 || a.count > DRIVER_BUFFER {
      return Invalid;
    }
    var blockMask := Not32(a.blockSize * 2 - 1);
    var a1 := And(a.address * 2, blockMask);
    var a2 := And(a.address * 2 + a.count, blockMask);
    RolloverTest(a);
    if a1 == a2 {
      res := ReadDirect(a, src, buf, dst, dma1);
    } else if a.count / 2 > a.blockSize {
      res := ReadOverFull(a, src, buf, dst, dma1);
    } else {
      res := ReadSplit(a, src, buf, dst, dma1, dma2);
    }
    if res == Ok {
      StoredFrom(a, src, stale, dst[..], was);
    }
  }

  /** What is stored is what was asked for, if the request passes the test of its source. */
  lemma {:induction false} StoredFrom(a: ReadArgs, src: Source, stale: seq<u8>, now: seq<u8>, was: seq<u8>)
    requires a.InRange() && FitsBuffer(a) && |stale| == DRIVER_BUFFER && Stored(a, src, stale, now, was)
    ensures src.Addressed? && Deliverable(a) ==> forall k | 0 <= k < Delivered(a) :: now[k] == src.mem(Place(a, k))
    ensures src.Fifo? && Streamable(a) ==> forall k | 0 <= k < Delivered(a) :: now[k] == src.data(k)
  {
    if src.Addressed? && Deliverable(a) {
      forall k | 0 <= k < Delivered(a) ensures now[k] == src.mem(Place(a, k)) {
        DeliveredFrom(a, src.mem, stale, k);
      }
    }
    if src.Fifo? && Streamable(a) {
      forall k | 0 <= k < Delivered(a) ensures now[k] == src.data(k) {
        StreamReadExact(a);
      }
    }
  }
}
