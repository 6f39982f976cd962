/** Data model of the descriptor compiler: scatter lists, transfer requests, descriptors, and
    the validation of a request against the mapping it names. */
module Descriptors {
  import opened Words
  import Gcd

  const PAGE_SIZE: nat := 4096
  const NUM_CHANNELS: nat := 3
  const DESC_BYTES: nat := 64 // sizeof(tpce_dma_descriptor)

  /** tpce_dma_direction_t */
  const BIDIRECTIONAL: u8 := 0
  const TO_DEVICE: u8 := 1
  const FROM_DEVICE: u8 := 2

  /** tpce_dma_mode_t */
  const MODE_DEFAULT: u8 := 0
  const MODE_STREAM: u8 := 1

  /** One DMA-mapped entry of the scatter list: sg_dma_address, sg_dma_len, sg->offset. */
  datatype SgEntry = SgEntry(dmaAddr: u64, dmaLen: u32, offset: u32)

  datatype Mapping = Mapping(size: u32, direction: u8, sgl: seq<SgEntry>)

  datatype ChannelInfo = ChannelInfo(
    dataWidth: u32, maxTransfer: u32, maxStride: u32, maxBurst: u8,
    hasStreamRead: bool, hasStreamWrite: bool)

  /** tpce_dma_channel_info_table */
  function ChannelTable(channel: u8): (c: ChannelInfo)
    requires channel < NUM_CHANNELS
    ensures c.dataWidth > 0 && c.maxTransfer == 262144
  {
    if channel == 0 then ChannelInfo(8, 256 * 1024, 0, 32, false, false)
    else if channel == 1 then ChannelInfo(2, 256 * 1024, 32768, 0, false, false)
    else ChannelInfo(8, 256 * 1024, 0, 32, true, false)
  }

  /** tpce_dma_transfer_params */
  datatype Params = Params(
    mapOffset: u32, deviceAddr: u32, bytesTotal: u32, bytesPerDescriptor: u32,
    readStride: u16, writeStride: u16, channel: u8, transferMode: u8, direction: u8,
    interruptInterval: u8, burstCount: u8)

  /** The fields of tpce_dma_descriptor that the driver reads or writes. The three control
      bits it uses are separate fields. */
  datatype Descriptor = Descriptor(
    readLow: u32, writeLow: u32, length: u32, nextLow: u32,
    sequence: u16, readBurst: u8, writeBurst: u8, readStride: u16, writeStride: u16,
    readHigh: u32, writeHigh: u32, nextHigh: u32,
    irq: bool, earlyDone: bool, ownedByHw: bool)
  {
    /** tpce_desc_get_read */
    function ReadAddr(): int {
      readHigh * TWO32 + readLow
    }

    /** tpce_desc_get_write */
    function WriteAddr(): int {
      writeHigh * TWO32 + writeLow
    }
  }

  /** The result of memset(desc, 0, sizeof(*desc)). */
  const ZERO_DESCRIPTOR :=
    Descriptor(0, 0, 0, 0, 0, 0, 0, 0, 0, 0, 0, 0, false, false, false)

  /** tpce_dma_map_range_addr adds the page offset of the entry to its DMA address. */
  function RangeAddr(e: SgEntry): u64 {
    W64(e.dmaAddr + e.offset)
  }

  function Sizes(sgl: seq<SgEntry>): (s: seq<u32>)
    ensures |s| == |sgl| && forall i | 0 <= i < |sgl| :: s[i] == sgl[i].dmaLen
  {
    seq(|sgl|, i requires 0 <= i < |sgl| => sgl[i].dmaLen)
  }

  /** Bytes of the first i entries. */
  function Prefix(sgl: seq<SgEntry>, i: nat): nat
    requires i <= |sgl|
  {
    if i == 0 then 0 else Prefix(sgl, i - 1) + sgl[i - 1].dmaLen
  }

  lemma {:induction false} PrefixMono(sgl: seq<SgEntry>, i: nat, j: nat)
    requires i <= j <= |sgl|
    ensures Prefix(sgl, i) <= Prefix(sgl, j)
  {
    if i < j {
      PrefixMono(sgl, i, j - 1);
    }
  }

  /** What dma_map_sgtable and the callers establish for a live mapping: the entries add up to
      the mapped size and no entry runs past the 64-bit address space. */
  ghost predicate WellFormed(m: Mapping) {
    && Prefix(m.sgl, |m.sgl|) == m.size
    && forall i | 0 <= i < |m.sgl| :: m.sgl[i].dmaAddr + m.sgl[i].offset + m.sgl[i].dmaLen < TWO64
  }

  /** Chunk size of a request: its fixed size, or the channel's maximum. */
  function Step(p: Params): (s: nat)
    requires p.channel < NUM_CHANNELS
    ensures s > 0
  {
    if p.bytesPerDescriptor > 0 then p.bytesPerDescriptor else ChannelTable(p.channel).maxTransfer
  }

  /** tpce_max_descriptors_needed. PAGE_SIZE is an unsigned long, so the rounding up does not
      wrap; the added terminator does. */
  function MaxDescriptorsNeeded(p: Params): u32 {
    DivLe(p.bytesTotal, PAGE_SIZE);
    var n: nat :=
      if p.bytesPerDescriptor > 0 then (DivLe(p.bytesTotal, p.bytesPerDescriptor); p.bytesTotal / p.bytesPerDescriptor)
      else CeilDiv(p.bytesTotal, PAGE_SIZE);
    if p.transferMode == MODE_DEFAULT then W32(n + 1) else n
  }

  /** The size in bytes of the list that init_dma_info makes room for, a 32-bit number; and of the
      terminator that it adds to it. */
  function AllocBytes(p: Params): u32 {
    W32(MaxDescriptorsNeeded(p) * DESC_BYTES)
  }

  function Terminator(p: Params): nat {
    if p.transferMode != MODE_STREAM then DESC_BYTES else 0
  }

  /** The largest number of descriptors that the generator may fill in. */
  function AllocNum(p: Params): u32 {
    AllocBytes(p) / DESC_BYTES
  }

  lemma {:induction false} AllocNumExact(p: Params)
    ensures AllocNum(p) == MaxDescriptorsNeeded(p) % 0x400_0000
    ensures AllocBytes(p) % DESC_BYTES == 0
  {
    var n := MaxDescriptorsNeeded(p);
    var q, r := n / 0x400_0000, n % 0x400_0000;
    DivModUnique(n * DESC_BYTES, q, r * DESC_BYTES, 0x1_0000_0000);
    DivModUnique(r * DESC_BYTES, r, 0, DESC_BYTES);
  }

  /** With flexible sizes the size of the list never wraps. */
  lemma {:induction false} FlexibleAllocNum(p: Params)
    requires p.bytesPerDescriptor == 0
    ensures AllocNum(p) == MaxDescriptorsNeeded(p) < 0x400_0000
  {
    AllocNumExact(p);
    DivMono(p.bytesTotal + PAGE_SIZE - 1, 2 * TWO32 - 1, PAGE_SIZE);
    W32Fits(CeilDiv(p.bytesTotal, PAGE_SIZE) + 1);
    SmallMod(MaxDescriptorsNeeded(p), 0x400_0000);
  }

  // ----- Validation -------------------------------------------------------------------------

  datatype ParamFlag =
    | MapOffset | DeviceAddr | BytesTotal | BytesPerDesc | Strides
    | TransferMode | Direction | IntInterval | BurstCount

  /** A negative error code, or the bit mask of raised flags, one boolean per bit. */
  datatype ValidationResult =
    | InvalidChannel
    | Flags(mapOffset: bool, deviceAddr: bool, bytesTotal: bool, bytesPerDesc: bool, strides: bool,
            transferMode: bool, direction: bool, intInterval: bool, burstCount: bool)
  {
    predicate Raised(f: ParamFlag)
      requires Flags?
    {
      match f
      case MapOffset => mapOffset
      case DeviceAddr => deviceAddr
      case BytesTotal => bytesTotal
      case BytesPerDesc => bytesPerDesc
      case Strides => strides
      case TransferMode => transferMode
      case Direction => direction
      case IntInterval => intInterval
      case BurstCount => burstCount
    }

    /** The result 0. */
    predicate Ok() {
      Flags? && forall f: ParamFlag :: !Raised(f)
    }
  }

  predicate ValidDirection(direction: u8, m: Mapping) {
    && (direction == FROM_DEVICE || direction == TO_DEVICE)
    && (m.direction == BIDIRECTIONAL || m.direction == direction)
  }

  /** The number of descriptors that validation assumes for the interrupt interval. */
  function AssumedDescriptors(p: Params, m: Mapping): nat {
    if p.bytesPerDescriptor > 0 then p.bytesTotal / p.bytesPerDescriptor else |m.sgl|
  }

  /** The rule behind each flag, with the gcd test replaced by what it means. */
  ghost predicate Violates(f: ParamFlag, p: Params, m: Mapping)
    requires p.channel < NUM_CHANNELS
  {
    var ch := ChannelTable(p.channel);
    match f
    case MapOffset => p.mapOffset > m.size || p.mapOffset % ch.dataWidth != 0
    case DeviceAddr => p.deviceAddr % ch.dataWidth != 0
    case BytesTotal =>
      p.bytesTotal % ch.dataWidth != 0 || W32(p.bytesTotal + p.mapOffset) > m.size
    case BytesPerDesc =>
      p.bytesPerDescriptor > 0 &&
      (p.bytesPerDescriptor % ch.dataWidth != 0 || p.bytesPerDescriptor > ch.maxTransfer
       || !Gcd.DividesAll(p.bytesPerDescriptor, Sizes(m.sgl)))
    case Strides => p.readStride > ch.maxStride || p.writeStride > ch.maxStride
    case TransferMode => p.transferMode != MODE_DEFAULT && p.transferMode != MODE_STREAM
    case Direction => !ValidDirection(p.direction, m)
    case IntInterval =>
      p.interruptInterval > 0 && AssumedDescriptors(p, m) % p.interruptInterval != 0
    case BurstCount => p.burstCount > ch.maxBurst
  }

  /** A request that passes validation. */
  ghost predicate Accepted(p: Params, m: Mapping) {
    p.channel < NUM_CHANNELS && forall f: ParamFlag :: !Violates(f, p, m)
  }

  /** The fixed-size part of the validation. */
  method CheckBytesPerDesc(b: u32, ch: ChannelInfo, sizes: seq<u32>) returns (bad: bool)
    requires b > 0 && ch.dataWidth > 0
    ensures bad <==> b % ch.dataWidth != 0 || b > ch.maxTransfer || !Gcd.DividesAll(b, sizes)
  {
    bad := false;
    if b % ch.dataWidth != 0 {
      bad := true;
    } else if b > ch.maxTransfer {
      bad := true;
    }
    var gcd := Gcd.GcdPageSizes(sizes);
    assert Gcd.Divides(b, gcd) <==> Gcd.DividesAll(b, sizes);
    if gcd % b != 0 {
      bad := true;
    }
  }

  /** tpce_validate_dma_params: each flag is raised exactly by a violation of its rule. The test
      on the greatest common divisor thus rejects a fixed size exactly when the size fails to
      divide some entry of the scatter list. */
  method ValidateParams(p: Params, m: Mapping) returns (res: ValidationResult)
    ensures res == InvalidChannel <==> p.channel >= NUM_CHANNELS
    ensures res.Flags? ==> forall f: ParamFlag :: res.Raised(f) <==> Violates(f, p, m)
  {
    if p.channel >= NUM_CHANNELS {
      return InvalidChannel;
    }
    var ch := ChannelTable(p.channel);
    var off := p.mapOffset > m.size || p.mapOffset % ch.dataWidth != 0;
    var dev := p.deviceAddr % ch.dataWidth != 0;
    var total :=
      p.bytesTotal % ch.dataWidth != 0 || W32(p.bytesTotal + p.mapOffset) > m.size;
    var perDesc := false;
    if p.bytesPerDescriptor > 0 {
      perDesc := CheckBytesPerDesc(p.bytesPerDescriptor, ch, Sizes(m.sgl));
    }
    var strides := Max(p.readStride, p.writeStride) > ch.maxStride;
    var mode := p.transferMode != MODE_DEFAULT && p.transferMode != MODE_STREAM;
    var dir := !ValidDirection(p.direction, m);
    var interval :=
      p.interruptInterval > 0 && AssumedDescriptors(p, m) % p.interruptInterval != 0;
    var burst := p.burstCount > ch.maxBurst;
    res := Flags(off, dev, total, perDesc, strides, mode, dir, interval, burst);
    forall f: ParamFlag
      ensures res.Raised(f) <==> Violates(f, p, m)
    {
      match f
      case MapOffset =>
      case DeviceAddr =>
      case BytesTotal =>
      case BytesPerDesc =>
      case Strides =>
      case TransferMode =>
      case Direction =>
      case IntInterval =>
      case BurstCount =>
    }
  }

  lemma {:induction false} AcceptedIsNoFlags(p: Params, m: Mapping, res: ValidationResult)
    requires res == InvalidChannel <==> p.channel >= NUM_CHANNELS
    requires res.Flags? ==> forall f: ParamFlag :: res.Raised(f) <==> Violates(f, p, m)
    ensures res.Ok() <==> Accepted(p, m)
  {
  }

  /** An accepted request names a window inside the mapping exactly when the end of the window
      is representable: the end is computed with 32-bit wrap-around. */
  lemma {:induction false} AcceptedWindowInside(p: Params, m: Mapping)
    requires Accepted(p, m)
    ensures p.mapOffset + p.bytesTotal <= m.size <==> p.mapOffset + p.bytesTotal < TWO32
  {
    assert !Violates(BytesTotal, p, m);
    if p.mapOffset + p.bytesTotal < TWO32 {
      W32Fits(p.mapOffset + p.bytesTotal);
    }
  }

  /** Such a wrapping request exists: offset 8 and 2^32 - 8 bytes in a 64-byte mapping. */
  lemma {:induction false} WrappedWindowAccepted() returns (p: Params, m: Mapping)
    ensures WellFormed(m) && Accepted(p, m)
    ensures p.mapOffset + p.bytesTotal > m.size
  {
    m := Mapping(64, BIDIRECTIONAL, [SgEntry(0x10000, 64, 0)]);
    p := Params(8, 0, 0xFFFF_FFF8, 0, 0, 0, 0, MODE_DEFAULT, FROM_DEVICE, 0, 0);
    assert Prefix(m.sgl, 1) == Prefix(m.sgl, 0) + 64;
    assert W32(p.bytesTotal + p.mapOffset) == 0;
  }
}
