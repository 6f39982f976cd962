/** The descriptor generator: plan, fill, and the agreement of the two. */
module Generator {
  import opened Words
  import opened Descriptors
  import opened Window
  import opened Meaning
  import Gcd
  import Capacity

  datatype Plan = Plan(gcdPageSizes: u32, numDescriptors: u32, startIdx: nat, startOff: u32)

  // ----- The planned count -------------------------------------------------------------------

  /** The count that the planning loop adds up, with its 32-bit rounding up. */
  function PlanCount(sgl: seq<SgEntry>, idx: nat, off: nat, rem: nat, max: u32): nat
    requires max > 0
    requires idx <= |sgl| && (idx < |sgl| ==> off <= sgl[idx].dmaLen)
    decreases |sgl| - idx
  {
    if idx == |sgl| || rem == 0 then 0
    else
      var len := SegLen(sgl, idx, off, rem);
      DivRoundUp32(len, max) + PlanCount(sgl, idx + 1, 0, rem - len, max)
  }

  /** Every segment of the window is at most limit bytes long. */
  predicate SegmentsBelow(sgl: seq<SgEntry>, idx: nat, off: nat, rem: nat, limit: nat)
    requires idx <= |sgl| && (idx < |sgl| ==> off <= sgl[idx].dmaLen)
    decreases |sgl| - idx
  {
    idx == |sgl| || rem == 0 ||
    var len := SegLen(sgl, idx, off, rem);
    len <= limit && SegmentsBelow(sgl, idx + 1, 0, rem - len, limit)
  }

  lemma {:induction false} SplitCount(idx: nat, off: nat, len: nat, step: nat)
    requires step > 0
    ensures |Split(idx, off, len, step)| == CeilDiv(len, step)
    decreases len
  {
    if len == 0 {
      SmallMod(step - 1, step);
    } else if len > step {
      SplitCount(idx, off + step, len - step, step);
      AddMultiple(len - step + step - 1, 1, step);
    } else {
      assert Split(idx, off + len, 0, step) == [];
      DivModUnique(len + step - 1, 1, len - 1, step);
    }
  }

  /** The rounding up is exact as long as n + d - 1 fits 32 bits, and too small otherwise. */
  lemma {:induction false} RoundUpExact(n: u32, d: u32)
    requires d > 0
    ensures DivRoundUp32(n, d) <= CeilDiv(n, d)
    ensures DivRoundUp32(n, d) == CeilDiv(n, d) <==> n + d - 1 < TWO32
  {
    if n + d - 1 < TWO32 {
      W32Fits(n + d - 1);
    } else {
      var w := n + d - 1 - TWO32;
      assert W32(n + d - 1) == w;
      SmallMod(w, d);
      DivMono(d, n + d - 1, d);
      DivModUnique(d, 1, 0, d);
    }
  }

  /** Plan and fill agree exactly when no segment of the window is so long that rounding it up
      wraps at 32 bits. */
  lemma {:induction false} PlanCountExact(sgl: seq<SgEntry>, idx: nat, off: nat, rem: nat, max: u32)
    requires max > 0
    requires idx <= |sgl| && (idx < |sgl| ==> off <= sgl[idx].dmaLen)
    ensures PlanCount(sgl, idx, off, rem, max) <= |Chunks(sgl, idx, off, rem, max)|
    ensures PlanCount(sgl, idx, off, rem, max) == |Chunks(sgl, idx, off, rem, max)|
            <==> SegmentsBelow(sgl, idx, off, rem, TWO32 - max)
    decreases |sgl| - idx
  {
    if idx < |sgl| && rem > 0 {
      var len := SegLen(sgl, idx, off, rem);
      SplitCount(idx, off, len, max);
      RoundUpExact(len, max);
      PlanCountExact(sgl, idx + 1, 0, rem - len, max);
    }
  }

  lemma {:induction false} PlanCountBound(sgl: seq<SgEntry>, idx: nat, off: nat, rem: nat, max: u32)
    requires max > 0
    requires idx <= |sgl| && (idx < |sgl| ==> off <= sgl[idx].dmaLen)
    ensures PlanCount(sgl, idx, off, rem, max) <= rem
    decreases |sgl| - idx
  {
    if idx < |sgl| && rem > 0 {
      var len := SegLen(sgl, idx, off, rem);
      PlanCountBound(sgl, idx + 1, 0, rem - len, max);
      RoundUpExact(len, max);
      CeilDivLe(len, max);
    }
  }

  lemma {:induction false} CeilDivLe(n: nat, d: nat)
    requires d > 0
    ensures CeilDiv(n, d) <= n
  {
    if n > 0 {
      MulMono(1, d, n - 1);
      assert n * d == (n - 1) * d + d;
      DivMono(n + d - 1, n * d, d);
      DivModUnique(n * d, n, 0, d);
    } else {
      SmallMod(d - 1, d);
    }
  }

  /** What create_descriptor_plan computes: the count for this request and mapping. */
  function PlannedCount(p: Params, m: Mapping): nat
    requires p.channel < NUM_CHANNELS
  {
    if |m.sgl| == 0 then 0
    else if p.bytesPerDescriptor > 0 then p.bytesTotal / p.bytesPerDescriptor
    else
      var (idx, off) := Locate(m.sgl, 0, p.mapOffset);
      PlanCount(m.sgl, idx, off, p.bytesTotal, ChannelTable(p.channel).maxTransfer)
  }

  /** create_descriptor_plan: the start of the window is the byte mapOffset of the mapping. */
  method CreatePlan(p: Params, m: Mapping) returns (plan: Plan)
    requires p.channel < NUM_CHANNELS
    ensures plan.numDescriptors == PlannedCount(p, m)
    ensures |m.sgl| > 0 ==> (plan.startIdx, plan.startOff as nat) == Locate(m.sgl, 0, p.mapOffset)
    ensures forall d: nat | d > 0 ::
              Gcd.Divides(d, plan.gcdPageSizes) <==> Gcd.DividesAll(d, Sizes(m.sgl))
  {
    var n := |m.sgl|;
    var gcd := Gcd.GcdPageSizes(Sizes(m.sgl));
    if n == 0 {
      return Plan(gcd, 0, 0, 0);
    }
    var offIdx, offRem := FindStart(m.sgl, p.mapOffset);
    var num: u32 := 0;
    if p.bytesPerDescriptor == 0 {
      num := CountFlexible(m.sgl, offIdx, offRem, p.bytesTotal, ChannelTable(p.channel).maxTransfer);
    } else {
      DivLe(p.bytesTotal, p.bytesPerDescriptor);
      num := p.bytesTotal / p.bytesPerDescriptor;
    }
    plan := Plan(gcd, num, offIdx, offRem);
  }

  /** The first loop of create_descriptor_plan. */
  method FindStart(sgl: seq<SgEntry>, off: u32) returns (offIdx: nat, offRem: u32)
    ensures (offIdx, offRem as nat) == Locate(sgl, 0, off)
  {
    offRem := off;
    offIdx := 0;
    var i := 0;
    while i < |sgl|
      invariant 0 <= i == offIdx <= |sgl|
      invariant Locate(sgl, i, offRem) == Locate(sgl, 0, off)
    {
      var size := sgl[i].dmaLen;
      if offRem >= size {
        offRem := offRem - size;
        offIdx := offIdx + 1;
      } else {
        break;
      }
      i := i + 1;
    }
  }

  lemma {:induction false} PlanCountStep(sgl: seq<SgEntry>, i: nat, off: nat, rem: nat, max: u32,
                                         pageBytes: nat, pageDescs: nat)
    requires max > 0 && i < |sgl| && off <= sgl[i].dmaLen && rem > 0
    requires pageBytes == SegLen(sgl, i, off, rem) && pageDescs == DivRoundUp32(pageBytes, max)
    ensures PlanCount(sgl, i, off, rem, max)
            == pageDescs + PlanCount(sgl, i + 1, 0, rem - pageBytes, max)
  {
  }

  /** The second loop of create_descriptor_plan. */
  method CountFlexible(sgl: seq<SgEntry>, offIdx: nat, offRem: u32, total: u32, max: u32) returns (num: u32)
    requires max > 0
    requires offIdx <= |sgl| && (offIdx < |sgl| ==> offRem < sgl[offIdx].dmaLen)
    ensures num == PlanCount(sgl, offIdx, offRem, total, max)
  {
    num := 0;
    var bytesRem: nat := total;
    var i := offIdx;
    ghost var planned := PlanCount(sgl, offIdx, offRem, total, max);
    ghost var off: nat := offRem;
    PlanCountBound(sgl, offIdx, offRem, total, max);
    while i < |sgl| && bytesRem > 0
      invariant offIdx <= i <= |sgl| && off == (if i == offIdx then offRem else 0)
      invariant num + PlanCount(sgl, i, off, bytesRem, max) == planned
    {
      var size := sgl[i].dmaLen;
      var bytesInPage := size - (if i == offIdx then offRem else 0);
      var pageBytes: nat := Min(bytesRem, bytesInPage);
      var pageDescs := DivRoundUp32(pageBytes, max);
      PlanCountStep(sgl, i, off, bytesRem, max, pageBytes, pageDescs);
      num := num + pageDescs;
      bytesRem := bytesRem - pageBytes;
      i := i + 1;
      off := 0;
    }
  }

  // ----- When a request compiles ----------------------------------------------------------------

  /** The window lies in the mapping and can be cut as the mode of the request asks for. */
  predicate Compilable(p: Params, m: Mapping)
    requires p.channel < NUM_CHANNELS
  {
    && p.mapOffset + p.bytesTotal <= Prefix(m.sgl, |m.sgl|)
    && var (idx, off) := Locate(m.sgl, 0, p.mapOffset);
    if p.bytesPerDescriptor == 0
    then SegmentsBelow(m.sgl, idx, off, p.bytesTotal, TWO32 - ChannelTable(p.channel).maxTransfer)
    else WholeSegments(m.sgl, idx, off, p.bytesTotal, p.bytesPerDescriptor)
  }

  /** For a request that passed validation, this is a test on the request and the first entry of
      its window: the end of the window does not wrap, and in fixed-size mode the offset and the
      total fit the size; in flexible mode no segment exceeds 2^32 - 2^18 bytes. */
  lemma {:induction false} CompilableExact(p: Params, m: Mapping)
    requires WellFormed(m) && Accepted(p, m) && p.bytesTotal > 0
    ensures var (idx, off) := Locate(m.sgl, 0, p.mapOffset);
      Compilable(p, m) <==>
        && p.mapOffset + p.bytesTotal < TWO32
        && (if p.bytesPerDescriptor == 0
            then SegmentsBelow(m.sgl, idx, off, p.bytesTotal, 0xFFFC_0000)
            else FixedSizeFits(m.sgl, idx, off, p.mapOffset, p.bytesTotal, p.bytesPerDescriptor))
  {
    AcceptedWindowInside(p, m);
    var b := p.bytesPerDescriptor;
    if p.mapOffset + p.bytesTotal <= m.size && b > 0 {
      assert !Violates(BytesPerDesc, p, m);
      EntriesDivide(m.sgl, b);
      WholeSegmentsExact(m.sgl, p.mapOffset, p.bytesTotal, b);
    }
  }

  lemma {:induction false} EntriesDivide(sgl: seq<SgEntry>, b: nat)
    requires b > 0
    ensures Gcd.DividesAll(b, Sizes(sgl)) <==> EntriesDivisible(sgl, b)
  {
    var s := Sizes(sgl);
    assert forall i | 0 <= i < |sgl| :: Gcd.Divides(b, s[i]) <==> sgl[i].dmaLen % b == 0;
  }

  /** The entries have sizes that b divides, if there is a b. */
  predicate SizeDivides(b: u32, m: Mapping) {
    b == 0 || forall i | 0 <= i < |m.sgl| :: m.sgl[i].dmaLen % b == 0
  }

  /** Validation in numbers. Channel 1 takes units of 2 bytes, strides up to 32768 and no bursts; the others units
      of 8 bytes, no strides and bursts up to 32. The end of the window is a 32-bit sum. */
  lemma {:induction false} AcceptedExact(p: Params, m: Mapping)
    ensures Accepted(p, m) <==>
      var w, stride, burst := if p.channel == 1 then 2 else 8, if p.channel == 1 then 32768 else 0,
                              if p.channel == 1 then 0 else 32;
      && p.channel < 3 && p.transferMode < 2 && (p.direction == 1 || p.direction == 2)
      && (m.direction == 0 || m.direction == p.direction)
      && p.mapOffset % w == 0 && p.deviceAddr % w == 0 && p.bytesTotal % w == 0 && p.bytesPerDescriptor % w == 0
      && p.mapOffset <= m.size && (p.mapOffset + p.bytesTotal) % 0x1_0000_0000 <= m.size
      && p.bytesPerDescriptor <= 0x4_0000 && SizeDivides(p.bytesPerDescriptor, m)
      && p.readStride <= stride && p.writeStride <= stride && p.burstCount <= burst
      && (p.interruptInterval > 0 ==>
            (if p.bytesPerDescriptor == 0 then |m.sgl| else p.bytesTotal / p.bytesPerDescriptor)
            % p.interruptInterval == 0)
  {
    if p.bytesPerDescriptor > 0 {
      EntriesDivide(m.sgl, p.bytesPerDescriptor);
    }
    if p.channel < NUM_CHANNELS {
      FlagsExact(p, m);
    }
  }

  /** All rules at once. */
  lemma {:induction false} FlagsExact(p: Params, m: Mapping)
    requires p.channel < NUM_CHANNELS
    ensures Accepted(p, m) <==>
      && !Violates(MapOffset, p, m) && !Violates(DeviceAddr, p, m) && !Violates(BytesTotal, p, m)
      && !Violates(BytesPerDesc, p, m) && !Violates(Strides, p, m) && !Violates(TransferMode, p, m)
      && !Violates(Direction, p, m) && !Violates(IntInterval, p, m) && !Violates(BurstCount, p, m)
  {
    if !Accepted(p, m) {
      var f: ParamFlag :| Violates(f, p, m);
      match f
      case MapOffset =>
      case DeviceAddr =>
      case BytesTotal =>
      case BytesPerDesc =>
      case Strides =>
      case TransferMode =>
      case Direction =>
      case IntInterval =>
      case BurstCount =>
    }
  }

  /** Validation alone does not decide this in fixed-size mode: it accepts 1024 bytes at offset 8
      of two 1024-byte entries, which no 1024-byte descriptors can tile. */
  lemma {:induction false} MisalignedOffsetAccepted() returns (p: Params, m: Mapping)
    ensures WellFormed(m) && Accepted(p, m) && |m.sgl| == 2
    ensures p.mapOffset == 8 && p.bytesTotal == 1024 && p.bytesPerDescriptor == 1024
    ensures !exists cs :: Tiles(m.sgl, cs, p.mapOffset, p.bytesTotal, 1024) && AllOfLength(cs, 1024)
  {
    m := Mapping(2048, FROM_DEVICE, [SgEntry(0x10000, 1024, 0), SgEntry(0x20000, 1024, 0)]);
    p := Params(8, 0, 1024, 1024, 0, 0, 0, MODE_DEFAULT, FROM_DEVICE, 0, 0);
    assert Prefix(m.sgl, 1) == Prefix(m.sgl, 0) + 1024;
    assert Prefix(m.sgl, 2) == Prefix(m.sgl, 1) + 1024;
    var s := Sizes(m.sgl);
    assert s == [1024, 1024];
    assert Gcd.Divides(1024, 1024);
    assert Gcd.DividesAll(1024, s);
    assert Locate(m.sgl, 0, 8) == (0, 8);
    FixedSizeExact(m.sgl, 8, 1024, 1024);
  }

  /** The chunks of a compilable request: they tile its window, the plan counts them, and in
      fixed-size mode each has the requested size. */
  lemma {:induction false} CompilableChunks(p: Params, m: Mapping)
    requires p.channel < NUM_CHANNELS && Compilable(p, m)
    ensures var cs := WindowChunks(m.sgl, p.mapOffset, p.bytesTotal, Step(p));
      && Tiles(m.sgl, cs, p.mapOffset, p.bytesTotal, Step(p))
      && PlannedCount(p, m) == |cs|
      && (p.bytesPerDescriptor > 0 ==> AllOfLength(cs, p.bytesPerDescriptor))
  {
    WindowTiles(m.sgl, p.mapOffset, p.bytesTotal, Step(p));
    var (idx, off) := Locate(m.sgl, 0, p.mapOffset);
    var b := p.bytesPerDescriptor;
    if b == 0 {
      PlanCountExact(m.sgl, idx, off, p.bytesTotal, ChannelTable(p.channel).maxTransfer);
    } else {
      WholeChunks(m.sgl, idx, off, p.bytesTotal, b);
      var cs := WindowChunks(m.sgl, p.mapOffset, p.bytesTotal, b);
      DivModUnique(p.bytesTotal, |cs|, 0, b);
    }
  }

  // ----- The generated list ------------------------------------------------------------------------

  /** The assignments of fill_addresses to one descriptor. */
  function SetAddresses(p: Params, d: Descriptor, busAddr: u64, length: u32, deviceAddr: u32): Descriptor
    requires p.channel < NUM_CHANNELS
  {
    var ch := ChannelTable(p.channel);
    if p.direction == FROM_DEVICE then
      d.(readLow := if ch.hasStreamRead then 0 else deviceAddr, readHigh := 0,
         writeLow := W32(busAddr), writeHigh := Hi32(busAddr), length := length)
    else
      d.(readLow := W32(busAddr), readHigh := Hi32(busAddr),
         writeLow := if ch.hasStreamWrite then 0 else deviceAddr, writeHigh := 0, length := length)
  }

  /** Descriptor d with its addresses and length set for chunk c. */
  function WithAddresses(p: Params, m: Mapping, d: Descriptor, c: Chunk): Descriptor
    requires p.channel < NUM_CHANNELS && c.idx < |m.sgl|
    requires c.len < TWO32 && ChunkAddr(m.sgl, c) < TWO64
  {
    SetAddresses(p, d, ChunkAddr(m.sgl, c), c.len, W32(p.deviceAddr + BytesBefore(p, m, c)))
  }

  /** Entries of a well-formed mapping do not wrap the bus address space. */
  lemma {:induction false} ChunkAddrFits(m: Mapping, c: Chunk)
    requires WellFormed(m) && InEntry(m.sgl, c)
    ensures RangeAddr(m.sgl[c.idx]) == m.sgl[c.idx].dmaAddr + m.sgl[c.idx].offset
    ensures ChunkAddr(m.sgl, c) + c.len < TWO64
  {
    W64Fits(m.sgl[c.idx].dmaAddr + m.sgl[c.idx].offset);
  }

  lemma {:induction false} WithAddressesAddresses(p: Params, m: Mapping, d: Descriptor, c: Chunk)
    requires p.channel < NUM_CHANNELS && c.idx < |m.sgl|
    requires c.len < TWO32 && ChunkAddr(m.sgl, c) < TWO64
    ensures Addresses(p, m, WithAddresses(p, m, d, c), c)
  {
    var bus := ChunkAddr(m.sgl, c);
    SplitHalves(bus);
  }

  /** Whether descriptor k of n raises the completion interrupt. */
  predicate RaisesIrq(p: Params, k: nat, n: nat) {
    if p.transferMode == MODE_DEFAULT then k + 1 == n
    else p.interruptInterval > 0 && k % p.interruptInterval == p.interruptInterval - 1
  }

  /** Everything fill_control_flags and fill_other_fields say about descriptor k of n. */
  ghost predicate Dressed(p: Params, d: Descriptor, k: nat, n: nat)
    requires p.channel < NUM_CHANNELS
  {
    var ch := ChannelTable(p.channel);
    && d.irq == RaisesIrq(p, k, n)
    && d.earlyDone == (!ch.hasStreamRead && (p.transferMode == MODE_DEFAULT ==> k + 1 < n))
    && !d.ownedByHw && d.nextLow == 0 && d.nextHigh == 0
    && d.sequence == W16(k)
    && d.readStride == p.readStride && d.writeStride == p.writeStride
    && d.readBurst == (if ch.hasStreamRead then 0 else p.burstCount)
    && d.writeBurst == (if ch.hasStreamWrite then 0 else p.burstCount)
  }

  /** A list generated for the request: descriptor k addresses chunk k of its window, and carries
      the flags and parameters of its position. */
  ghost predicate IsGenerated(p: Params, m: Mapping, ds: seq<Descriptor>)
    requires p.channel < NUM_CHANNELS
  {
    var cs := WindowChunks(m.sgl, p.mapOffset, p.bytesTotal, Step(p));
    && |ds| == |cs|
    && forall k {:trigger ds[k]} | 0 <= k < |cs| ::
         Addresses(p, m, ds[k], cs[k]) && Dressed(p, ds[k], k, |cs|)
  }

  /** get_transfer_length */
  function TransferLength(p: Params, bytesInPageRem: u32): u32
    requires p.channel < NUM_CHANNELS
  {
    if p.bytesPerDescriptor > 0 then p.bytesPerDescriptor
    else Min(bytesInPageRem, ChannelTable(p.channel).maxTransfer)
  }

  /** The first n descriptors have the addresses of the first n chunks, the others are as
      before. */
  ghost predicate Filled(p: Params, m: Mapping, now: seq<Descriptor>, was: seq<Descriptor>,
                         cs: seq<Chunk>, n: nat)
    requires p.channel < NUM_CHANNELS && n <= |cs| && ChunksFit(m, cs)
  {
    && |now| == |was|
    && (forall k {:trigger now[k]} | 0 <= k < n && k < |now| ::
          now[k] == WithAddresses(p, m, was[k], cs[k]))
    && (forall k | n <= k < |now| :: now[k] == was[k])
  }

  ghost predicate ChunksFit(m: Mapping, cs: seq<Chunk>) {
    forall k | 0 <= k < |cs| ::
      cs[k].len < TWO32 && InEntry(m.sgl, cs[k]) && ChunkAddr(m.sgl, cs[k]) < TWO64
  }

  /** Of a segment in entry idx, rem bytes are left at offset off; chunk k is next. */
  ghost predicate SegmentLeft(p: Params, cs: seq<Chunk>, rest: seq<Chunk>, k: nat, idx: nat,
                              off: nat, rem: nat)
    requires p.channel < NUM_CHANNELS
  {
    && k <= |cs|
    && cs[k..] == Split(idx, off, rem, Step(p)) + rest
    && (p.bytesPerDescriptor > 0 ==> rem % Step(p) == 0)
  }

  lemma {:induction false} SegmentNext(p: Params, cs: seq<Chunk>, rest: seq<Chunk>, k: nat, idx: nat,
                                       off: nat, rem: nat)
    requires p.channel < NUM_CHANNELS && 0 < rem < TWO32
    requires SegmentLeft(p, cs, rest, k, idx, off, rem)
    ensures var l := TransferLength(p, rem);
      && 0 < l <= rem && k < |cs| && cs[k] == Chunk(idx, off, l)
      && SegmentLeft(p, cs, rest, k + 1, idx, off + l, rem - l)
  {
    if p.bytesPerDescriptor > 0 {
      WholeStep(rem, Step(p));
    }
    assert cs[k] == cs[k..][0];
    assert cs[k + 1..] == cs[k..][1..];
  }

  /** The assignments to *curr_desc in the inner loop. */
  method FillOne(p: Params, m: Mapping, descs: array<Descriptor>, ghost was: seq<Descriptor>,
                 ghost cs: seq<Chunk>, k: nat, busAddr: u64, length: u32, deviceAddr: u32)
    requires p.channel < NUM_CHANNELS && ChunksFit(m, cs) && k < |cs| <= descs.Length
    requires busAddr == ChunkAddr(m.sgl, cs[k]) && length == cs[k].len
    requires deviceAddr == W32(p.deviceAddr + BytesBefore(p, m, cs[k]))
    requires Filled(p, m, descs[..], was, cs, k)
    modifies descs
    ensures Filled(p, m, descs[..], was, cs, k + 1)
  {
    ghost var before := descs[..];
    descs[k] := SetAddresses(p, descs[k], busAddr, length, deviceAddr);
    assert descs[..] == before[k := descs[k]];
    FilledStep(p, m, before, was, cs, k, descs[k]);
  }

  /** The inner loop of fill_addresses: one segment of the window, in scatter entry idx. */
  method FillSegment(p: Params, m: Mapping, descs: array<Descriptor>, ghost was: seq<Descriptor>,
                     ghost cs: seq<Chunk>, ghost rest: seq<Chunk>, idx: nat, pageOffset: u32,
                     segment: u32, desc0: nat, dev0: u32)
    returns (descIdx: nat, deviceAddr: u32)
    requires p.channel < NUM_CHANNELS && ChunksFit(m, cs) && |cs| <= descs.Length
    requires idx < |m.sgl| && RangeAddr(m.sgl[idx]) + pageOffset + segment < TWO64
    requires SegmentLeft(p, cs, rest, desc0, idx, pageOffset, segment)
    requires dev0 == W32(p.deviceAddr + BytesBefore(p, m, Chunk(idx, pageOffset, segment)))
    requires Filled(p, m, descs[..], was, cs, desc0)
    modifies descs
    ensures descIdx <= |cs| && cs[descIdx..] == rest
    ensures deviceAddr == W32(p.deviceAddr + BytesBefore(p, m, Chunk(idx, pageOffset, segment)) + segment)
    ensures Filled(p, m, descs[..], was, cs, descIdx)
  {
    descIdx, deviceAddr := desc0, dev0;
    var rem: nat := segment;
    var busAddr: nat := RangeAddr(m.sgl[idx]) + pageOffset;
    ghost var off: nat := pageOffset;
    ghost var base := p.deviceAddr + Prefix(m.sgl, idx) - p.mapOffset;
    while rem > 0
      invariant rem <= segment && off == pageOffset + segment - rem
      invariant busAddr == RangeAddr(m.sgl[idx]) + off
      invariant SegmentLeft(p, cs, rest, descIdx, idx, off, rem)
      invariant deviceAddr == W32(base + off)
      invariant Filled(p, m, descs[..], was, cs, descIdx)
      decreases rem
    {
      SegmentNext(p, cs, rest, descIdx, idx, off, rem);
      var length := TransferLength(p, rem);
      FillOne(p, m, descs, was, cs, descIdx, busAddr, length, deviceAddr);
      busAddr := busAddr + length;
      W32Add(base + off, length);
      deviceAddr := W32(deviceAddr + length);
      rem := rem - length;
      off := off + length;
      descIdx := descIdx + 1;
    }
    assert cs[descIdx..] == rest;
  }

  lemma {:induction false} FilledStep(p: Params, m: Mapping, now: seq<Descriptor>, was: seq<Descriptor>,
                   cs: seq<Chunk>, n: nat, d: Descriptor)
    requires p.channel < NUM_CHANNELS && n < |cs| && ChunksFit(m, cs)
    requires Filled(p, m, now, was, cs, n) && n < |now|
    requires d == WithAddresses(p, m, was[n], cs[n])
    ensures Filled(p, m, now[n := d], was, cs, n + 1)
  {
    var next := now[n := d];
    forall k | 0 <= k < n + 1
      ensures next[k] == WithAddresses(p, m, was[k], cs[k])
    {
      if k < n {
        assert next[k] == now[k];
      }
    }
  }

  /** The body of the outer loop of fill_addresses. */
  method FillEntry(p: Params, m: Mapping, descs: array<Descriptor>, ghost was: seq<Descriptor>,
                   ghost cs: seq<Chunk>, mapIdx: nat, pageOffset: u32, rem0: nat, desc0: nat, dev0: u32)
    returns (descIdx: nat, deviceAddr: u32, bytesRem: nat)
    requires p.channel < NUM_CHANNELS && WellFormed(m) && ChunksFit(m, cs) && |cs| <= descs.Length
    requires mapIdx <= |m.sgl| && 0 < rem0 <= p.bytesTotal && desc0 <= |cs|
    requires Remaining(p, m, pageOffset, mapIdx, rem0, cs[desc0..])
    requires dev0 == W32(p.deviceAddr + (p.bytesTotal - rem0))
    requires Filled(p, m, descs[..], was, cs, desc0)
    modifies descs
    ensures mapIdx < |m.sgl| && bytesRem <= rem0 && descIdx <= |cs|
    ensures Remaining(p, m, 0, mapIdx + 1, bytesRem, cs[descIdx..])
    ensures deviceAddr == W32(p.deviceAddr + (p.bytesTotal - bytesRem))
    ensures Filled(p, m, descs[..], was, cs, descIdx)
  {
    ghost var rest := RemainingStep(p, m, pageOffset, mapIdx, rem0, cs[desc0..]);
    var size := m.sgl[mapIdx].dmaLen;
    var bytesInPageRem: nat := Min(size - pageOffset, rem0);
    descIdx, deviceAddr := FillSegment(p, m, descs, was, cs, rest, mapIdx, pageOffset,
                                       bytesInPageRem, desc0, dev0);
    bytesRem := rem0 - bytesInPageRem;
  }

  /** fill_addresses: the nested loops write descriptor k for chunk k of the window and touch
      nothing else. They run past neither the scatter list nor the planned count, and no
      subtraction underflows. */
  method FillAddresses(p: Params, m: Mapping, descs: array<Descriptor>, plan: Plan)
    requires p.channel < NUM_CHANNELS && WellFormed(m) && Compilable(p, m)
    requires |m.sgl| > 0 && (plan.startIdx, plan.startOff as nat) == Locate(m.sgl, 0, p.mapOffset)
    requires plan.numDescriptors == PlannedCount(p, m) <= descs.Length
    modifies descs
    ensures var cs := WindowChunks(m.sgl, p.mapOffset, p.bytesTotal, Step(p));
      && |cs| == plan.numDescriptors && ChunksFit(m, cs)
      && Filled(p, m, descs[..], old(descs[..]), cs, |cs|)
  {
    ghost var step := Step(p);
    ghost var cs := WindowChunks(m.sgl, p.mapOffset, p.bytesTotal, step);
    ghost var was := descs[..];
    CompilableChunks(p, m);
    ChunksInBounds(p, m, cs, step);
    var deviceAddr := p.deviceAddr;
    W32Fits(p.deviceAddr);
    var mapIdx := plan.startIdx;
    var bytesRem: nat := p.bytesTotal;
    var descIdx: nat := 0;
    while descIdx < plan.numDescriptors && bytesRem > 0
      invariant descIdx <= |cs| && plan.startIdx <= mapIdx <= |m.sgl| && bytesRem <= p.bytesTotal
      invariant deviceAddr == W32(p.deviceAddr + (p.bytesTotal - bytesRem))
      invariant Remaining(p, m, PageOffset(plan, mapIdx), mapIdx, bytesRem, cs[descIdx..])
      invariant Filled(p, m, descs[..], was, cs, descIdx)
      decreases |m.sgl| - mapIdx
    {
      descIdx, deviceAddr, bytesRem := FillEntry(p, m, descs, was, cs, mapIdx,
                                                 PageOffset(plan, mapIdx), bytesRem, descIdx, deviceAddr);
      mapIdx := mapIdx + 1;
    }
    if bytesRem == 0 {
      assert cs[descIdx..] == [];
    }
  }

  /** The offset of the window into entry mapIdx. */
  function PageOffset(plan: Plan, mapIdx: nat): u32 {
    if mapIdx == plan.startIdx then plan.startOff else 0
  }

  /** What is left to do from offset off of entry mapIdx on: the last bytesRem bytes of the
      window, and their chunks. */
  ghost predicate Remaining(p: Params, m: Mapping, off: nat, mapIdx: nat, bytesRem: nat, cs: seq<Chunk>)
    requires p.channel < NUM_CHANNELS && mapIdx <= |m.sgl|
  {
    && (mapIdx < |m.sgl| ==> off <= m.sgl[mapIdx].dmaLen)
    && (bytesRem > 0 ==> Prefix(m.sgl, mapIdx) + off + bytesRem == p.mapOffset + p.bytesTotal
                         && p.mapOffset + p.bytesTotal <= Prefix(m.sgl, |m.sgl|))
    && cs == Chunks(m.sgl, mapIdx, off, bytesRem, Step(p))
    && (p.bytesPerDescriptor > 0 ==> WholeSegments(m.sgl, mapIdx, off, bytesRem, Step(p)))
  }

  lemma {:induction false} RemainingStep(p: Params, m: Mapping, off: nat, mapIdx: nat, bytesRem: nat,
                                         cs: seq<Chunk>)
    returns (rest: seq<Chunk>)
    requires p.channel < NUM_CHANNELS && WellFormed(m) && mapIdx <= |m.sgl| && bytesRem > 0
    requires Remaining(p, m, off, mapIdx, bytesRem, cs)
    ensures mapIdx < |m.sgl| && RangeAddr(m.sgl[mapIdx]) + m.sgl[mapIdx].dmaLen < TWO64
    ensures var len := SegLen(m.sgl, mapIdx, off, bytesRem);
      && cs == Split(mapIdx, off, len, Step(p)) + rest
      && (p.bytesPerDescriptor > 0 ==> len % Step(p) == 0)
      && BytesBefore(p, m, Chunk(mapIdx, off, len)) == p.bytesTotal - bytesRem
      && Remaining(p, m, 0, mapIdx + 1, bytesRem - len, rest)
  {
    assert mapIdx < |m.sgl|;
    rest := Chunks(m.sgl, mapIdx + 1, 0, bytesRem - SegLen(m.sgl, mapIdx, off, bytesRem), Step(p));
    assert Prefix(m.sgl, mapIdx + 1) == Prefix(m.sgl, mapIdx) + m.sgl[mapIdx].dmaLen;
    W64Fits(m.sgl[mapIdx].dmaAddr + m.sgl[mapIdx].offset);
  }

  /** A positive multiple of step leaves a multiple of step when one step is taken off. */
  lemma {:induction false} WholeStep(rem: nat, step: nat)
    requires step > 0 && rem > 0 && rem % step == 0
    ensures step <= rem && (rem - step) % step == 0
  {
    if rem < step {
      SmallMod(rem, step);
    }
    AddMultiple(rem - step, 1, step);
  }

  lemma {:induction false} ChunksInBounds(p: Params, m: Mapping, cs: seq<Chunk>, step: nat)
    requires WellFormed(m) && Tiles(m.sgl, cs, p.mapOffset, p.bytesTotal, step)
    ensures ChunksFit(m, cs)
  {
    TilesInEntry(m.sgl, cs, p.mapOffset, p.bytesTotal, step);
    forall k | 0 <= k < |cs|
      ensures cs[k].len < TWO32 && InEntry(m.sgl, cs[k]) && ChunkAddr(m.sgl, cs[k]) < TWO64
    {
      ChunkAddrFits(m, cs[k]);
    }
  }

  // ----- Flags and parameters --------------------------------------------------------------------

  predicate EarlyDone(p: Params, k: nat, n: nat)
    requires p.channel < NUM_CHANNELS
  {
    !ChannelTable(p.channel).hasStreamRead && (p.transferMode == MODE_DEFAULT ==> k + 1 < n)
  }

  /** Descriptor d with the control flags of position k of n or-ed in. */
  function Flagged(p: Params, d: Descriptor, k: nat, n: nat): Descriptor
    requires p.channel < NUM_CHANNELS
  {
    d.(irq := d.irq || RaisesIrq(p, k, n), earlyDone := d.earlyDone || EarlyDone(p, k, n))
  }

  /** Descriptor d with the fields of fill_other_fields at position k. */
  function Numbered(p: Params, d: Descriptor, k: nat): Descriptor
    requires p.channel < NUM_CHANNELS
  {
    var ch := ChannelTable(p.channel);
    d.(sequence := W16(k), readStride := p.readStride, writeStride := p.writeStride,
       readBurst := if ch.hasStreamRead then 0 else p.burstCount,
       writeBurst := if ch.hasStreamWrite then 0 else p.burstCount)
  }

  method FillFlagsDefault(p: Params, descs: array<Descriptor>, n: nat)
    requires p.channel < NUM_CHANNELS && p.transferMode == MODE_DEFAULT && 0 < n <= descs.Length
    modifies descs
    ensures forall k | 0 <= k < n :: descs[k] == Flagged(p, old(descs[k]), k, n)
    ensures forall k | 0 <= k < n :: descs[k].irq <==> old(descs[k].irq) || k == n - 1
    ensures forall k | n <= k < descs.Length :: descs[k] == old(descs[k])
  {
    var ch := ChannelTable(p.channel);
    var i := 0;
    while i < n - 1
      invariant 0 <= i <= n - 1
      invariant forall k | 0 <= k < i :: descs[k] == Flagged(p, old(descs[k]), k, n)
      invariant forall k | i <= k < descs.Length :: descs[k] == old(descs[k])
    {
      descs[i] := descs[i].(earlyDone := descs[i].earlyDone || !ch.hasStreamRead);
      i := i + 1;
    }
    descs[n - 1] := descs[n - 1].(irq := true);
  }

  method FillFlagsStream(p: Params, descs: array<Descriptor>, n: nat)
    requires p.channel < NUM_CHANNELS && p.transferMode == MODE_STREAM && 0 < n <= descs.Length
    modifies descs
    ensures forall k | 0 <= k < n :: descs[k] == Flagged(p, old(descs[k]), k, n)
    ensures p.interruptInterval == 0 ==> forall k | 0 <= k < n :: descs[k].irq == old(descs[k].irq)
    ensures forall k | n <= k < descs.Length :: descs[k] == old(descs[k])
  {
    var ch := ChannelTable(p.channel);
    var i: nat := 0;
    while i < n
      invariant i <= n
      invariant forall k | 0 <= k < i :: descs[k] == Flagged(p, old(descs[k]), k, n)
      invariant forall k | i <= k < descs.Length :: descs[k] == old(descs[k])
    {
      if p.interruptInterval > 0 && i % p.interruptInterval == p.interruptInterval - 1 {
        descs[i] := descs[i].(irq := true);
      }
      descs[i] := descs[i].(earlyDone := descs[i].earlyDone || !ch.hasStreamRead);
      i := i + 1;
    }
  }

  method FillOtherFields(p: Params, descs: array<Descriptor>, n: nat)
    requires p.channel < NUM_CHANNELS && n <= descs.Length
    modifies descs
    ensures forall k | 0 <= k < n :: descs[k] == Numbered(p, old(descs[k]), k)
    ensures forall k | n <= k < descs.Length :: descs[k] == old(descs[k])
  {
    var ch := ChannelTable(p.channel);
    var i: nat := 0;
    while i < n
      invariant i <= n
      invariant forall k | 0 <= k < i :: descs[k] == Numbered(p, old(descs[k]), k)
      invariant forall k | i <= k < descs.Length :: descs[k] == old(descs[k])
    {
      descs[i] := descs[i].(sequence := W16(i), readStride := p.readStride, writeStride := p.writeStride,
                            readBurst := if ch.hasStreamRead then 0 else p.burstCount,
                            writeBurst := if ch.hasStreamWrite then 0 else p.burstCount);
      i := i + 1;
    }
  }

  method Clear(descs: array<Descriptor>, n: nat)
    requires n <= descs.Length
    modifies descs
    ensures forall k | 0 <= k < n :: descs[k] == ZERO_DESCRIPTOR
    ensures forall k | n <= k < descs.Length :: descs[k] == old(descs[k])
  {
    forall k | 0 <= k < n {
      descs[k] := ZERO_DESCRIPTOR;
    }
  }

  /** The three fills, one after the other, make a generated list out of zeroed descriptors. */
  lemma {:induction false} FillsGenerate(p: Params, m: Mapping, cs: seq<Chunk>, d: Descriptor, c: Chunk, k: nat, n: nat)
    requires p.channel < NUM_CHANNELS && c.idx < |m.sgl|
    requires c.len < TWO32 && ChunkAddr(m.sgl, c) < TWO64
    requires d == Numbered(p, Flagged(p, WithAddresses(p, m, ZERO_DESCRIPTOR, c), k, n), k)
    ensures Addresses(p, m, d, c) && Dressed(p, d, k, n)
  {
    WithAddressesAddresses(p, m, ZERO_DESCRIPTOR, c);
  }

  // ----- tpce_generate_descriptors -----------------------------------------------------------------

  datatype GenerateResult = DescBufTooSmall | Generated(count: nat)

  /** tpce_generate_descriptors: refuses exactly when the plan exceeds the buffer; otherwise the
      first descriptors of the buffer are the list generated for the request, and the others are
      untouched. */
  method Generate(p: Params, m: Mapping, descs: array<Descriptor>, maxDescriptors: u32)
    returns (res: GenerateResult)
    requires WellFormed(m) && Accepted(p, m) && Compilable(p, m)
    requires maxDescriptors <= descs.Length
    modifies descs
    ensures res == DescBufTooSmall <==> PlannedCount(p, m) > maxDescriptors
    ensures res == DescBufTooSmall ==> descs[..] == old(descs[..])
    ensures res.Generated? ==>
      && res.count == PlannedCount(p, m)
      && IsGenerated(p, m, descs[..res.count])
      && descs[res.count..] == old(descs[res.count..])
  {
    assert !Violates(TransferMode, p, m);
    CompilableChunks(p, m);
    var plan := CreatePlan(p, m);
    if plan.numDescriptors > maxDescriptors {
      return DescBufTooSmall;
    }
    if plan.numDescriptors == 0 {
      return Generated(0);
    }
    FillList(p, m, descs, plan);
    res := Generated(plan.numDescriptors);
  }

  /** The fills of tpce_generate_descriptors, on a list that fits the buffer. */
  method FillList(p: Params, m: Mapping, descs: array<Descriptor>, plan: Plan)
    requires p.channel < NUM_CHANNELS && (p.transferMode == MODE_DEFAULT || p.transferMode == MODE_STREAM)
    requires WellFormed(m) && Compilable(p, m) && |m.sgl| > 0
    requires (plan.startIdx, plan.startOff as nat) == Locate(m.sgl, 0, p.mapOffset)
    requires 0 < plan.numDescriptors == PlannedCount(p, m) <= descs.Length
    modifies descs
    ensures IsGenerated(p, m, descs[..plan.numDescriptors])
    ensures forall k | plan.numDescriptors <= k < descs.Length :: descs[k] == old(descs[k])
  {
    var n := plan.numDescriptors;
    ghost var cs := WindowChunks(m.sgl, p.mapOffset, p.bytesTotal, Step(p));
    Clear(descs, n);
    FillAddresses(p, m, descs, plan);
    FillFlags(p, descs, n);
    FillOtherFields(p, descs, n);
    forall k | 0 <= k < n
      ensures Addresses(p, m, descs[..n][k], cs[k]) && Dressed(p, descs[..n][k], k, n)
    {
      FillsGenerate(p, m, cs, descs[k], cs[k], k, n);
    }
  }

  method FillFlags(p: Params, descs: array<Descriptor>, n: nat)
    requires p.channel < NUM_CHANNELS && (p.transferMode == MODE_DEFAULT || p.transferMode == MODE_STREAM)
    requires 0 < n <= descs.Length
    modifies descs
    ensures forall k | 0 <= k < n :: descs[k] == Flagged(p, old(descs[k]), k, n)
    ensures forall k | n <= k < descs.Length :: descs[k] == old(descs[k])
  {
    if p.transferMode == MODE_DEFAULT {
      FillFlagsDefault(p, descs, n);
    } else {
      FillFlagsStream(p, descs, n);
    }
  }

  /** A generated list copies exactly the requested window: byte j of the device data and byte
      mapOffset + j of the scattered buffer, each once and in order, in either direction. */
  lemma {:induction false} GeneratedMeaning(p: Params, m: Mapping, ds: seq<Descriptor>)
    requires WellFormed(m) && p.channel < NUM_CHANNELS && Compilable(p, m)
    requires IsGenerated(p, m, ds)
    ensures ListMoves(Untranslated, p.direction, ChannelTable(p.channel), ds, 0) == RequestMoves(p, m)
  {
    CompilableChunks(p, m);
    ListMeaning(p, m, ds, WindowChunks(m.sgl, p.mapOffset, p.bytesTotal, Step(p)), Step(p));
  }

  /** In DEFAULT mode with flexible sizes, generation into the buffer that the driver sizes from
      the request alone never runs out of descriptors. */
  lemma {:induction false} DefaultModeNeverRunsOut(p: Params, m: Mapping, c: nat)
    requires WellFormed(m) && Accepted(p, m) && Compilable(p, m)
    requires p.bytesPerDescriptor == 0 && p.transferMode == MODE_DEFAULT
    requires Capacity.OnPageGrid(m.sgl, c)
    ensures PlannedCount(p, m) <= MaxDescriptorsNeeded(p) < 0x400_0000
    ensures PlannedCount(p, m) <= AllocNum(p)
  {
    CompilableChunks(p, m);
    Capacity.DefaultModeFits(m.sgl, p, c);
    FlexibleAllocNum(p);
  }

  /** With a fixed size, in either mode, the buffer suffices exactly if the descriptors needed, with
      the one spare one of the DEFAULT mode, are fewer than 2^26: from there on the size of the list
      in bytes wraps. */
  lemma {:induction false} FixedSizeFitsExact(p: Params, m: Mapping)
    requires WellFormed(m) && Accepted(p, m) && Compilable(p, m) && p.bytesPerDescriptor > 0
    ensures PlannedCount(p, m) <= AllocNum(p) <==> MaxDescriptorsNeeded(p) < 0x400_0000
  {
    WideSize(p, m);
    FixedCount(p, m);
    FixedSizeWraps(p, PlannedCount(p, m));
  }

  lemma {:induction false} WideSize(p: Params, m: Mapping)
    requires Accepted(p, m) && p.bytesPerDescriptor > 0
    ensures p.bytesPerDescriptor > 1
  {
    assert !Violates(BytesPerDesc, p, m);
  }

  lemma {:induction false} FixedCount(p: Params, m: Mapping)
    requires p.channel < NUM_CHANNELS && Compilable(p, m) && p.bytesPerDescriptor > 0
    ensures PlannedCount(p, m) == p.bytesTotal / p.bytesPerDescriptor
  {
    if |m.sgl| == 0 {
      SmallMod(0, p.bytesPerDescriptor);
    }
  }

  lemma {:induction false} FixedSizeWraps(p: Params, k: nat)
    requires p.bytesPerDescriptor > 1 && k == p.bytesTotal / p.bytesPerDescriptor
    ensures k <= AllocNum(p) <==> MaxDescriptorsNeeded(p) < 0x400_0000
  {
    AllocNumExact(p);
    FixedSizeNeeds(p, k);
    WrapsBelow(MaxDescriptorsNeeded(p), k);
  }

  lemma {:induction false} FixedSizeNeeds(p: Params, k: nat)
    requires p.bytesPerDescriptor > 1 && k == p.bytesTotal / p.bytesPerDescriptor
    ensures k <= MaxDescriptorsNeeded(p) <= k + 1
  {
    ShorterQuotient(p.bytesTotal, p.bytesPerDescriptor);
    W32Fits(k);
    if k + 1 < TWO32 {
      W32Fits(k + 1);
    }
  }

  lemma {:induction false} WrapsBelow(n: nat, k: nat)
    requires k <= n <= k + 1
    ensures k <= n % 0x400_0000 <==> n < 0x400_0000
  {
  }

  /** With a fixed size exactly the planned descriptors are needed, and in DEFAULT mode a spare one. */
  lemma {:induction false} NeededExact(p: Params, m: Mapping)
    requires WellFormed(m) && Accepted(p, m) && Compilable(p, m) && p.bytesPerDescriptor > 0
    ensures MaxDescriptorsNeeded(p) == PlannedCount(p, m) + (if p.transferMode == MODE_DEFAULT then 1 else 0)
  {
    WideSize(p, m);
    FixedCount(p, m);
    ShorterQuotient(p.bytesTotal, p.bytesPerDescriptor);
    W32Fits(PlannedCount(p, m) + 1);
  }

  lemma {:induction false} ShorterQuotient(x: nat, d: nat)
    requires d > 1
    ensures x > 0 ==> 0 <= x / d < x
  {
    assert x == (x / d) * d + x % d;
    if x > 0 && x / d >= x {
      MulMono(x, x / d, d);
      MulMono(2, d, x);
    }
  }

  /** So 512 MiB in descriptors of 8 bytes are accepted, and then refused for want of descriptors. */
  lemma {:induction false} WrappedListRefused() returns (p: Params, m: Mapping)
    ensures WellFormed(m) && Accepted(p, m) && Compilable(p, m) && p.transferMode == MODE_DEFAULT
    ensures PlannedCount(p, m) == 0x400_0000 && AllocNum(p) == 1
  {
    m := Mapping(0x2000_0000, FROM_DEVICE, [SgEntry(0x10_0000, 0x2000_0000, 0)]);
    p := Params(0, 0, 0x2000_0000, 8, 0, 0, 0, MODE_DEFAULT, FROM_DEVICE, 0, 0);
    OneEntry(p, m);
    AllocNumExact(p);
  }

  /** Requests for all of a single entry in descriptors of 8 bytes. */
  lemma {:induction false} OneEntry(p: Params, m: Mapping)
    requires m.sgl == [SgEntry(0x10_0000, m.size, 0)] && m.size > 0 && m.size % 8 == 0 && m.direction == FROM_DEVICE
    requires p == Params(0, 0, m.size, 8, 0, 0, 0, p.transferMode, FROM_DEVICE, 0, 0)
    requires p.transferMode == MODE_DEFAULT || p.transferMode == MODE_STREAM
    ensures WellFormed(m) && Accepted(p, m) && Compilable(p, m)
  {
    assert Prefix(m.sgl, 1) == Prefix(m.sgl, 0) + m.size;
    assert Locate(m.sgl, 0, 0) == (0, 0);
    EntriesDivide(m.sgl, 8);
    W32Fits(m.size);
    assert Accepted(p, m);
    assert SegLen(m.sgl, 0, 0, m.size) == m.size;
    assert WholeSegments(m.sgl, 0, 0, m.size, 8);
  }
}
