/** From a request to a transfer in flight: the driver's own path through compiler and start, the
    list that it publishes, and transfers that copy something else. */
module Transfers {
  import opened Words
  import opened Descriptors
  import opened Window
  import opened Meaning
  import opened Generator
  import opened PageTable
  import opened Translate
  import opened Publish
  import opened Space
  import opened Walk
  import opened EndToEnd
  import opened Overrun

  // ----- The driver's path -------------------------------------------------------------------------

  /** The buffers of a channel and the shared objects are different arrays. */
  predicate Apart(table: PageTable, info: DmaInfo, regs: Registers, desc: array<Descriptor>)
    reads info
  {
    && info.descDma as object != regs.translation && info.descDma as object != table.pages
    && table.pages as object != regs.translation && table.activeChannel as object != regs.translation
    && info.descDma as object != table.activeChannel && desc != info.descDma
  }

  /** Buffers of a channel for which tpce_dma_alloc_descriptors_mem has succeeded: it was asked for
      neither 0 bytes nor too many, and they have as many. They may be larger, from an earlier
      request. */
  predicate Allocated(p: Params, capacity: nat) {
    var total := W32(AllocBytes(p) + Terminator(p));
    0 < total <= 0x7FFF_FFFF && total <= DESC_BYTES * capacity
  }

  lemma {:induction false} AllocatedRoom(p: Params, capacity: nat)
    requires Allocated(p, capacity)
    ensures DESC_BYTES * AllocNum(p) + Terminator(p) <= 0x7FFF_FFFF
    ensures DESC_BYTES * AllocNum(p) + Terminator(p) <= DESC_BYTES * capacity
    ensures p.transferMode == MODE_STREAM ==> p.bytesTotal > 0
  {
    AllocNumExact(p);
    var n := AllocBytes(p);
    assert n == DESC_BYTES * AllocNum(p);
    if n + Terminator(p) < TWO32 {
      W32Fits(n + Terminator(p));
    }
    if p.bytesTotal == 0 && p.transferMode == MODE_STREAM {
      NothingNeeded(p);
    }
  }

  lemma {:induction false} NothingNeeded(p: Params)
    requires p.bytesTotal == 0 && p.transferMode == MODE_STREAM
    ensures AllocBytes(p) == 0
  {
    if p.bytesPerDescriptor > 0 {
      SmallMod(0, p.bytesPerDescriptor);
    }
    assert CeilDiv(0, PAGE_SIZE) == 0;
  }

  /** The list part of init_dma_info: compiled into the plain buffer, copied to the coherent one. The
      list may have as many descriptors as were asked for, also if the buffers have room for more. */
  method Compile(p: Params, m: Mapping, desc: array<Descriptor>, info: DmaInfo) returns (fits: bool)
    requires WellFormed(m) && Accepted(p, m) && Compilable(p, m)
    requires desc != info.descDma && desc.Length == info.descDma.Length && Allocated(p, desc.Length)
    modifies desc, info`params, info`descActive, info`descSize, info`state, info.descDma
    ensures fits <==> PlannedCount(p, m) <= AllocNum(p)
    ensures fits ==> info.Ready() && info.params == p && info.state == Initialized
    ensures fits ==>
      var n := info.descActive / DESC_BYTES;
      n <= info.descDma.Length && IsGenerated(p, m, info.descDma[..n])
  {
    AllocatedRoom(p, desc.Length);
    var generated := Generate(p, m, desc, AllocNum(p));
    fits := generated.Generated?;
    if fits {
      PlannedPositive(p, m);
      CopyList(p, desc, info, generated.count);
    }
  }

  /** The end of init_dma_info for a generated list of n descriptors. */
  method CopyList(p: Params, desc: array<Descriptor>, info: DmaInfo, n: nat)
    requires p.channel < NUM_CHANNELS && desc != info.descDma && desc.Length == info.descDma.Length
    requires 0 < DESC_BYTES * n + Terminator(p) <= 0x7FFF_FFFF
    requires DESC_BYTES * n + Terminator(p) <= DESC_BYTES * desc.Length
    modifies info`params, info`descActive, info`descSize, info`state, info.descDma
    ensures info.Ready() && info.params == p && info.state == Initialized
    ensures info.descActive / DESC_BYTES == n && info.descDma[..n] == desc[..n]
  {
    forall i | 0 <= i < n {
      info.descDma[i] := desc[i];
    }
    info.params, info.state := p, Initialized;
    info.descActive := n * DESC_BYTES;
    info.descSize := if p.transferMode == MODE_STREAM then n * DESC_BYTES else (n + 1) * DESC_BYTES;
  }

  lemma {:induction false} PlannedPositive(p: Params, m: Mapping)
    requires p.channel < NUM_CHANNELS && Compilable(p, m)
    ensures p.bytesTotal > 0 ==> PlannedCount(p, m) > 0
  {
    CompilableChunks(p, m);
  }

  /** init_dma_info and dma_start for a generated list. The transfer starts exactly if its list fits,
      it is from the device and the table has room, and then it is in flight. */
  method CompileAndStart(p: Params, m: Mapping, desc: array<Descriptor>, table: PageTable, info: DmaInfo,
                         regs: Registers)
    returns (fits: bool, started: bool, ghost ds: seq<Descriptor>, ghost f: Flight)
    requires WellFormed(m) && Accepted(p, m) && Compilable(p, m)
    requires table.Valid() && regs.translation.Length == SLOTS && Apart(table, info, regs, desc)
    requires NoDuplicates(table.View()) && PagesAligned(table.View())
    requires desc as object != table.pages && desc as object != table.activeChannel
    requires desc as object != regs.translation
    requires desc.Length == info.descDma.Length && Allocated(p, desc.Length) && info.descBusAddr % DESC_BYTES == 0
    modifies desc, info, info.descDma, table, table.pages, table.activeChannel, regs, regs.translation
    ensures table.Valid()
    ensures fits <==> PlannedCount(p, m) <= AllocNum(p)
    ensures fits ==> IsGenerated(p, m, ds)
    ensures started <==> fits && p.direction == FROM_DEVICE
                         && HasRoom(old(table.View()), p, old(info.descBusAddr), WriteAddrs(ds))
    ensures started ==>
      && f.JustStarted() && f.Valid() && f.p == p && f.m == m && f.ds == ds && f.bus == old(info.descBusAddr)
      && f.t0 == old(table.View()) && f.t == table.View()
      && f.regs0 == old(regs.translation[..]) && f.regs == regs.translation[..]
      && f.start == regs.nextDescLow && regs.nextDescHigh == 0
      && |f.list| <= info.descDma.Length && f.list == info.descDma[..|f.list|]
  {
    ds, f, started := [], *, false;
    ghost var t0, regs0 := table.View(), regs.translation[..];
    fits := Compile(p, m, desc, info);
    if !fits {
      return;
    }
    ds := info.descDma[..info.descActive / DESC_BYTES];
    var res := DmaStart(table, info, regs);
    started := res == Started;
    StartExact(t0, p, info.descBusAddr, WriteAddrs(ds));
    if started {
      f := Flight(p, m, ds, t0, regs0, info.descBusAddr, table.View(), regs.translation[..],
                  info.descDma[..info.descSize / DESC_BYTES], info.descBusAddrTranslated);
      StartPrograms(f);
      GeneratedFlight(f);
    }
  }

  lemma {:induction false} GeneratedFlight(f: Flight)
    requires f.Started() && WellFormed(f.m) && Accepted(f.p, f.m) && Compilable(f.p, f.m)
    requires IsGenerated(f.p, f.m, f.ds)
    ensures f.Valid()
  {
    GeneratedLengths(f.p, f.m, f.ds);
  }

  // ----- Every request with room can be in flight ------------------------------------------------------

  /** The list that the generator makes. */
  ghost function CompiledList(p: Params, m: Mapping): (ds: seq<Descriptor>)
    requires WellFormed(m) && p.channel < NUM_CHANNELS && Compilable(p, m)
  {
    var cs := WindowChunks(m.sgl, p.mapOffset, p.bytesTotal, Descriptors.Step(p));
    CompilableChunks(p, m);
    ChunksInBounds(p, m, cs, Descriptors.Step(p));
    seq(|cs|, k requires 0 <= k < |cs| =>
      Numbered(p, Flagged(p, WithAddresses(p, m, ZERO_DESCRIPTOR, cs[k]), k, |cs|), k))
  }

  lemma {:induction false} CompiledGenerated(p: Params, m: Mapping)
    requires WellFormed(m) && p.channel < NUM_CHANNELS && Compilable(p, m)
    ensures IsGenerated(p, m, CompiledList(p, m))
  {
    var cs, ds := WindowChunks(m.sgl, p.mapOffset, p.bytesTotal, Descriptors.Step(p)), CompiledList(p, m);
    CompilableChunks(p, m);
    ChunksInBounds(p, m, cs, Descriptors.Step(p));
    forall k | 0 <= k < |cs| ensures Addresses(p, m, ds[k], cs[k]) && Dressed(p, ds[k], k, |cs|) {
      FillsGenerate(p, m, cs, ds[k], cs[k], k, |cs|);
    }
  }

  /** The list that build_descriptor_links makes. */
  function LinkedList(p: Params, ds: seq<Descriptor>, slots: seq<int>, start: u32): seq<Descriptor>
    requires |slots| == |ds| && DescAddr(start, |ds| + 1) < TWO32
  {
    var n := if p.transferMode == MODE_STREAM then |ds| else |ds| + 1;
    seq(|ds|, k requires 0 <= k < |ds| =>
      Linked(Relocated(ds[k], slots[k]), if k + 1 == n then start else DescAddr(start, k + 1)))
    + if p.transferMode == MODE_STREAM then [] else [ZERO_DESCRIPTOR]
  }

  /** A list of a size that the allocation accepts. */
  predicate Fits(p: Params, n: nat) {
    DESC_BYTES * n + Terminator(p) <= 0x7FFF_FFFF
  }

  /** The transfer of a list for which the table has room. */
  lemma {:induction false} ListTakesOff(p: Params, m: Mapping, ds: seq<Descriptor>, t0: Table, regs0: seq<RegPair>,
                                        bus: u64) returns (f: Flight)
    requires p.channel < NUM_CHANNELS && p.direction == FROM_DEVICE && Fits(p, |ds|) && bus % DESC_BYTES == 0
    requires |regs0| == SLOTS && NoDuplicates(t0) && PagesAligned(t0) && HasRoom(t0, p, bus, WriteAddrs(ds))
    ensures f.JustStarted() && f.Started() && f.p == p && f.m == m && f.ds == ds && f.t0 == t0 && f.bus == bus
    ensures f.regs == Programmed(regs0, f.t, p.channel) && f.regs0 == regs0
  {
    StartExact(t0, p, bus, WriteAddrs(ds));
    var s := Run(ListTable(t0, p.channel, bus), p.channel, WriteAddrs(ds));
    var start: u32 := SlotAddr(bus, FirstFree(t0, 0));
    SlotAddrBelow(bus, FirstFree(t0, 0));
    var list := LinkedList(p, ds, s.slots, start);
    f := Flight(p, m, ds, t0, regs0, bus, s.table, Programmed(regs0, s.table, p.channel), list, start);
    LinkedIsList(p, ds, s.slots, start);
    StartPrograms(f);
  }

  lemma {:induction false} SlotAddrBelow(a: u64, slot: int)
    ensures SlotAddr(a, slot) < 0x40_0000
  {
  }

  /** The transfer of a request that starts. */
  lemma {:induction false} TakesOff(p: Params, m: Mapping, t0: Table, regs0: seq<RegPair>, bus: u64) returns (f: Flight)
    requires WellFormed(m) && Accepted(p, m) && Compilable(p, m) && p.direction == FROM_DEVICE
    requires |regs0| == SLOTS && NoDuplicates(t0) && PagesAligned(t0) && bus % DESC_BYTES == 0
    requires HasRoom(t0, p, bus, WriteAddrs(CompiledList(p, m))) && Fits(p, |CompiledList(p, m)|)
    ensures f.JustStarted() && f.Valid()
    ensures f.p == p && f.m == m && f.ds == CompiledList(p, m) && f.t0 == t0 && f.bus == bus
    ensures f.regs == Programmed(regs0, f.t, p.channel) && f.regs0 == regs0
  {
    var ds := CompiledList(p, m);
    CompiledGenerated(p, m);
    GeneratedLengths(p, m, ds);
    f := ListTakesOff(p, m, ds, t0, regs0, bus);
  }

  lemma {:induction false} LinkedIsList(p: Params, ds: seq<Descriptor>, slots: seq<int>, start: u32)
    requires |slots| == |ds| && DescAddr(start, |ds| + 1) < TWO32
    ensures IsList(p, ds, slots, LinkedList(p, ds, slots, start), start)
  {
  }

  // ----- Transfers that copy something else ------------------------------------------------------------------

  const EMPTY_TABLE: Table := seq(SLOTS, _ => Free)
  const ZERO_REGS: seq<RegPair> := seq(SLOTS, _ => RegPair(0, 0))
  const LIST_BUS: u64 := 0x30_0000

  /** A flexible request for all of a mapping, from memory behind channel 0. */
  function WholeMapping(size: u32): Params {
    Params(0, 0, size, 0, 0, 0, 0, MODE_DEFAULT, FROM_DEVICE, 0, 0)
  }

  lemma {:induction false} WholeAccepted(m: Mapping)
    requires m.direction == FROM_DEVICE && m.size % 8 == 0
    ensures Accepted(WholeMapping(m.size), m)
  {
    W32Fits(m.size);
  }

  lemma {:induction false} HugePlan(m: Mapping)
    requires m.direction == FROM_DEVICE && m.size == 0xFFFF_FFF8 && m.sgl == [SgEntry(0x10_0000, 0xFFFF_FFF8, 0)]
    ensures WellFormed(m) && Accepted(WholeMapping(m.size), m)
    ensures PlannedCount(WholeMapping(m.size), m) == 0 < |WindowChunks(m.sgl, 0, m.size, 0x4_0000)|
  {
    HugeSegment(m.sgl);
    HugeAccepted(m);
  }

  lemma {:induction false} HugeAccepted(m: Mapping)
    requires m.direction == FROM_DEVICE && m.size == 0xFFFF_FFF8 && m.sgl == [SgEntry(0x10_0000, 0xFFFF_FFF8, 0)]
    ensures WellFormed(m) && Accepted(WholeMapping(m.size), m)
  {
    assert Prefix(m.sgl, 1) == Prefix(m.sgl, 0) + m.size;
    WholeAccepted(m);
  }

  /** An accepted request for a single entry of nearly 4 GiB is planned as no descriptor at all. */
  lemma {:induction false} PlanTooSmall() returns (m: Mapping)
    ensures WellFormed(m) && m.size > 0 && Accepted(WholeMapping(m.size), m)
    ensures PlannedCount(WholeMapping(m.size), m) == 0 < |WindowChunks(m.sgl, 0, m.size, 0x4_0000)|
  {
    m := Mapping(0xFFFF_FFF8, FROM_DEVICE, [SgEntry(0x10_0000, 0xFFFF_FFF8, 0)]);
    HugePlan(m);
  }

  /** One entry across the boundary of a 256 KiB page. */
  const CROSSING := Mapping(16, FROM_DEVICE, [SgEntry(0x13_FFF8, 16, 0)])

  lemma {:induction false} CrossingCompiles()
    ensures WellFormed(CROSSING) && Accepted(WholeMapping(16), CROSSING) && Compilable(WholeMapping(16), CROSSING)
    ensures |CompiledList(WholeMapping(16), CROSSING)| == 1
    ensures var d := CompiledList(WholeMapping(16), CROSSING)[0]; d.WriteAddr() == 0x13_FFF8 && d.length == 16
  {
    var sgl := CROSSING.sgl;
    assert Prefix(sgl, 1) == Prefix(sgl, 0) + 16;
    WholeAccepted(CROSSING);
    assert Split(0, 0, 16, 0x4_0000) == [Chunk(0, 0, 16)] + Split(0, 16, 0, 0x4_0000);
    assert Chunks(sgl, 0, 0, 16, 0x4_0000) == Split(0, 0, 16, 0x4_0000) + Chunks(sgl, 1, 0, 0, 0x4_0000);
    assert WindowChunks(sgl, 0, 16, 0x4_0000) == [Chunk(0, 0, 16)];
    CompiledGenerated(WholeMapping(16), CROSSING);
    assert Addresses(WholeMapping(16), CROSSING, CompiledList(WholeMapping(16), CROSSING)[0], Chunk(0, 0, 16));
  }

  /** Nothing is in use. */
  lemma {:induction false} EmptyRoom(p: Params, addrs: seq<u64>)
    requires |addrs| < SLOTS
    ensures HasRoom(EMPTY_TABLE, p, LIST_BUS, addrs)
    ensures NoDuplicates(EMPTY_TABLE) && PagesAligned(EMPTY_TABLE) && PagesOf(EMPTY_TABLE, p.channel) == {}
  {
    AllFree(EMPTY_TABLE, SLOTS);
    NewPagesFew(PagesOf(EMPTY_TABLE, p.channel) + {PageBase(LIST_BUS)}, Pages(addrs), |addrs|);
  }

  /** A register of a transfer that started alone selects page 0, the page of the list, or a page of
      the data. */
  lemma {:induction false} RegistersAlone(f: Flight, i: nat)
    requires f.JustStarted() && f.t0 == EMPTY_TABLE && f.regs0 == ZERO_REGS && f.bus == LIST_BUS && i < SLOTS
    ensures |f.regs| == SLOTS
    ensures var b := RegBase(f.regs[i]); b == 0 || b == LIST_BUS || b in f.DataPages()
  {
    ProgrammedBase(f.regs0, f.t, f.p.channel, i);
    if f.t[i].Used? && f.t[i].channel == f.p.channel {
      AlignedAlone(f, i);
      PagesAlone(f.t0, f.p, f.bus, WriteAddrs(f.ds), f.t, i);
    }
  }

  lemma {:induction false} ProgrammedBase(regs0: seq<RegPair>, t: Table, channel: u8, i: nat)
    requires |regs0| == SLOTS && i < SLOTS
    ensures t[i].Used? && t[i].channel == channel && t[i].page % WINDOW == 0 ==>
              RegBase(Programmed(regs0, t, channel)[i]) == t[i].page
    ensures !(t[i].Used? && t[i].channel == channel) ==> Programmed(regs0, t, channel)[i] == regs0[i]
  {
    if t[i].Used? && t[i].page % WINDOW == 0 {
      RegPairSelects(t[i].page);
    }
  }

  lemma {:induction false} PagesAlone(t0: Table, p: Params, bus: u64, addrs: seq<u64>, t: Table, i: nat)
    requires t0 == EMPTY_TABLE && bus == LIST_BUS && p.channel < NUM_CHANNELS && FirstFree(t0, 0) != -1 && i < SLOTS
    requires var s := Run(ListTable(t0, p.channel, bus), p.channel, addrs); !s.full && t == s.table
    requires t[i].Used? && t[i].channel == p.channel
    ensures t[i].page == LIST_BUS || t[i].page in Pages(addrs)
  {
    var c, t1 := p.channel, ListTable(t0, p.channel, bus);
    ListTablePages(t0, c, bus);
    assert PagesOf(t0, c) == {} && PageBase(bus) == LIST_BUS;
    RunPages(t1, c, addrs, i);
  }

  /** A page of the channel after a run was there before it, or is one of those visited. */
  lemma {:induction false} RunPages(t1: Table, c: u8, addrs: seq<u64>, i: nat)
    requires c != ANY_CHANNEL && i < SLOTS && !Run(t1, c, addrs).full
    requires var t := Run(t1, c, addrs).table; t[i].Used? && t[i].channel == c
    ensures var page := Run(t1, c, addrs).table[i].page; page in PagesOf(t1, c) || page in Pages(addrs)
  {
    CountAll(t1, c, addrs, |addrs|);
    NewPagesFew(PagesOf(t1, c), Pages(addrs), |addrs|);
    assert Run(t1, c, addrs).table[i].page in PagesOf(Run(t1, c, addrs).table, c);
  }

  /** The pages of a transfer that started alone are aligned. */
  lemma {:induction false} AlignedAlone(f: Flight, i: nat)
    requires f.JustStarted() && i < SLOTS && f.t[i].Used?
    ensures f.t[i].page % WINDOW == 0
  {
    ListTableFacts(f.p, f.t0, f.bus);
    RunAligned(ListTable(f.t0, f.p.channel, f.bus), f.p.channel, WriteAddrs(f.ds), |f.ds|);
  }

  /** A transfer in DEFAULT mode whose data fails the test never copies its request, however long the
      prefetcher runs. */
  ghost predicate Miscopies(f: Flight)
    requires f.Valid()
  {
    forall fuel: nat, mem | fuel > |f.ds| && HoldsList(mem, f.bus, f.list) ::
      f.Copied(mem, fuel, 0) != RequestMoves(f.p, f.m)
  }

  lemma {:induction false} ShortListContained(f: Flight)
    requires |f.regs| == SLOTS && f.bus % WINDOW == 0 && |f.list| <= 4096
    ensures f.ListContained()
  {
    assert Spanned(f.bus, DESC_BYTES * |f.list|) <= 1;
  }

  lemma {:induction false} UnsafeMiscopies(f: Flight)
    requires f.Valid() && f.NoZeroPage() && f.p.transferMode != MODE_STREAM
    requires |f.Slots()| == |f.ds| && !f.Safe() && f.bus == LIST_BUS && |f.ds| < 4096
    ensures Miscopies(f)
  {
    ListShape(f);
    ShortListContained(f);
    GeneratedMeaning(f.p, f.m, f.ds);
    forall fuel: nat, mem | fuel > |f.ds| && HoldsList(mem, f.bus, f.list)
      ensures f.Copied(mem, fuel, 0) != RequestMoves(f.p, f.m)
    {
      ContainedListExact(f, mem, fuel);
    }
  }

  /** A transfer, alone, of one descriptor across the boundary of its page is not contained. */
  lemma {:induction false} CrossingUncontained(f: Flight)
    requires f.JustStarted() && f.Valid() && f.t0 == EMPTY_TABLE && f.regs0 == ZERO_REGS && f.bus == LIST_BUS
    requires |f.ds| == 1 && f.ds[0].WriteAddr() == 0x13_FFF8 && f.ds[0].length == 16
    ensures f.NoZeroPage() && CacheSafe(f.Held(), f.DataPages())
    ensures |f.Slots()| == 1 && !f.Contained()
  {
    assert f.DataPages() == [0x10_0000];
    RunsAreSafe(f.Held(), f.DataPages());
    SlotsUsed(f);
    var slot := f.Slots()[0];
    if 0 <= slot && slot + 1 < SLOTS {
      RegistersAlone(f, slot + 1);
    }
    NotContinued(f.regs, slot);
  }

  lemma {:induction false} NotContinued(regs: seq<RegPair>, slot: int)
    requires |regs| == SLOTS
    requires 0 <= slot && slot + 1 < SLOTS ==> RegBase(regs[slot + 1]) in {0, 0x30_0000, 0x10_0000}
    ensures !Continues(regs, 0x13_FFF8, slot, 16)
  {
    assert Spanned(0x13_FFF8, 16) == 2;
    assert !Selects(regs, 0x13_FFF8, slot, 1);
  }

  lemma {:induction false} CrossingFlight(p: Params, m: Mapping) returns (f: Flight)
    requires WellFormed(m) && Accepted(p, m) && Compilable(p, m)
    requires p.direction == FROM_DEVICE && p.transferMode != MODE_STREAM && |CompiledList(p, m)| == 1
    requires CompiledList(p, m)[0].WriteAddr() == 0x13_FFF8 && CompiledList(p, m)[0].length == 16
    ensures f.Valid() && f.p == p && f.m == m
    ensures f.NoZeroPage() && CacheSafe(f.Held(), f.DataPages()) && Miscopies(f)
  {
    EmptyRoom(p, WriteAddrs(CompiledList(p, m)));
    f := TakesOff(p, m, EMPTY_TABLE, ZERO_REGS, LIST_BUS);
    CrossingUncontained(f);
    UnsafeMiscopies(f);
  }

  /** The crossing request copies something else, although its one page is visited safely: its last
      eight bytes go wherever the next slot points. */
  lemma {:induction false} CrossingMiscopies() returns (f: Flight)
    ensures f.Valid() && f.p == WholeMapping(16) && f.m == CROSSING
    ensures f.NoZeroPage() && CacheSafe(f.Held(), f.DataPages()) && Miscopies(f)
  {
    CrossingCompiles();
    f := CrossingFlight(WholeMapping(16), CROSSING);
  }

  /** Four entries of 8 bytes in two pages, in turn. */
  predicate Alternating(m: Mapping) {
    && m.size == 32 && m.direction == FROM_DEVICE && |m.sgl| == 4
    && m.sgl[0] == SgEntry(0x10_0000, 8, 0) && m.sgl[1] == SgEntry(0x20_0000, 8, 0)
    && m.sgl[2] == SgEntry(0x10_0008, 8, 0) && m.sgl[3] == SgEntry(0x20_0008, 8, 0)
  }

  lemma {:induction false} EightByteEntry(sgl: seq<SgEntry>, i: nat, rem: nat)
    requires i < |sgl| && sgl[i].dmaLen == 8 && rem >= 8
    ensures Chunks(sgl, i, 0, rem, 0x4_0000) == [Chunk(i, 0, 8)] + Chunks(sgl, i + 1, 0, rem - 8, 0x4_0000)
    ensures Prefix(sgl, i + 1) == Prefix(sgl, i) + 8
    ensures SegmentsBelow(sgl, i + 1, 0, rem - 8, 0xFFFC_0000) ==> SegmentsBelow(sgl, i, 0, rem, 0xFFFC_0000)
  {
    assert Split(i, 0, 8, 0x4_0000) == [Chunk(i, 0, 8)] + Split(i, 8, 0, 0x4_0000);
  }

  /** The chunks of such a mapping. */
  function FourChunks(): seq<Chunk> {
    [Chunk(0, 0, 8), Chunk(1, 0, 8), Chunk(2, 0, 8), Chunk(3, 0, 8)]
  }

  lemma {:induction false} AlternatingChunks(m: Mapping)
    requires Alternating(m)
    ensures WindowChunks(m.sgl, 0, 32, 0x4_0000) == FourChunks()
    ensures WellFormed(m) && Accepted(WholeMapping(32), m) && Compilable(WholeMapping(32), m)
  {
    var sgl, n := m.sgl, |m.sgl|;
    assert Chunks(sgl, n, 0, 0, 0x4_0000) == [] && SegmentsBelow(sgl, n, 0, 0, 0xFFFC_0000);
    EightByteEntry(sgl, n - 1, 8);
    EightByteEntry(sgl, n - 2, 16);
    EightByteEntry(sgl, n - 3, 24);
    EightByteEntry(sgl, n - 4, 32);
    assert Prefix(sgl, n - 4) == 0;
    WholeAccepted(m);
  }

  lemma {:induction false} AddressOf(p: Params, m: Mapping, cs: seq<Chunk>, k: nat)
    requires WellFormed(m) && p.channel < NUM_CHANNELS && Compilable(p, m) && p.direction == FROM_DEVICE
    requires cs == WindowChunks(m.sgl, p.mapOffset, p.bytesTotal, Descriptors.Step(p)) && k < |cs|
    ensures |CompiledList(p, m)| == |cs| && cs[k].idx < |m.sgl|
    ensures CompiledList(p, m)[k].WriteAddr() == ChunkAddr(m.sgl, cs[k])
  {
    CompiledGenerated(p, m);
    assert Addresses(p, m, CompiledList(p, m)[k], cs[k]);
  }

  function FourAddresses(): seq<u64> {
    [0x10_0000, 0x20_0000, 0x10_0008, 0x20_0008]
  }

  function FourPages(): seq<u64> {
    [0x10_0000, 0x20_0000, 0x10_0000, 0x20_0000]
  }

  lemma {:induction false} AlternatingAddr(m: Mapping, k: nat)
    requires Alternating(m) && k < 4
    ensures ChunkAddr(m.sgl, FourChunks()[k]) == FourAddresses()[k] && PageBase(FourAddresses()[k]) == FourPages()[k]
  {
  }

  lemma {:induction false} AlternatingPages(p: Params, m: Mapping)
    requires Alternating(m) && WellFormed(m) && p.channel < NUM_CHANNELS && Compilable(p, m)
    requires p.direction == FROM_DEVICE
    requires WindowChunks(m.sgl, p.mapOffset, p.bytesTotal, Descriptors.Step(p)) == FourChunks()
    ensures |CompiledList(p, m)| == 4 && Pages(WriteAddrs(CompiledList(p, m))) == FourPages()
  {
    var cs := FourChunks();
    AddressOf(p, m, cs, 0);
    var pages := Pages(WriteAddrs(CompiledList(p, m)));
    forall k | 0 <= k < 4 ensures pages[k] == FourPages()[k] {
      AddressOf(p, m, cs, k);
      AlternatingAddr(m, k);
    }
  }

  lemma {:induction false} AlternationUnsafeFlight(f: Flight)
    requires f.Valid() && f.t0 == EMPTY_TABLE && f.bus == LIST_BUS
    requires f.DataPages() == FourPages()
    ensures f.NoZeroPage() && |f.Slots()| == |f.ds| && !f.Safe()
  {
    SlotsUsed(f);
    AlternationUnsafe(f.Held(), 0x10_0000, 0x20_0000);
    forall k | 0 <= k < |f.ds| ensures PageBase(f.ds[k].WriteAddr()) != 0 {
      assert f.DataPages()[k] == PageBase(f.ds[k].WriteAddr());
    }
  }

  lemma {:induction false} AlternatingFlight(p: Params, m: Mapping) returns (f: Flight)
    requires WellFormed(m) && Accepted(p, m) && Compilable(p, m)
    requires p.direction == FROM_DEVICE && p.transferMode != MODE_STREAM && |CompiledList(p, m)| == 4
    requires Pages(WriteAddrs(CompiledList(p, m))) == FourPages()
    ensures f.Valid() && f.p == p && f.m == m && f.DataPages() == FourPages() && Miscopies(f)
  {
    EmptyRoom(p, WriteAddrs(CompiledList(p, m)));
    f := TakesOff(p, m, EMPTY_TABLE, ZERO_REGS, LIST_BUS);
    AlternationUnsafeFlight(f);
    UnsafeMiscopies(f);
  }

  /** A request over pages that are visited in turn starts and copies something else. */
  lemma {:induction false} AlternationMiscopies() returns (f: Flight)
    ensures f.Valid() && f.p == WholeMapping(32) && Alternating(f.m) && f.DataPages() == FourPages() && Miscopies(f)
  {
    var m := AlternatingExists();
    AlternatingChunks(m);
    AlternatingPages(WholeMapping(32), m);
    f := AlternatingFlight(WholeMapping(32), m);
  }

  lemma {:induction false} AlternatingExists() returns (m: Mapping)
    ensures Alternating(m)
  {
    m := Mapping(32, FROM_DEVICE, [SgEntry(0x10_0000, 8, 0), SgEntry(0x20_0000, 8, 0),
                                   SgEntry(0x10_0008, 8, 0), SgEntry(0x20_0008, 8, 0)]);
  }
}
