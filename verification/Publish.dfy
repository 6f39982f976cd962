/** Publication of a descriptor list: links, translation registers, start of the controller. */
module Publish {
  import opened Words
  import opened Bits
  import opened Descriptors
  import opened PageTable
  import opened Translate

  /** tpce_dma_channel_state */
  datatype ChannelState = Idle | Initialized | Running | Complete | Error

  /** One pair of address translation registers of the PCIe core. */
  datatype RegPair = RegPair(lo: u32, hi: u32)

  /** The translation registers and the prefetcher's next-descriptor register of one channel. */
  class Registers {
    const translation: array<RegPair>
    var nextDescLow: u32
    var nextDescHigh: u32

    constructor ()
      ensures fresh(translation) && translation.Length == SLOTS
    {
      translation := new RegPair[SLOTS](_ => RegPair(0, 0));
      nextDescLow, nextDescHigh := 0, 0;
    }
  }

  /** The part of tpce_dma_info that starting a transfer uses. Sizes are in bytes. */
  class DmaInfo {
    var params: Params
    var descDma: array<Descriptor>
    var descBusAddr: u64
    var descBusAddrTranslated: u32
    var descSize: nat
    var descActive: nat
    var state: ChannelState

    constructor (descDma: array<Descriptor>, params: Params)
      ensures this.descDma == descDma && this.params == params && state == Idle
    {
      this.descDma, this.params := descDma, params;
      descBusAddr, descBusAddrTranslated, descSize, descActive, state := 0, 0, 0, 0, Idle;
    }

    predicate Streaming()
      reads this
    {
      params.transferMode == MODE_STREAM
    }

    /** What init_dma_info leaves behind: a list that fits its buffer, with room for a terminator
        except in STREAM mode, of a size that tpce_dma_alloc_descriptors_mem accepts. */
    predicate Ready()
      reads this
    {
      && params.channel < NUM_CHANNELS
      && descActive % DESC_BYTES == 0
      && descSize == (if Streaming() then descActive else descActive + DESC_BYTES)
      && DESC_BYTES <= descSize <= descDma.Length * DESC_BYTES
      && descSize <= 0x7FFF_FFFF
    }
  }

  // ----- Links -----------------------------------------------------------------------------------

  /** Address of descriptor k of the list at start. */
  function DescAddr(start: nat, k: nat): nat {
    start + DESC_BYTES * k
  }

  /** A descriptor handed to the hardware, with its successor. */
  function Linked(d: Descriptor, next: u32): Descriptor {
    d.(nextLow := next, nextHigh := 0, ownedByHw := true)
  }

  /** build_descriptor_links on the n descriptors of the list. */
  method BuildLinks(descs: array<Descriptor>, n: nat, start: u32, stream: bool)
    requires 0 < n <= descs.Length && DescAddr(start, n) < TWO32
    modifies descs
    ensures forall k | 0 <= k < n - 1 :: descs[k] == Linked(old(descs[k]), DescAddr(start, k + 1))
    ensures descs[n - 1] == if stream then Linked(old(descs[n - 1]), start) else ZERO_DESCRIPTOR
    ensures forall k | n <= k < descs.Length :: descs[k] == old(descs[k])
  {
    var next: u32 := start + DESC_BYTES;
    var i := 0;
    while i < n - 1
      invariant 0 <= i <= n - 1 && next == DescAddr(start, i + 1)
      invariant forall k | 0 <= k < i :: descs[k] == Linked(old(descs[k]), DescAddr(start, k + 1))
      invariant forall k | i <= k < descs.Length :: descs[k] == old(descs[k])
    {
      descs[i] := descs[i].(nextLow := next, nextHigh := 0);
      descs[i] := descs[i].(ownedByHw := true);
      next := W32(next + DESC_BYTES);
      i := i + 1;
    }
    if stream {
      descs[n - 1] := descs[n - 1].(nextLow := start, nextHigh := 0);
      descs[n - 1] := descs[n - 1].(ownedByHw := true);
    } else {
      descs[n - 1] := ZERO_DESCRIPTOR;
    }
  }

  // ----- Translation registers -----------------------------------------------------------------------

  /** The base address that a register pair selects; the two low bits of lo are the space. */
  function RegBase(r: RegPair): int {
    r.hi * TWO32 + (r.lo - r.lo % 0x4_0000)
  }

  /** The pair that the driver writes for a page, with the 64-bit space bit. */
  function RegPairFor(page: u64): RegPair {
    Pow2Values();
    AndFits(W32(page), MASK32);
    OrFits(And(W32(page), MASK32), 1, 32);
    RegPair(Or(And(W32(page), MASK32), 1), Hi32(page))
  }

  lemma {:induction false} LowHalfAligned(page: u64)
    requires page % WINDOW == 0
    ensures W32(page) % WINDOW == 0 && W32(page) % 2 == 0
  {
    SplitHalves(page);
    var k := page / WINDOW - Hi32(page) * 0x4000;
    assert W32(page) == k * WINDOW;
    DivModUnique(W32(page), k, 0, WINDOW);
    DivModUnique(W32(page), k * 0x2_0000, 0, 2);
  }

  /** The low register: the page with the space bit. */
  lemma {:induction false} LowRegister(lo: u32)
    requires lo % WINDOW == 0 && lo % 2 == 0
    ensures Or(And(lo, MASK32), 1) == lo + 1
  {
    Pow2Values();
    AndHighMask(lo, 32, 18);
    OrShifted(lo / 2, 1, 1);
    assert Pow2(1) == 2 && (lo / 2) * 2 == lo;
  }

  /** A programmed pair selects exactly its page, in the space of 64-bit addresses. */
  lemma {:induction false} RegPairSelects(page: u64)
    requires page % WINDOW == 0
    ensures RegBase(RegPairFor(page)) == page && RegPairFor(page).lo % 4 == 1
  {
    var lo := W32(page);
    SplitHalves(page);
    LowHalfAligned(page);
    LowRegister(lo);
    DivModUnique(lo + 1, lo / 0x4_0000, 1, 0x4_0000);
  }

  /** The registers after programming the slots of one channel; those of others are untouched. */
  function Programmed(regs: seq<RegPair>, t: Table, channel: u8): seq<RegPair>
    requires |regs| == SLOTS
  {
    seq(SLOTS, i requires 0 <= i < SLOTS =>
      if t[i].Used? && t[i].channel == channel then RegPairFor(t[i].page) else regs[i])
  }

  /** set_page_translation_regs */
  method SetTranslationRegs(table: PageTable, channel: u8, regs: Registers)
    requires table.Valid() && regs.translation.Length == SLOTS
    modifies regs.translation
    ensures regs.translation[..] == Programmed(old(regs.translation[..]), table.View(), channel)
  {
    ghost var was := regs.translation[..];
    var i := 0;
    while i < SLOTS
      invariant 0 <= i <= SLOTS
      invariant forall k | 0 <= k < i :: regs.translation[k] == Programmed(was, table.View(), channel)[k]
      invariant forall k | i <= k < SLOTS :: regs.translation[k] == was[k]
    {
      assert table.View()[i].Used? <==> BitOf(table.usedMask, i);
      TestBit(table.usedMask, i);
      if And(table.usedMask, Pow2(i)) != 0 && table.activeChannel[i] == channel {
        var page := table.pages[i];
        regs.translation[i] := RegPairFor(page);
      }
      i := i + 1;
    }
  }

  // ----- Starting a transfer ----------------------------------------------------------------------------

  datatype StartResult = Started | BadState | NoSpaceForList | RwFailed(res: RwResult)
  {
    /** The state of the channel after a start from INITIALIZED. */
    function StateAfter(): ChannelState {
      match this
      case Started => Running
      case RwFailed(_) => Error
      case _ => Initialized
    }
  }

  /** The table once the list at bus has its slot. */
  function ListTable(t0: Table, channel: u8, bus: u64): Table
    requires FirstFree(t0, 0) != -1
  {
    t0[FirstFree(t0, 0) := Used(PageBase(bus), channel)]
  }

  lemma {:induction false} ListTablePages(t0: Table, channel: u8, bus: u64)
    requires FirstFree(t0, 0) != -1
    ensures PagesOf(ListTable(t0, channel, bus), channel) == PagesOf(t0, channel) + {PageBase(bus)}
  {
    FirstFreeExact(t0, 0);
    var t1, slot := ListTable(t0, channel, bus), FirstFree(t0, 0);
    assert t1[slot].page == PageBase(bus);
    forall q | q in PagesOf(t0, channel) ensures q in PagesOf(t1, channel) {
      var i :| 0 <= i < SLOTS && t0[i].Used? && t0[i].channel == channel && t0[i].page == q;
      assert t1[i] == t0[i];
    }
  }

  /** What dma_start does to the table, and the state of the channel afterwards, for a list at bus
      whose descriptors have the given addresses. */
  function StartTable(t: Table, p: Params, bus: u64, addrs: seq<u64>): (Table, ChannelState) {
    if FirstFree(t, 0) == -1 then (t, Initialized)
    else
      var s := Run(ListTable(t, p.channel, bus), p.channel, addrs);
      if p.direction != FROM_DEVICE || s.full then (FreeSlots(t, p.channel), Error)
      else (s.table, Running)
  }

  /** translate_descriptor_link_addr */
  method TranslateLink(table: PageTable, channel: u8, bus: u64) returns (ok: bool, translated: u32)
    requires table.Valid() && channel < NUM_CHANNELS
    modifies table, table.pages, table.activeChannel
    ensures table.Valid()
    ensures ok <==> FirstFree(old(table.View()), 0) != -1
    ensures !ok ==> table.View() == old(table.View())
    ensures ok ==> table.View() == ListTable(old(table.View()), channel, bus)
                   && translated == SlotAddr(bus, FirstFree(old(table.View()), 0))
  {
    MaskedPage(bus);
    var slot := table.Alloc(And(bus, MASK64), channel);
    if slot == -1 {
      return false, 0;
    }
    ok, translated := true, TranslateAddr(bus, slot);
  }

  /** The first half of dma_start: both translations, and the cleanup after a failure of the
      second. */
  method StartOnTable(table: PageTable, p: Params, bus: u64, descs: array<Descriptor>, active: nat)
    returns (res: StartResult, start: u32)
    requires table.Valid() && p.channel < NUM_CHANNELS && active <= descs.Length
    requires descs as object != table.pages && descs as object != table.activeChannel
    modifies table, table.pages, table.activeChannel, descs
    ensures table.Valid() && res != BadState
    ensures (table.View(), res.StateAfter()) == StartTable(old(table.View()), p, bus, WriteAddrs(old(descs[..active])))
    ensures res == Started ==>
      var t0 := old(table.View());
      && FirstFree(t0, 0) != -1 && start == SlotAddr(bus, FirstFree(t0, 0))
      && (var s := Run(ListTable(t0, p.channel, bus), p.channel, WriteAddrs(old(descs[..active])));
          !s.full && RelocatedTo(descs[..], old(descs[..]), s.slots, active))
  {
    ghost var t0, addrs := table.View(), WriteAddrs(descs[..active]);
    var linked: bool;
    linked, start := TranslateLink(table, p.channel, bus);
    if !linked {
      return NoSpaceForList, 0;
    }
    ghost var t1 := table.View();
    var rw := TranslateRw(table, descs, active, p);
    if !rw.Translated? {
      AfterFailedRw(t0, t1, FirstFree(t0, 0), p, addrs, table.View());
      table.FreeByChannel(p.channel);
      return RwFailed(rw), start;
    }
    res := Started;
  }

  /** The list at desc_bus_addr in a slot of its own, relocated as the run of the translation says, and
      linked, in terms of the table t0 and the active descriptors ds before the start. */
  ghost predicate Placed(p: Params, t0: Table, ds: seq<Descriptor>, bus: u64, t: Table, list: seq<Descriptor>,
                         start: u32)
  {
    FirstFree(t0, 0) != -1 &&
    var s := Run(ListTable(t0, p.channel, bus), p.channel, WriteAddrs(ds));
    && p.direction == FROM_DEVICE && !s.full && t == s.table
    && start == SlotAddr(bus, FirstFree(t0, 0))
    && IsList(p, ds, s.slots, list, start)
  }

  /** What a successful start leaves behind, with the registers regs0 before it: the list, and its slots
      programmed. */
  ghost predicate Published(p: Params, t0: Table, regs0: seq<RegPair>, ds: seq<Descriptor>, bus: u64,
                            t: Table, regs: seq<RegPair>, list: seq<Descriptor>, start: u32)
    requires |regs0| == SLOTS
  {
    Placed(p, t0, ds, bus, t, list, start) && regs == Programmed(regs0, t, p.channel)
  }

  /** The linked and relocated list: a ring in STREAM mode, else a chain that ends in a zeroed
      descriptor. */
  ghost predicate IsList(p: Params, ds: seq<Descriptor>, slots: seq<int>, list: seq<Descriptor>, start: u32)
  {
    var n := |ds|;
    && |slots| == n && DescAddr(start, n + 1) < TWO32
    && (if p.transferMode == MODE_STREAM then |list| == n else |list| == n + 1 && list[n] == ZERO_DESCRIPTOR)
    && forall k {:trigger list[k]} | 0 <= k < n ::
         list[k] == Linked(Relocated(ds[k], slots[k]),
                           if k + 1 == |list| then start else DescAddr(start, k + 1))
  }

  /** dma_start: translates, links, programs and starts. A failed translation of the data leaves
      the channel in the ERROR state, and without slots; one of the list leaves everything as it
      was. */
  method DmaStart(table: PageTable, info: DmaInfo, regs: Registers) returns (res: StartResult)
    requires table.Valid() && info.Ready() && regs.translation.Length == SLOTS
    requires info.descDma as object != regs.translation && info.descDma as object != table.pages
    requires table.pages as object != regs.translation && table.activeChannel as object != regs.translation
    requires info.descDma as object != table.activeChannel
    modifies table, table.pages, table.activeChannel, info`descBusAddrTranslated, info`state
    modifies info.descDma, regs, regs.translation
    ensures table.Valid()
    ensures res == BadState <==> old(info.state) != Initialized
    ensures res == BadState || res == NoSpaceForList ==>
      table.View() == old(table.View()) && info.state == old(info.state)
    ensures res.RwFailed? ==>
      info.state == Error && table.View() == FreeSlots(old(table.View()), info.params.channel)
    ensures res != BadState ==>
      info.descActive / DESC_BYTES <= info.descDma.Length
      && (table.View(), res.StateAfter())
         == StartTable(old(table.View()), info.params, info.descBusAddr,
                       WriteAddrs(old(info.descDma[..info.descActive / DESC_BYTES])))
    ensures res != Started ==> regs.translation[..] == old(regs.translation[..])
    ensures res == Started ==>
      var n, a := info.descSize / DESC_BYTES, info.descActive / DESC_BYTES;
      && info.state == old(info.state) && n <= info.descDma.Length && a <= n
      && Published(info.params, old(table.View()), old(regs.translation[..]),
                   old(info.descDma[..info.descActive / DESC_BYTES]), info.descBusAddr,
                   table.View(), regs.translation[..], info.descDma[..n], info.descBusAddrTranslated)
      && regs.nextDescLow == info.descBusAddrTranslated && regs.nextDescHigh == 0
  {
    if info.state != Initialized {
      return BadState;
    }
    ghost var ds := info.descDma[..info.descActive / DESC_BYTES];
    res := TranslateList(table, info);
    if res != Started {
      return;
    }
    LinkAndProgram(table, info, regs, old(table.View()), ds);
    regs.nextDescLow := info.descBusAddrTranslated;
    regs.nextDescHigh := 0;
  }

  /** The second half of dma_start: links and translation registers. */
  method LinkAndProgram(table: PageTable, info: DmaInfo, regs: Registers, ghost t0: Table, ghost ds: seq<Descriptor>)
    requires table.Valid() && info.Ready() && regs.translation.Length == SLOTS
    requires info.descDma as object != regs.translation && info.descDma as object != table.pages
    requires table.pages as object != regs.translation && table.activeChannel as object != regs.translation
    requires info.descDma as object != table.activeChannel
    requires info.params.direction == FROM_DEVICE && |ds| == info.descActive / DESC_BYTES
    requires FirstFree(t0, 0) != -1
    requires info.descBusAddrTranslated == SlotAddr(info.descBusAddr, FirstFree(t0, 0))
    requires var s := Run(ListTable(t0, info.params.channel, info.descBusAddr), info.params.channel, WriteAddrs(ds));
      && !s.full && table.View() == s.table
      && exists was :: ds <= was && RelocatedTo(info.descDma[..], was, s.slots, |ds|)
    modifies info.descDma, regs.translation
    ensures info.descSize / DESC_BYTES <= info.descDma.Length
    ensures Published(info.params, t0, old(regs.translation[..]), ds, info.descBusAddr, table.View(),
                      regs.translation[..], info.descDma[..info.descSize / DESC_BYTES], info.descBusAddrTranslated)
  {
    ghost var s := Run(ListTable(t0, info.params.channel, info.descBusAddr), info.params.channel, WriteAddrs(ds));
    LinkList(info, ds, s.slots);
    ghost var list := info.descDma[..info.descSize / DESC_BYTES];
    SetTranslationRegs(table, info.params.channel, regs);
    assert info.descDma[..info.descSize / DESC_BYTES] == list;
    PublishedBy(info.params, t0, old(regs.translation[..]), ds, info.descBusAddr, s, list,
                info.descBusAddrTranslated);
  }

  lemma {:induction false} PublishedBy(p: Params, t0: Table, regs0: seq<RegPair>, ds: seq<Descriptor>,
                                       bus: u64, s: Trans, list: seq<Descriptor>, start: u32)
    requires |regs0| == SLOTS && FirstFree(t0, 0) != -1 && p.direction == FROM_DEVICE
    requires s == Run(ListTable(t0, p.channel, bus), p.channel, WriteAddrs(ds))
    requires !s.full && start == SlotAddr(bus, FirstFree(t0, 0)) && IsList(p, ds, s.slots, list, start)
    ensures Published(p, t0, regs0, ds, bus, s.table, Programmed(regs0, s.table, p.channel), list, start)
  {
  }

  /** The first half on the channel's record. */
  method TranslateList(table: PageTable, info: DmaInfo) returns (res: StartResult)
    requires table.Valid() && info.Ready() && info.state == Initialized
    requires info.descDma as object != table.pages && info.descDma as object != table.activeChannel
    modifies table, table.pages, table.activeChannel, info`descBusAddrTranslated, info`state
    modifies info.descDma
    ensures table.Valid() && res != BadState && info.descActive / DESC_BYTES <= info.descDma.Length
    ensures info.state == if res.RwFailed? then Error else Initialized
    ensures (table.View(), res.StateAfter())
            == StartTable(old(table.View()), info.params, info.descBusAddr,
                          WriteAddrs(old(info.descDma[..info.descActive / DESC_BYTES])))
    ensures res == Started ==>
      var t0 := old(table.View());
      && FirstFree(t0, 0) != -1
      && info.descBusAddrTranslated == SlotAddr(info.descBusAddr, FirstFree(t0, 0))
      && (var s := Run(ListTable(t0, info.params.channel, info.descBusAddr), info.params.channel,
                       WriteAddrs(old(info.descDma[..info.descActive / DESC_BYTES])));
          !s.full && RelocatedTo(info.descDma[..], old(info.descDma[..]), s.slots, info.descActive / DESC_BYTES))
  {
    var start: u32;
    res, start := StartOnTable(table, info.params, info.descBusAddr, info.descDma, info.descActive / DESC_BYTES);
    if res == NoSpaceForList {
      return;
    }
    info.descBusAddrTranslated := start;
    if res.RwFailed? {
      info.state := Error;
    }
  }

  /** build_descriptor_links on a relocated list. */
  method LinkList(info: DmaInfo, ghost ds: seq<Descriptor>, ghost slots: seq<int>)
    requires info.Ready() && |ds| == |slots| == info.descActive / DESC_BYTES
    requires exists was :: ds <= was && RelocatedTo(info.descDma[..], was, slots, |slots|)
    requires info.descBusAddrTranslated % WINDOW == info.descBusAddr % WINDOW
    requires info.descBusAddrTranslated < SLOTS * WINDOW
    modifies info.descDma
    ensures info.descSize / DESC_BYTES <= info.descDma.Length
    ensures IsList(info.params, ds, slots, info.descDma[..info.descSize / DESC_BYTES], info.descBusAddrTranslated)
  {
    var n := info.descSize / DESC_BYTES;
    ghost var relocated := info.descDma[..];
    BuildLinks(info.descDma, n, info.descBusAddrTranslated, info.Streaming());
    ListBuilt(info.params, ds, slots, relocated, info.descDma[..n], info.descBusAddrTranslated);
  }

  lemma {:induction false} ListBuilt(p: Params, ds: seq<Descriptor>, slots: seq<int>,
                                     relocated: seq<Descriptor>, list: seq<Descriptor>, start: u32)
    requires |slots| == |ds| && DescAddr(start, |ds| + 1) < TWO32
    requires 0 < |list| <= |relocated|
    requires |list| == if p.transferMode == MODE_STREAM then |ds| else |ds| + 1
    requires forall k | 0 <= k < |ds| :: relocated[k] == Relocated(ds[k], slots[k])
    requires forall k | 0 <= k < |list| - 1 :: list[k] == Linked(relocated[k], DescAddr(start, k + 1))
    requires list[|list| - 1]
             == if p.transferMode == MODE_STREAM then Linked(relocated[|list| - 1], start) else ZERO_DESCRIPTOR
    ensures IsList(p, ds, slots, list, start)
  {
  }

  /** After a failed relocation the channel has only slots of its own to give back. */
  lemma {:induction false} AfterFailedRw(t0: Table, t1: Table, slot: int, p: Params, addrs: seq<u64>, t: Table)
    requires slot == FirstFree(t0, 0) != -1 && p.channel < NUM_CHANNELS
    requires exists page :: t1 == t0[slot := Used(page, p.channel)]
    requires t == t1 || t == FreeSlots(Run(t1, p.channel, addrs).table, p.channel)
    ensures FreeSlots(t, p.channel) == FreeSlots(t0, p.channel)
  {
    FirstFreeExact(t0, 0);
    CleanupRestores(t0, t1, p.channel);
    RunExtends(t1, p.channel, addrs, |addrs|);
    CleanupRestores(t1, Run(t1, p.channel, addrs).table, p.channel);
  }
}
