/** Rings of more than 4096 descriptors, which do not fit into one page of the translation table: a
    transfer whose prefetcher leaves its list. */
module LongLists {
  import opened Words
  import opened Descriptors
  import opened Window
  import opened Meaning
  import opened Generator
  import opened PageTable
  import opened Translate
  import opened Publish
  import opened Space
  import opened Walk
  import opened EndToEnd
  import opened Transfers
  import SyncData

  // ----- Lists over one page of data ------------------------------------------------------------------

  /** All pages are this one. */
  ghost predicate AllAt(pages: seq<u64>, page: u64) {
    forall k | 0 <= k < |pages| :: pages[k] == page
  }

  lemma {:induction false} OneNewPage(held: set<u64>, pages: seq<u64>, page: u64, k: nat)
    requires k <= |pages| && AllAt(pages, page)
    ensures NewPages(held, pages, k) <= {page} && |NewPages(held, pages, k)| <= 1
  {
    if k > 0 {
      OneNewPage(held, pages, page, k - 1);
    }
    assert NewPages(held, pages, k) == {} || NewPages(held, pages, k) == {page};
  }

  /** The run over one new page takes one slot, the first free one. */
  lemma {:induction false} OnePageRun(t: Table, channel: u8, addrs: seq<u64>, page: u64, k: nat)
    requires 0 < k <= |addrs| && channel != ANY_CHANNEL && AllAt(Pages(addrs), page) && page != 0
    requires page !in PagesOf(t, channel) && FirstFree(t, 0) != -1
    ensures var s := RunTo(t, channel, addrs, k);
      !s.full && s.currPage == page && s.table == t[FirstFree(t, 0) := Used(page, channel)]
  {
    assert Pages(addrs)[k - 1] == page;
    if k > 1 {
      OnePageRun(t, channel, addrs, page, k - 1);
    } else {
      FindValueExact(t, page, channel);
      assert RunTo(t, channel, addrs, 0) == Trans(t, 0, -1, [], 0, false);
    }
  }

  // ----- One entry in small descriptors -----------------------------------------------------------------

  /** A stream of 8-byte descriptors over one entry inside one page of the translation table, with
      more descriptors than a page has room for. */
  predicate LongRing(p: Params, m: Mapping) {
    && m.sgl == [SgEntry(0x10_0000, m.size, 0)] && m.direction == FROM_DEVICE
    && 0x8000 < m.size <= 0x4_0000 && m.size % 8 == 0
    && p == Params(0, 0, m.size, 8, 0, 0, 0, MODE_STREAM, FROM_DEVICE, 0, 0)
  }

  lemma {:induction false} LongRingList(p: Params, m: Mapping)
    requires LongRing(p, m)
    ensures WellFormed(m) && Accepted(p, m) && Compilable(p, m)
    ensures PlannedCount(p, m) == m.size / 8 == AllocNum(p)
    ensures var ds := CompiledList(p, m);
      && |ds| == m.size / 8
      && forall k | 0 <= k < |ds| :: ds[k].WriteAddr() == 0x10_0000 + Bytes(8, k) && ds[k].length == 8
  {
    OneEntry(p, m);
    CompilableChunks(p, m);
    CompiledGenerated(p, m);
    AllocNumExact(p);
    SmallMod(m.size / 8, 0x400_0000);
    var ds, cs := CompiledList(p, m), WindowChunks(m.sgl, 0, m.size, 8);
    forall k | 0 <= k < |ds| ensures ds[k].WriteAddr() == 0x10_0000 + Bytes(8, k) && ds[k].length == 8 {
      SyncData.FixedPosition(m.sgl, cs, 0, m.size, 8, k);
      assert Addresses(p, m, ds[k], cs[k]);
    }
  }

  /** The descriptors of a long ring, as numbers. */
  ghost predicate EightByteSteps(ds: seq<Descriptor>) {
    |ds| <= 0x8000 && forall k | 0 <= k < |ds| :: ds[k].WriteAddr() == 0x10_0000 + Bytes(8, k) && ds[k].length == 8
  }

  lemma {:induction false} StepsStayInPage(ds: seq<Descriptor>)
    requires EightByteSteps(ds)
    ensures AllAt(Pages(WriteAddrs(ds)), 0x10_0000) && DistinctStarts(ds)
    ensures forall k | 0 <= k < |ds| :: Spanned(ds[k].WriteAddr(), ds[k].length) == 1
  {
    forall k | 0 <= k < |ds|
      ensures PageBase(ds[k].WriteAddr()) == 0x10_0000 && Spanned(ds[k].WriteAddr(), ds[k].length) == 1
    {
      assert ds[k].WriteAddr() == 0x10_0000 + Bytes(8, k);
    }
  }

  /** Alone on the table, the list is in slot 0 and the data in slot 1. */
  lemma {:induction false} DataBehindList(f: Flight, page: u64)
    requires f.JustStarted() && f.t0 == EMPTY_TABLE && f.bus == LIST_BUS && page != LIST_BUS && page != 0
    requires |f.ds| > 0
    requires AllAt(f.DataPages(), page) && page % WINDOW == 0
    ensures f.start == 0 && RegBase(f.regs[1]) == page
  {
    var c, t1 := f.p.channel, ListTable(f.t0, f.p.channel, f.bus);
    FirstFreeExact(f.t0, 0);
    FirstFreeExact(t1, 0);
    ListTablePages(f.t0, c, f.bus);
    assert PagesOf(f.t0, c) == {} && PageBase(f.bus) == LIST_BUS;
    OnePageRun(t1, c, WriteAddrs(f.ds), page, |f.ds|);
    assert FirstFree(f.t0, 0) == 0 && FirstFree(t1, 0) == 1;
    assert f.t[1] == Used(page, c);
    ProgrammedBase(f.regs0, f.t, c, 1);
  }

  lemma {:induction false} RoomForOnePage(p: Params, addrs: seq<u64>, page: u64)
    requires AllAt(Pages(addrs), page)
    ensures HasRoom(EMPTY_TABLE, p, LIST_BUS, addrs) && NoDuplicates(EMPTY_TABLE) && PagesAligned(EMPTY_TABLE)
  {
    AllFree(EMPTY_TABLE, SLOTS);
    OneNewPage(PagesOf(EMPTY_TABLE, p.channel) + {PageBase(LIST_BUS)}, Pages(addrs), page, |addrs|);
  }

  /** Such data is safe, but its list is not read where it lies. */
  lemma {:induction false} SafeDataLongList(f: Flight)
    requires f.JustStarted() && f.Launched() && f.t0 == EMPTY_TABLE && f.bus == LIST_BUS
    requires f.p.transferMode == MODE_STREAM && EightByteSteps(f.ds) && |f.ds| > 4096
    ensures f.NoZeroPage() && |f.Slots()| == |f.ds| && f.Safe() && !f.ListContained()
    ensures Resolve(f.regs, DescAddr(f.start, 4096)) == 0x10_0000
  {
    StepsStayInPage(f.ds);
    DataBehindList(f, 0x10_0000);
    SlotsUsed(f);
    ListShape(f);
    RunsAreSafe(f.Held(), f.DataPages());
    forall k | 0 <= k < |f.ds|
      ensures PageBase(f.ds[k].WriteAddr()) != 0
      ensures Continues(f.regs, f.ds[k].WriteAddr(), f.Slots()[k], f.ds[k].length)
    {
      assert f.DataPages()[k] == PageBase(f.ds[k].WriteAddr());
    }
    FirstFreeExact(f.t0, 0);
    assert !Selects(f.regs, f.bus, 0, 1) && Spanned(f.bus, DESC_BYTES * |f.list|) > 1;
  }

  /** Accepted rings of more than 4096 descriptors that start and do not perform their request: the
      data is safe, but descriptor 4096 is looked for in the data buffer, and what lies there decides
      what is copied, from the first round on. */
  lemma {:induction false} LongRingStrays(p: Params, m: Mapping) returns (f: Flight)
    requires LongRing(p, m)
    ensures f.Valid() && f.p == p && f.m == m && |f.ds| == m.size / 8 > 4096 && |f.list| == |f.ds|
    ensures f.NoZeroPage() && |f.Slots()| == |f.ds| && f.Safe() && !f.ListContained()
    ensures Resolve(f.regs, DescAddr(f.start, 4096)) == m.sgl[0].dmaAddr
    ensures forall q: nat, r: nat | r > 0 ::
      !f.Copies(Times(r, |f.list|), Times(q, |f.Asked()|), Rounds(RequestMoves(p, m), q, r))
  {
    LongRingList(p, m);
    var ds := CompiledList(p, m);
    StepsStayInPage(ds);
    RoomForOnePage(p, WriteAddrs(ds), 0x10_0000);
    f := TakesOff(p, m, EMPTY_TABLE, ZERO_REGS, LIST_BUS);
    SafeDataLongList(f);
    ListShape(f);
    GeneratedMeaning(p, m, ds);
    forall q: nat, r: nat | r > 0
      ensures !f.Copies(Times(r, |f.list|), Times(q, |f.Asked()|), Rounds(RequestMoves(p, m), q, r))
    {
      RingCopyExact(f, q, r);
    }
  }

  /** The shortest of them has 4097 descriptors, for 32776 bytes. */
  lemma {:induction false} ShortestLongRing() returns (f: Flight)
    ensures f.Valid() && LongRing(f.p, f.m) && f.m.size == 32776 && |f.ds| == 4097
    ensures |f.Slots()| == |f.ds| && f.Safe() && !f.ListContained()
  {
    var m := Mapping(32776, FROM_DEVICE, [SgEntry(0x10_0000, 32776, 0)]);
    f := LongRingStrays(Params(0, 0, 32776, 8, 0, 0, 0, MODE_STREAM, FROM_DEVICE, 0, 0), m);
  }
}
