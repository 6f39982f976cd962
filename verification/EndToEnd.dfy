/** From a list of descriptors, and from a request, to the copy that the hardware performs: what the
    walk over the published list moves, compared with what was asked for. */
module EndToEnd {
  import opened Words
  import opened Bits
  import opened Descriptors
  import opened Window
  import opened Meaning
  import opened Generator
  import opened PageTable
  import opened Translate
  import opened Publish
  import opened Walk

  /** A started transfer: the request and its mapping, the list ds of active descriptors, the table
      t0 and the registers regs0 before the start, the bus address of the list; and after the start
      the table, the registers, the published list and its device-side address. */
  datatype Flight = Flight(
    p: Params, m: Mapping, ds: seq<Descriptor>, t0: Table, regs0: seq<RegPair>, bus: u64,
    t: Table, regs: seq<RegPair>, list: seq<Descriptor>, start: u32)
  {
    /** The list lies in coherent memory, which is aligned to more than a descriptor, and is placed; and
        the registers select the page of every slot of its channel. That is what a start leaves behind,
        and what later starts of other channels keep. */
    ghost predicate Started() {
      && |regs| == SLOTS && p.channel < NUM_CHANNELS
      && NoDuplicates(t0) && PagesAligned(t0) && bus % DESC_BYTES == 0
      && Placed(p, t0, ds, bus, t, list, start) && ProgrammedFor(regs, t, p.channel)
    }

    /** The registers are still those that the start left behind. */
    ghost predicate JustStarted() {
      && |regs0| == SLOTS && p.channel < NUM_CHANNELS
      && NoDuplicates(t0) && PagesAligned(t0) && bus % DESC_BYTES == 0
      && Published(p, t0, regs0, ds, bus, t, regs, list, start)
    }

    /** Moreover none of its descriptors is empty. */
    ghost predicate Launched() {
      Started() && forall k | 0 <= k < |ds| :: ds[k].length > 0
    }

    /** The transfer was started from the list generated for its request. */
    ghost predicate Valid() {
      Launched() && WellFormed(m) && Accepted(p, m) && Compilable(p, m) && IsGenerated(p, m, ds)
    }

    /** The pages that the channel holds once its list has a slot. */
    function Held(): set<u64> {
      PagesOf(t0, p.channel) + {PageBase(bus)}
    }

    /** The pages that the data descriptors address, in order. */
    function DataPages(): seq<u64> {
      Pages(WriteAddrs(ds))
    }

    /** The data avoids the page at address 0, which curr_page takes for a page already cached. */
    predicate NoZeroPage() {
      forall k | 0 <= k < |ds| :: PageBase(ds[k].WriteAddr()) != 0
    }

    /** The slots that the run of the translation used. */
    ghost function Slots(): seq<int>
      requires FirstFree(t0, 0) != -1
    {
      Run(ListTable(t0, p.channel, bus), p.channel, WriteAddrs(ds)).slots
    }

    /** Every descriptor stays inside its page, or goes on into the pages that the next slots select. */
    ghost predicate Contained()
      requires FirstFree(t0, 0) != -1 && |regs| == SLOTS && |Slots()| == |ds|
    {
      AllContained(regs, ds, Slots())
    }

    /** The test on the data: its pages are visited safely for the one-entry shortcut, and its
        descriptors are contained. */
    ghost predicate Safe()
      requires FirstFree(t0, 0) != -1 && |regs| == SLOTS && |Slots()| == |ds|
    {
      CacheSafe(Held(), DataPages()) && Contained()
    }

    /** The test on the list: it stays inside its page, or goes on into the pages that the next slots
        select. */
    predicate ListContained()
      requires |regs| == SLOTS
    {
      Continues(regs, bus, FirstFree(t0, 0), DESC_BYTES * |list|)
    }

    /** What the hardware executes in the first fuel steps from start. */
    function Executed(mem: Memory, fuel: nat): seq<Descriptor>
      requires |regs| == SLOTS
    {
      Prefetch(regs, mem, start, fuel)
    }

    /** What it copies when it executes these descriptors, taken bytes into the stream. */
    ghost function MovesOf(walked: seq<Descriptor>, taken: nat): seq<Move>
      requires |regs| == SLOTS && p.channel < NUM_CHANNELS
    {
      ListMoves(Resolver(regs), FROM_DEVICE, ChannelTable(p.channel), walked, taken)
    }

    ghost function Copied(mem: Memory, fuel: nat, taken: nat): seq<Move>
      requires |regs| == SLOTS && p.channel < NUM_CHANNELS
    {
      MovesOf(Executed(mem, fuel), taken)
    }

    /** What the active descriptors ask for. */
    ghost function Asked(): seq<Move>
      requires p.channel < NUM_CHANNELS
    {
      ListMoves(Untranslated, FROM_DEVICE, ChannelTable(p.channel), ds, 0)
    }

    /** The transfer executes these descriptors and copies these bytes, whatever lies around the list. */
    ghost predicate Performs(fuel: nat, taken: nat, walked: seq<Descriptor>, moves: seq<Move>)
      requires |regs| == SLOTS && p.channel < NUM_CHANNELS
    {
      forall mem | HoldsList(mem, bus, list) :: Executed(mem, fuel) == walked && Copied(mem, fuel, taken) == moves
    }

    /** The transfer copies these bytes, whatever lies around the list. */
    ghost predicate Copies(fuel: nat, taken: nat, moves: seq<Move>)
      requires |regs| == SLOTS && p.channel < NUM_CHANNELS
    {
      forall mem | HoldsList(mem, bus, list) :: Copied(mem, fuel, taken) == moves
    }
  }

  /** After the first, the pages of a range are selected by the registers after its slot. */
  predicate Continues(regs: seq<RegPair>, a: u64, slot: int, len: nat)
    requires |regs| == SLOTS
  {
    forall j | 1 <= j < Spanned(a, len) :: Selects(regs, a, slot, j)
  }

  ghost predicate AllContained(regs: seq<RegPair>, ds: seq<Descriptor>, slots: seq<int>)
    requires |regs| == SLOTS && |slots| == |ds|
  {
    forall k | 0 <= k < |ds| :: Continues(regs, ds[k].WriteAddr(), slots[k], ds[k].length)
  }

  // ----- The table and registers of a transfer in flight -------------------------------------------

  lemma {:induction false} ListTableFacts(p: Params, t0: Table, bus: u64)
    requires p.channel < NUM_CHANNELS && FirstFree(t0, 0) != -1 && PagesAligned(t0)
    ensures PagesAligned(ListTable(t0, p.channel, bus))
    ensures PagesOf(ListTable(t0, p.channel, bus), p.channel) == PagesOf(t0, p.channel) + {PageBase(bus)}
  {
    ListTablePages(t0, p.channel, bus);
    FirstFreeExact(t0, 0);
    MaskedPage(bus);
  }

  lemma {:induction false} RunAligned(t: Table, channel: u8, addrs: seq<u64>, k: nat)
    requires k <= |addrs| && channel != ANY_CHANNEL && PagesAligned(t)
    ensures PagesAligned(RunTo(t, channel, addrs, k).table)
  {
    if k > 0 {
      RunAligned(t, channel, addrs, k - 1);
      StepIsolation(RunTo(t, channel, addrs, k - 1), channel, addrs[k - 1]);
    }
  }

  /** A transfer that was just started is a started one. */
  lemma {:induction false} StartPrograms(f: Flight)
    requires f.JustStarted()
    ensures f.Started()
  {
    ListTableFacts(f.p, f.t0, f.bus);
    RunAligned(ListTable(f.t0, f.p.channel, f.bus), f.p.channel, WriteAddrs(f.ds), |f.ds|);
    ProgrammedSelects(f.regs0, f.t, f.p.channel);
  }

  /** The slot of the list selects its page. */
  lemma {:induction false} InFlight(f: Flight)
    requires f.Launched()
    ensures var slot := FirstFree(f.t0, 0);
      0 <= slot < SLOTS && f.start == SlotAddr(f.bus, slot) && Selects(f.regs, f.bus, slot, 0)
  {
    var slot, t1 := FirstFree(f.t0, 0), ListTable(f.t0, f.p.channel, f.bus);
    FirstFreeExact(f.t0, 0);
    RunExtends(t1, f.p.channel, WriteAddrs(f.ds), |f.ds|);
    assert t1[slot] == Used(PageBase(f.bus), f.p.channel);
    assert f.t[slot] == t1[slot];
  }

  /** The hardware reads the descriptors of the list where they lie exactly when the list passes its
      test. */
  lemma {:induction false} ListReadExact(f: Flight)
    requires f.Launched() && |f.list| > 0
    ensures ReachesAll(f.regs, f.bus, f.start, |f.list|) <==> f.ListContained()
  {
    InFlight(f);
    ReachesExact(f.regs, f.bus, FirstFree(f.t0, 0), |f.list|);
    AfterFirst(f.regs, f.bus, FirstFree(f.t0, 0), DESC_BYTES * |f.list|);
  }

  lemma {:induction false} AfterFirst(regs: seq<RegPair>, a: u64, slot: int, len: nat)
    requires |regs| == SLOTS && Selects(regs, a, slot, 0)
    ensures Contiguous(regs, a, slot, len) <==> Continues(regs, a, slot, len)
  {
  }

  /** Coherent memory is aligned to a power of two that is not less than its size. A list in such
      memory lies in one page, and so passes its test, exactly up to 256 KiB. */
  lemma {:induction false} ListInPageExact(f: Flight, e: nat)
    requires f.Launched() && f.bus % Pow2(e) == 0 && DESC_BYTES * |f.list| <= Pow2(e)
    ensures WithinPage(f.bus, DESC_BYTES * |f.list|) <==> |f.list| <= 4096
    ensures |f.list| <= 4096 ==> f.ListContained()
  {
    Pow2Values();
    if e <= 18 {
      Pow2Divides(e, 18);
      AlignedBelow(f.bus, Pow2(e), 0x4_0000);
    } else {
      Pow2Divides(18, e);
      ModOfMultiple(f.bus, Pow2(e), 0x4_0000);
    }
  }

  lemma {:induction false} Pow2Divides(e: nat, g: nat)
    requires e <= g
    ensures Pow2(e) > 0 && Pow2(g) % Pow2(e) == 0 && Pow2(e) <= Pow2(g)
    decreases g - e
  {
    if e < g {
      Pow2Divides(e, g - 1);
      AddDivisible(Pow2(g - 1), Pow2(g - 1), Pow2(e));
    } else {
      DivModUnique(Pow2(e), 1, 0, Pow2(e));
    }
  }

  lemma {:induction false} ModOfMultiple(x: nat, y: nat, d: nat)
    requires y > 0 && d > 0 && x % y == 0 && y % d == 0
    ensures x % d == 0
  {
    var q, k := x / y, y / d;
    assert x == q * y && y == k * d;
    assert q * (k * d) == (q * k) * d;
    DivModUnique(x, q * k, 0, d);
  }

  lemma {:induction false} AlignedBelow(a: nat, b: nat, page: nat)
    requires b > 0 && page > 0 && page % b == 0 && a % b == 0
    ensures a % page + b <= page
  {
    var r, k := a % page, page / b;
    assert page == k * b && a == (a / page) * page + r;
    assert (a / page) * (k * b) == ((a / page) * k) * b;
    AddMultiple(r, (a / page) * k, b);
    var q := r / b;
    assert r == q * b;
    if q >= k {
      MulMono(k, q, b);
    }
    MulMono(q + 1, k, b);
    assert (q + 1) * b == q * b + b;
  }

  // ----- Resolution of the data ---------------------------------------------------------------------

  /** A started transfer used a slot for each of its descriptors. */
  lemma {:induction false} SlotsUsed(f: Flight)
    requires f.Launched()
    ensures FirstFree(f.t0, 0) != -1 && |f.Slots()| == |f.ds|
  {
  }

  /** Every byte of every descriptor resolves to its original address exactly when the data passes
      the test. */
  lemma {:induction false} ResolutionExact(f: Flight)
    requires f.Launched() && f.NoZeroPage()
    ensures |f.Slots()| == |f.ds|
    ensures ResolvesAll(f.regs, f.ds, f.Slots()) <==> f.Safe()
  {
    var t1, addrs := ListTable(f.t0, f.p.channel, f.bus), WriteAddrs(f.ds);
    var s, pages := Run(t1, f.p.channel, addrs), Pages(addrs);
    ListTableFacts(f.p, f.t0, f.bus);
    InFlight(f);
    SlotsOwned(t1, f.p.channel, addrs, |addrs|);
    ShortcutExact(t1, f.p.channel, addrs);
    ResolvesFaithful(f.regs, s.table, f.p.channel, f.ds, s.slots);
  }

  lemma {:induction false} ResolvesFaithful(regs: seq<RegPair>, t: Table, channel: u8, ds: seq<Descriptor>,
                                            slots: seq<int>)
    requires |regs| == SLOTS && |slots| == |ds| && ProgrammedFor(regs, t, channel) && channel != ANY_CHANNEL
    requires forall k | 0 <= k < |ds| :: OwnedSlot(t, channel, slots[k])
    requires forall k | 0 <= k < |ds| :: ds[k].length > 0
    ensures ResolvesAll(regs, ds, slots)
            <==> FaithfulTo(t, channel, slots, Pages(WriteAddrs(ds)), |ds|) && AllContained(regs, ds, slots)
  {
    var pages := Pages(WriteAddrs(ds));
    forall k | 0 <= k < |ds|
      ensures BytesResolve(regs, ds[k].WriteAddr(), slots[k], ds[k].length)
              <==> HeldAt(t, slots[k], pages[k], channel)
                   && Continues(regs, ds[k].WriteAddr(), slots[k], ds[k].length)
    {
      OneResolutionExact(regs, t, channel, ds[k], slots[k]);
    }
  }

  lemma {:induction false} OneResolutionExact(regs: seq<RegPair>, t: Table, channel: u8, d: Descriptor, slot: int)
    requires |regs| == SLOTS && ProgrammedFor(regs, t, channel) && channel != ANY_CHANNEL
    requires OwnedSlot(t, channel, slot) && d.length > 0
    ensures BytesResolve(regs, d.WriteAddr(), slot, d.length)
            <==> HeldAt(t, slot, PageBase(d.WriteAddr()), channel) && Continues(regs, d.WriteAddr(), slot, d.length)
  {
    var a: u64 := d.WriteAddr();
    CrossingExact(regs, a, d.length, slot);
    assert Spanned(a, d.length) > 0;
    assert Selects(regs, a, slot, 0) <==> HeldAt(t, slot, PageBase(a), channel);
  }

  /** Generated descriptors are not empty, and for an accepted request at most a page long. */
  lemma {:induction false} GeneratedLengths(p: Params, m: Mapping, ds: seq<Descriptor>)
    requires Accepted(p, m) && Compilable(p, m) && IsGenerated(p, m, ds)
    ensures forall k | 0 <= k < |ds| :: 0 < ds[k].length <= 0x4_0000
  {
    assert !Violates(BytesPerDesc, p, m);
    CompilableChunks(p, m);
    var cs := WindowChunks(m.sgl, p.mapOffset, p.bytesTotal, Descriptors.Step(p));
    TilesInEntry(m.sgl, cs, p.mapOffset, p.bytesTotal, Descriptors.Step(p));
    forall k | 0 <= k < |ds| ensures 0 < ds[k].length <= 0x4_0000 {
      assert Addresses(p, m, ds[k], cs[k]);
    }
  }

  // ----- DEFAULT mode ---------------------------------------------------------------------------------

  lemma {:induction false} SameMovesAll(p: Params, ds: seq<Descriptor>, slots: seq<int>, list: seq<Descriptor>,
                                        start: u32)
    requires IsList(p, ds, slots, list, start)
    ensures forall k | 0 <= k < |ds| :: SameMoves(ds[k], list[..|ds|][k], slots[k])
  {
    forall k | 0 <= k < |ds| ensures SameMoves(ds[k], list[..|ds|][k], slots[k]) {
      assert list[..|ds|][k] == list[k];
    }
  }

  /** The published list is a chain or a ring of the relocated descriptors. */
  lemma {:induction false} ListShape(f: Flight)
    requires f.Launched()
    ensures |f.Slots()| == |f.ds| <= |f.list|
    ensures forall k | 0 <= k < |f.ds| :: SameMoves(f.ds[k], f.list[..|f.ds|][k], f.Slots()[k])
    ensures if f.p.transferMode == MODE_STREAM
            then f.list[..|f.ds|] == f.list && (|f.ds| > 0 ==> IsRing(f.list, f.start))
            else IsChain(f.list, f.start, |f.ds|)
  {
    Links(f.p, f.ds, f.Slots(), f.list, f.start);
    SameMovesAll(f.p, f.ds, f.Slots(), f.list, f.start);
  }

  /** Publication keeps all of a descriptor but its host address, its link and its owner. So what the walk
      executes raises the interrupts of the list, and has its sequence numbers, lengths and parameters. */
  lemma {:induction false} PublishedKeeps(f: Flight, k: nat)
    requires f.Started() && k < |f.ds|
    ensures |f.ds| <= |f.list|
    ensures var d, w := f.ds[k], f.list[k];
      && w == d.(writeLow := w.writeLow, writeHigh := 0, nextLow := w.nextLow, nextHigh := 0, ownedByHw := true)
      && w.nextLow == f.start + 64 * (if k + 1 == |f.list| then 0 else k + 1)
  {
  }

  /** If the walk is exact, then a transfer performs what it should exactly when the list is read
      where it lies and what is walked then copies the right bytes. */
  lemma {:induction false} PerformsExact(f: Flight, fuel: nat, taken: nat, walked: seq<Descriptor>, moves: seq<Move>)
    requires f.Launched() && |f.list| > 0
    requires (forall mem | HoldsList(mem, f.bus, f.list) :: Prefetch(f.regs, mem, f.start, fuel) == walked)
             <==> ReachesAll(f.regs, f.bus, f.start, |f.list|)
    ensures f.Performs(fuel, taken, walked, moves) <==> f.ListContained() && f.MovesOf(walked, taken) == moves
  {
    ListReadExact(f);
    var mem := MemoryWith(f.bus, f.list, STOP);
    MemoryHolds(f.bus, f.list, STOP);
    if f.Performs(fuel, taken, walked, moves) {
      forall mem | HoldsList(mem, f.bus, f.list) ensures Prefetch(f.regs, mem, f.start, fuel) == walked {
        assert f.Executed(mem, fuel) == walked;
      }
      assert f.Executed(mem, fuel) == walked && f.Copied(mem, fuel, taken) == moves;
    }
  }

  /** A chain, exactly. The prefetcher walks the published list from its first descriptor, resolving
      each address through the programmed table. Whatever lies around the list, it executes the
      active descriptors, each once and in order, stops, and has copied byte by byte what they ask
      for, if and only if both the data and the list pass their tests. */
  lemma {:induction false} ChainTransferExact(f: Flight, fuel: nat)
    requires f.Launched() && f.NoZeroPage() && f.p.transferMode != MODE_STREAM && fuel > |f.ds|
    ensures |f.Slots()| == |f.ds| == |f.list| - 1
    ensures f.Performs(fuel, 0, f.list[..|f.ds|], f.Asked()) <==> f.Safe() && f.ListContained()
  {
    ListShape(f);
    ResolutionExact(f);
    ChainWalkExact(f.regs, f.bus, f.list, f.start, |f.ds|, fuel);
    PerformsExact(f, fuel, 0, f.list[..|f.ds|], f.Asked());
    MovesExact(f.regs, ChannelTable(f.p.channel), f.ds, f.Slots(), f.list[..|f.ds|], 0);
  }

  /** If the list passes its test, then with any memory around it the copy is right exactly if the data
      passes. */
  lemma {:induction false} ContainedListExact(f: Flight, mem: Memory, fuel: nat)
    requires f.Launched() && f.NoZeroPage() && f.p.transferMode != MODE_STREAM && fuel > |f.ds|
    requires f.ListContained() && HoldsList(mem, f.bus, f.list)
    ensures |f.Slots()| == |f.ds|
    ensures f.Copied(mem, fuel, 0) == f.Asked() <==> f.Safe()
  {
    ListShape(f);
    ListReadExact(f);
    ResolutionExact(f);
    ChainWalk(f.regs, mem, f.bus, f.list, f.start, |f.ds|, fuel);
    MovesExact(f.regs, ChannelTable(f.p.channel), f.ds, f.Slots(), f.list[..|f.ds|], 0);
  }

  /** End to end: a request in DEFAULT mode is performed if and only if its data and its list pass. */
  lemma {:induction false} DefaultTransferExact(f: Flight, fuel: nat)
    requires f.Valid() && f.NoZeroPage() && f.p.transferMode != MODE_STREAM && fuel > |f.ds|
    ensures |f.Slots()| == |f.ds| == |f.list| - 1
    ensures f.Performs(fuel, 0, f.list[..|f.ds|], RequestMoves(f.p, f.m)) <==> f.Safe() && f.ListContained()
  {
    GeneratedMeaning(f.p, f.m, f.ds);
    ChainTransferExact(f, fuel);
  }

  /** When each page is visited in one contiguous run, as callers arrange, only descriptors or lists
      that cross a page can go wrong. */
  lemma {:induction false} DefaultTransferInRuns(f: Flight, fuel: nat)
    requires f.Valid() && f.NoZeroPage() && f.p.transferMode != MODE_STREAM && fuel > |f.ds|
    requires InRuns(f.DataPages())
    ensures |f.Slots()| == |f.ds| == |f.list| - 1
    ensures f.Performs(fuel, 0, f.list[..|f.ds|], RequestMoves(f.p, f.m)) <==> f.Contained() && f.ListContained()
  {
    RunsAreSafe(f.Held(), f.DataPages());
    DefaultTransferExact(f, fuel);
  }

  // ----- What a list that is not read where it lies copies ------------------------------------------------

  function TotalLength(ds: seq<Descriptor>): nat {
    if ds == [] then 0 else ds[0].length + TotalLength(ds[1..])
  }

  lemma {:induction false} TotalAppend(a: seq<Descriptor>, b: seq<Descriptor>)
    ensures TotalLength(a + b) == TotalLength(a) + TotalLength(b)
  {
    if a == [] {
      assert a + b == b;
    } else {
      assert (a + b)[1..] == a[1..] + b;
      TotalAppend(a[1..], b);
    }
  }

  lemma {:induction false} MovesLength(host: int -> int, ch: ChannelInfo, ds: seq<Descriptor>, taken: nat)
    ensures |ListMoves(host, FROM_DEVICE, ch, ds, taken)| == TotalLength(ds)
    decreases |ds|
  {
    if ds != [] {
      MovesLength(host, ch, ds[1..], taken + ds[0].length);
    }
  }

  lemma {:induction false} MovesAppend(host: int -> int, ch: ChannelInfo, a: seq<Descriptor>, b: seq<Descriptor>,
                                       taken: nat)
    ensures ListMoves(host, FROM_DEVICE, ch, a + b, taken)
            == ListMoves(host, FROM_DEVICE, ch, a, taken)
               + ListMoves(host, FROM_DEVICE, ch, b, taken + TotalLength(a))
    decreases |a|
  {
    if a == [] {
      assert a + b == b;
    } else {
      assert (a + b)[1..] == a[1..] + b;
      MovesAppend(host, ch, a[1..], b, taken + a[0].length);
      MovesCons(host, ch, a + b, taken);
      MovesCons(host, ch, a, taken);
    }
  }

  /** The first byte of descriptor k, after those before it. */
  lemma {:induction false} FirstMove(host: int -> int, ch: ChannelInfo, ds: seq<Descriptor>, k: nat, taken: nat)
    requires k < |ds| && ds[k].length > 0
    ensures var mvs, x := ListMoves(host, FROM_DEVICE, ch, ds, taken), TotalLength(ds[..k]);
      x < |mvs| == TotalLength(ds) && mvs[x].dst == Host(host(ds[k].WriteAddr()))
  {
    var rest := ds[k..];
    assert ds == ds[..k] + rest;
    MovesAppend(host, ch, ds[..k], rest, taken);
    MovesLength(host, ch, ds[..k], taken);
    MovesLength(host, ch, ds, taken);
    MovesCons(host, ch, rest, taken + TotalLength(ds[..k]));
    var head := DescMoves(host, FROM_DEVICE, ch, rest[0], taken + TotalLength(ds[..k]));
    assert head[0] == DescMove(host, FROM_DEVICE, ch, rest[0], taken + TotalLength(ds[..k]), 0);
  }

  /** No two descriptors start at the same address. */
  predicate DistinctStarts(ds: seq<Descriptor>) {
    forall i, j | 0 <= i < j < |ds| :: ds[i].WriteAddr() != ds[j].WriteAddr()
  }

  /** The descriptors of the walk are the relocated ones, and they start where the original ones do. */
  ghost predicate StartsResolve(regs: seq<RegPair>, list: seq<Descriptor>, ds: seq<Descriptor>)
    requires |regs| == SLOTS && |ds| <= |list|
  {
    forall k | 0 <= k < |ds| ::
      list[k].length > 0 && Resolver(regs)(list[k].WriteAddr()) == ds[k].WriteAddr()
  }

  lemma {:induction false} StartsDo(f: Flight)
    requires f.Launched() && |f.Slots()| == |f.ds| <= |f.list| && ResolvesAll(f.regs, f.ds, f.Slots())
    ensures StartsResolve(f.regs, f.list, f.ds)
  {
    ListShape(f);
    forall i | 0 <= i < |f.ds|
      ensures f.list[i].length > 0 && Resolver(f.regs)(f.list[i].WriteAddr()) == f.ds[i].WriteAddr()
    {
      assert SameMoves(f.ds[i], f.list[..|f.ds|][i], f.Slots()[i]);
      assert BytesResolve(f.regs, f.ds[i].WriteAddr(), f.Slots()[i], f.ds[i].length);
      assert ByteResolves(f.regs, f.ds[i].WriteAddr(), f.Slots()[i], 0);
    }
  }

  /** A walk that stops before descriptor k, one that executes another one instead, and one that goes
      on behind the last one copy something else. */
  lemma {:induction false} StopsShort(host: int -> int, ch: ChannelInfo, should: seq<Descriptor>, k: nat, taken: nat)
    requires k < |should| && should[k].length > 0
    ensures ListMoves(host, FROM_DEVICE, ch, should[..k], taken) != ListMoves(host, FROM_DEVICE, ch, should, taken)
  {
    MovesLength(host, ch, should[..k], taken);
    FirstMove(host, ch, should, k, taken);
  }

  lemma {:induction false} GoesElsewhere(host: int -> int, ch: ChannelInfo, should: seq<Descriptor>,
                                         walked: seq<Descriptor>, k: nat, taken: nat)
    requires k < |should| && k < |walked| && walked[..k] == should[..k]
    requires should[k].length > 0 && walked[k].length > 0
    requires host(walked[k].WriteAddr()) != host(should[k].WriteAddr())
    ensures ListMoves(host, FROM_DEVICE, ch, walked, taken) != ListMoves(host, FROM_DEVICE, ch, should, taken)
  {
    FirstMove(host, ch, walked, k, taken);
    FirstMove(host, ch, should, k, taken);
  }

  lemma {:induction false} GoesOn(host: int -> int, ch: ChannelInfo, walked: seq<Descriptor>, k: nat, taken: nat)
    requires k < |walked| && walked[k].length > 0
    ensures ListMoves(host, FROM_DEVICE, ch, walked, taken) != ListMoves(host, FROM_DEVICE, ch, walked[..k], taken)
  {
    StopsShort(host, ch, walked, k, taken);
  }

  lemma {:induction false} WrongMoves(regs: seq<RegPair>, ch: ChannelInfo, list: seq<Descriptor>, ds: seq<Descriptor>,
                                      should: seq<Descriptor>, walked: seq<Descriptor>, k: nat, taken: nat)
    requires |regs| == SLOTS && |ds| <= |list| && StartsResolve(regs, list, ds) && DistinctStarts(ds)
    requires k < |list| && k <= |ds| <= |should| && should[..|ds|] == list[..|ds|] && (k == |ds| ==> |should| == k)
    requires forall i | |ds| <= i < |list| :: !list[i].ownedByHw
    requires k <= |walked| && walked[..k] == list[..k]
    requires if |walked| == k then k < |ds| else (walked[k] == GO && k == |ds|) || IsAnother(list, k, walked[k])
    ensures ListMoves(Resolver(regs), FROM_DEVICE, ch, walked, taken)
            != ListMoves(Resolver(regs), FROM_DEVICE, ch, should, taken)
  {
    var host, n := Resolver(regs), |ds|;
    assert should[..k] == should[..n][..k] == list[..n][..k] == list[..k];
    if |walked| == k {
      assert walked == walked[..k] && should[k] == should[..n][k] == list[k];
      StopsShort(host, ch, should, k, taken);
    } else if k == n {
      AnotherStart(regs, list, ds, k, walked[k]);
      assert should == should[..k];
      GoesOn(host, ch, walked, k, taken);
    } else {
      AnotherStart(regs, list, ds, k, walked[k]);
      assert should[k] == should[..n][k] == list[k];
      GoesElsewhere(host, ch, should, walked, k, taken);
    }
  }

  lemma {:induction false} AnotherStart(regs: seq<RegPair>, list: seq<Descriptor>, ds: seq<Descriptor>, k: nat,
                                        d: Descriptor)
    requires |regs| == SLOTS && |ds| <= |list| && StartsResolve(regs, list, ds) && DistinctStarts(ds)
    requires forall i | |ds| <= i < |list| :: !list[i].ownedByHw
    requires k < |list| && ((d == GO && k == |ds|) || IsAnother(list, k, d))
    ensures d.length > 0
    ensures k < |ds| ==> Resolver(regs)(d.WriteAddr()) != Resolver(regs)(list[k].WriteAddr())
  {
    if IsAnother(list, k, d) {
      var i :| 0 <= i < |list| && i != k && d == list[i];
      assert i < |ds|;
    }
  }

  /** If the list is not read where it lies, some memory makes the transfer copy something else, also
      when all its data resolves. should is what the walk would execute. */
  lemma {:induction false} MissedCopies(f: Flight, fuel: nat, taken: nat, should: seq<Descriptor>)
    requires f.Launched() && |f.list| > 0 && |f.Slots()| == |f.ds| && ResolvesAll(f.regs, f.ds, f.Slots())
    requires !ReachesAll(f.regs, f.bus, f.start, |f.list|) && fuel >= |f.list| && DistinctStarts(f.ds)
    requires |f.list| >= |f.ds| && |should| >= |f.ds| && should[..|f.ds|] == f.list[..|f.ds|]
    requires |f.list| > |f.ds| ==> |should| == |f.ds|
    ensures !f.Copies(fuel, taken, f.MovesOf(should, taken))
  {
    ListShape(f);
    StartsDo(f);
    var mem := MissedMoves(f.regs, ChannelTable(f.p.channel), f.bus, f.list, f.start, f.ds, fuel, taken, should);
    assert f.Copied(mem, fuel, taken) != f.MovesOf(should, taken);
  }

  lemma {:induction false} MissedMoves(regs: seq<RegPair>, ch: ChannelInfo, bus: u64, list: seq<Descriptor>, start: u32,
                                       ds: seq<Descriptor>, fuel: nat, taken: nat, should: seq<Descriptor>)
    returns (mem: Memory)
    requires |regs| == SLOTS && !ReachesAll(regs, bus, start, |list|) && fuel >= |list| > 0
    requires if |list| == |ds| then IsRing(list, start) else IsChain(list, start, |ds|) && |should| == |ds|
    requires |list| >= |ds| && StartsResolve(regs, list, ds) && DistinctStarts(ds)
    requires |should| >= |ds| && should[..|ds|] == list[..|ds|]
    ensures HoldsList(mem, bus, list)
    ensures ListMoves(Resolver(regs), FROM_DEVICE, ch, Prefetch(regs, mem, start, fuel), taken)
            != ListMoves(Resolver(regs), FROM_DEVICE, ch, should, taken)
  {
    var k := MissedAt(regs, bus, list, start, |ds|, fuel);
    mem := MemoryWith(bus, list, if k < |ds| then STOP else GO);
    NotOwned(list, start, |ds|);
    WrongMoves(regs, ch, list, ds, should, Prefetch(regs, mem, start, fuel), k, taken);
  }

  lemma {:induction false} NotOwned(list: seq<Descriptor>, start: nat, n: nat)
    requires n <= |list| && (|list| != n ==> IsChain(list, start, n))
    ensures forall i | n <= i < |list| :: !list[i].ownedByHw
  {
  }

  /** With some memory the walk goes wrong at descriptor k of a list of n active ones. */
  ghost predicate MissesAt(regs: seq<RegPair>, bus: u64, list: seq<Descriptor>, start: u32, n: nat, fuel: nat, k: nat)
    requires |regs| == SLOTS && k < |list|
  {
    var mem := MemoryWith(bus, list, if k < n then STOP else GO);
    var walked := Prefetch(regs, mem, start, fuel);
    && HoldsList(mem, bus, list) && k <= |walked| && walked[..k] == list[..k]
    && if |walked| == k then k < n else (walked[k] == GO && k == n) || IsAnother(list, k, walked[k])
  }

  lemma {:induction false} MissedAt(regs: seq<RegPair>, bus: u64, list: seq<Descriptor>, start: u32, n: nat, fuel: nat)
    returns (k: nat)
    requires |regs| == SLOTS && !ReachesAll(regs, bus, start, |list|) && fuel >= |list|
    requires if |list| == n then |list| > 0 ==> IsRing(list, start) else IsChain(list, start, n)
    ensures k < |list| && k <= n && MissesAt(regs, bus, list, start, n, fuel, k)
  {
    k := FirstMissed(regs, bus, start, |list|);
    assert k < |list| - 1 ==> LinksOn(list, start, k);
    WalkMisses(regs, bus, list, start, k, fuel);
  }

  /** Of the copy alone: for safe data whose descriptors start at different addresses, a chain copies
      what it asks for, whatever lies around the list, if and only if the list passes its test. */
  lemma {:induction false} ChainCopyExact(f: Flight, fuel: nat)
    requires f.Launched() && f.NoZeroPage() && f.p.transferMode != MODE_STREAM && fuel > |f.ds|
    requires DistinctStarts(f.ds)
    ensures |f.Slots()| == |f.ds| == |f.list| - 1
    ensures f.Safe() ==> (f.Copies(fuel, 0, f.Asked()) <==> f.ListContained())
  {
    ChainTransferExact(f, fuel);
    if f.Safe() && !f.ListContained() {
      ListShape(f);
      ListReadExact(f);
      ResolutionExact(f);
      MovesExact(f.regs, ChannelTable(f.p.channel), f.ds, f.Slots(), f.list[..|f.ds|], 0);
      MissedCopies(f, fuel, 0, f.list[..|f.ds|]);
    }
  }

  // ----- STREAM mode ----------------------------------------------------------------------------------

  /** A move of a later round: the device's stream has advanced by x bytes. */
  function Later(mv: Move, x: nat): Move {
    if mv.src.DeviceFifo? then mv.(src := DeviceFifo(mv.src.pos + x)) else mv
  }

  function LaterAll(mvs: seq<Move>, x: nat): seq<Move> {
    seq(|mvs|, i requires 0 <= i < |mvs| => Later(mvs[i], x))
  }

  /** Rounds q, q + 1, ..., q + r - 1 of the moves of one round. */
  function Rounds(once: seq<Move>, q: nat, r: nat): seq<Move>
    decreases r
  {
    if r == 0 then [] else LaterAll(once, Times(q, |once|)) + Rounds(once, q + 1, r - 1)
  }

  function Times(a: nat, b: nat): nat {
    a * b
  }

  lemma {:induction false} TimesStep(a: nat, b: nat)
    ensures Times(a + 1, b) == b + Times(a, b)
  {
  }

  lemma {:induction false} MovesLater(ch: ChannelInfo, ds: seq<Descriptor>, taken: nat, x: nat)
    ensures ListMoves(Untranslated, FROM_DEVICE, ch, ds, taken + x)
            == LaterAll(ListMoves(Untranslated, FROM_DEVICE, ch, ds, taken), x)
    decreases |ds|
  {
    if ds != [] {
      MovesLater(ch, ds[1..], taken + ds[0].length, x);
      assert taken + x + ds[0].length == taken + ds[0].length + x;
      HeadLater(ch, ds[0], taken, x);
      MovesCons(Untranslated, ch, ds, taken);
      MovesCons(Untranslated, ch, ds, taken + x);
      LaterAppend(DescMoves(Untranslated, FROM_DEVICE, ch, ds[0], taken),
                  ListMoves(Untranslated, FROM_DEVICE, ch, ds[1..], taken + ds[0].length), x);
    }
  }

  lemma {:induction false} HeadLater(ch: ChannelInfo, d: Descriptor, taken: nat, x: nat)
    ensures DescMoves(Untranslated, FROM_DEVICE, ch, d, taken + x)
            == LaterAll(DescMoves(Untranslated, FROM_DEVICE, ch, d, taken), x)
  {
    var a := DescMoves(Untranslated, FROM_DEVICE, ch, d, taken + x);
    var b := DescMoves(Untranslated, FROM_DEVICE, ch, d, taken);
    forall k: nat | k < d.length ensures a[k] == LaterAll(b, x)[k] {
      assert a[k] == DescMove(Untranslated, FROM_DEVICE, ch, d, taken + x, k);
      assert b[k] == DescMove(Untranslated, FROM_DEVICE, ch, d, taken, k);
    }
  }

  lemma {:induction false} LaterAppend(a: seq<Move>, b: seq<Move>, x: nat)
    ensures LaterAll(a + b, x) == LaterAll(a, x) + LaterAll(b, x)
  {
  }

  /** A walk of f more than one round around the ring is a round followed by a walk of f. */
  lemma {:induction false} AroundRound(list: seq<Descriptor>, k: nat, f: nat)
    requires k < |list|
    ensures Around(list, k, |list| - k + f) == list[k..] + Around(list, 0, f)
    decreases |list| - k
  {
    var next := if k + 1 == |list| then 0 else k + 1;
    assert list[k..] == [list[k]] + list[k + 1..];
    assert Around(list, k, |list| - k + f) == [list[k]] + Around(list, next, |list| - k + f - 1);
    if k + 1 < |list| {
      AroundRound(list, k + 1, f);
    } else {
      assert list[k + 1..] == [];
    }
  }

  /** r rounds: the first one, and the others. */
  lemma {:induction false} RoundsSplit(list: seq<Descriptor>, r: nat)
    requires |list| > 0 && r > 0
    ensures Around(list, 0, Times(r, |list|)) == list + Around(list, 0, Times(r - 1, |list|))
  {
    TimesStep(r - 1, |list|);
    AroundRound(list, 0, Times(r - 1, |list|));
    assert list[0..] == list;
  }

  lemma {:induction false} SameTotals(ds: seq<Descriptor>, walked: seq<Descriptor>, slots: seq<int>)
    requires |slots| == |ds| == |walked|
    requires forall k | 0 <= k < |ds| :: SameMoves(ds[k], walked[k], slots[k])
    ensures TotalLength(ds) == TotalLength(walked)
  {
    if ds != [] {
      assert SameMoves(ds[0], walked[0], slots[0]);
      forall k | 0 <= k < |ds| - 1 ensures SameMoves(ds[1..][k], walked[1..][k], slots[1..][k]) {
        assert SameMoves(ds[k + 1], walked[k + 1], slots[k + 1]);
      }
      SameTotals(ds[1..], walked[1..], slots[1..]);
    }
  }

  /** One execution of the list, taken bytes into the stream, copies a round exactly if the data
      resolves. */
  ghost predicate RoundExact(regs: seq<RegPair>, ch: ChannelInfo, list: seq<Descriptor>, once: seq<Move>,
                             resolves: bool, taken: nat)
    requires |regs| == SLOTS
  {
    ListMoves(Resolver(regs), FROM_DEVICE, ch, list, taken) == LaterAll(once, taken) <==> resolves
  }

  lemma {:induction false} OneRound(regs: seq<RegPair>, ch: ChannelInfo, ds: seq<Descriptor>, slots: seq<int>,
                                    list: seq<Descriptor>, taken: nat)
    requires |regs| == SLOTS && |slots| == |ds| == |list|
    requires forall k | 0 <= k < |ds| :: SameMoves(ds[k], list[k], slots[k])
    ensures var once := ListMoves(Untranslated, FROM_DEVICE, ch, ds, 0);
      RoundExact(regs, ch, list, once, ResolvesAll(regs, ds, slots), taken) && |once| == TotalLength(list)
  {
    MovesExact(regs, ch, ds, slots, list, taken);
    MovesLater(ch, ds, 0, taken);
    MovesLength(Untranslated, ch, ds, 0);
    SameTotals(ds, list, slots);
  }

  lemma {:induction false} RoundsExact(regs: seq<RegPair>, ch: ChannelInfo, list: seq<Descriptor>, once: seq<Move>,
                                       resolves: bool, q: nat, r: nat)
    requires |regs| == SLOTS && |list| > 0 && |once| == TotalLength(list)
    requires forall taken: nat :: RoundExact(regs, ch, list, once, resolves, taken)
    ensures ListMoves(Resolver(regs), FROM_DEVICE, ch, Around(list, 0, Times(r, |list|)), Times(q, |once|))
            == Rounds(once, q, r)
            <==> resolves || r == 0
    decreases r
  {
    if r > 0 {
      var taken, rest := Times(q, |once|), Around(list, 0, Times(r - 1, |list|));
      RoundsSplit(list, r);
      TimesStep(q, |once|);
      assert RoundExact(regs, ch, list, once, resolves, taken);
      MovesLength(Resolver(regs), ch, list, taken);
      MovesAppend(Resolver(regs), ch, list, rest, taken);
      RoundsExact(regs, ch, list, once, resolves, q + 1, r - 1);
      HeadAndRest(ListMoves(Resolver(regs), FROM_DEVICE, ch, list, taken),
                  ListMoves(Resolver(regs), FROM_DEVICE, ch, rest, taken + |once|),
                  LaterAll(once, taken), Rounds(once, q + 1, r - 1), resolves, r - 1);
    }
  }

  lemma {:induction false} HeadAndRest(a: seq<Move>, b: seq<Move>, a': seq<Move>, b': seq<Move>, resolves: bool, r: nat)
    requires |a| == |a'| && (a == a' <==> resolves) && (b == b' <==> resolves || r == 0)
    ensures a + b == a' + b' <==> resolves
  {
    AppendEqual(a, b, a', b');
  }

  /** r rounds of a published ring copy r rounds of what it asks for exactly if the data resolves. */
  lemma {:induction false} RingMoves(f: Flight, q: nat, r: nat)
    requires f.Launched() && f.p.transferMode == MODE_STREAM && |f.ds| > 0
    ensures |f.Slots()| == |f.ds| == |f.list|
    ensures f.MovesOf(Around(f.list, 0, Times(r, |f.list|)), Times(q, |f.Asked()|)) == Rounds(f.Asked(), q, r)
            <==> ResolvesAll(f.regs, f.ds, f.Slots()) || r == 0
  {
    var ch, resolves := ChannelTable(f.p.channel), ResolvesAll(f.regs, f.ds, f.Slots());
    ListShape(f);
    forall taken: nat ensures RoundExact(f.regs, ch, f.list, f.Asked(), resolves, taken) {
      OneRound(f.regs, ch, f.ds, f.Slots(), f.list, taken);
    }
    OneRound(f.regs, ch, f.ds, f.Slots(), f.list, 0);
    RoundsExact(f.regs, ch, f.list, f.Asked(), resolves, q, r);
  }

  /** A ring, exactly. For any positive number of rounds, whatever lies around the list, the walk goes
      around the ring and copies what it asks for round after round, if and only if both the data and
      the list pass their tests. */
  lemma {:induction false} RingTransferExact(f: Flight, q: nat, r: nat)
    requires f.Launched() && f.NoZeroPage() && f.p.transferMode == MODE_STREAM && |f.ds| > 0 && r > 0
    ensures |f.Slots()| == |f.ds| == |f.list|
    ensures var fuel := Times(r, |f.list|);
      f.Performs(fuel, Times(q, |f.Asked()|), Around(f.list, 0, fuel), Rounds(f.Asked(), q, r))
      <==> f.Safe() && f.ListContained()
  {
    var fuel := Times(r, |f.list|);
    ListShape(f);
    ResolutionExact(f);
    RingMoves(f, q, r);
    TimesStep(r - 1, |f.list|);
    RingWalkExact(f.regs, f.bus, f.list, f.start, fuel);
    PerformsExact(f, fuel, Times(q, |f.Asked()|), Around(f.list, 0, fuel), Rounds(f.Asked(), q, r));
  }

  /** Streaming, end to end: byte j of round q of the device's data goes to byte j of the window of the
      request, for any positive number of rounds, if and only if its data and its list pass. */
  lemma {:induction false} StreamTransferExact(f: Flight, q: nat, r: nat)
    requires f.Valid() && f.NoZeroPage() && f.p.transferMode == MODE_STREAM && |f.ds| > 0 && r > 0
    ensures |f.Slots()| == |f.ds| == |f.list|
    ensures var fuel := Times(r, |f.list|);
      f.Performs(fuel, Times(q, f.p.bytesTotal), Around(f.list, 0, fuel), Rounds(RequestMoves(f.p, f.m), q, r))
      <==> f.Safe() && f.ListContained()
  {
    GeneratedMeaning(f.p, f.m, f.ds);
    RingTransferExact(f, q, r);
  }

  /** With data and list that pass it also holds of no rounds at all. */
  lemma {:induction false} StreamTransfer(f: Flight, q: nat, r: nat)
    requires f.Valid() && f.NoZeroPage() && f.p.transferMode == MODE_STREAM && |f.ds| > 0
    requires |f.Slots()| == |f.ds| && f.Safe() && f.ListContained()
    ensures |f.list| > 0
    ensures f.Performs(Times(r, |f.list|), Times(q, f.p.bytesTotal), Around(f.list, 0, Times(r, |f.list|)),
                       Rounds(RequestMoves(f.p, f.m), q, r))
  {
    ListShape(f);
    if r > 0 {
      StreamTransferExact(f, q, r);
    } else {
      assert Times(r, |f.list|) == 0;
    }
  }

  /** One round, exactly: the first walk around the ring copies the request. */
  lemma {:induction false} StreamRoundExact(f: Flight)
    requires f.Valid() && f.NoZeroPage() && f.p.transferMode == MODE_STREAM && |f.ds| > 0
    ensures |f.Slots()| == |f.ds| == |f.list|
    ensures f.Performs(|f.list|, 0, f.list, RequestMoves(f.p, f.m)) <==> f.Safe() && f.ListContained()
  {
    var once := RequestMoves(f.p, f.m);
    StreamTransferExact(f, 0, 1);
    RoundsSplit(f.list, 1);
    assert Times(0, |f.list|) == 0 && Times(1, |f.list|) == |f.list| && Times(0, |once|) == 0;
    assert Around(f.list, 0, |f.list|) == f.list + [] == f.list;
    assert LaterAll(once, 0) == once;
    assert Rounds(once, 0, 1) == once + Rounds(once, 1, 0) == once;
  }

  /** Of the copy alone: for safe data whose descriptors start at different addresses, a ring copies
      what it asks for, whatever lies around the list, if and only if the list passes its test. */
  lemma {:induction false} RingCopyExact(f: Flight, q: nat, r: nat)
    requires f.Launched() && f.NoZeroPage() && f.p.transferMode == MODE_STREAM && |f.ds| > 0 && r > 0
    requires DistinctStarts(f.ds)
    ensures |f.Slots()| == |f.ds| == |f.list|
    ensures f.Safe() ==>
      (f.Copies(Times(r, |f.list|), Times(q, |f.Asked()|), Rounds(f.Asked(), q, r)) <==> f.ListContained())
  {
    RingTransferExact(f, q, r);
    if f.Safe() && !f.ListContained() {
      ListShape(f);
      ListReadExact(f);
      ResolutionExact(f);
      RingMoves(f, q, r);
      TimesStep(r - 1, |f.list|);
      RoundsSplit(f.list, r);
      var should := Around(f.list, 0, Times(r, |f.list|));
      assert should[..|f.list|] == f.list;
      MissedCopies(f, Times(r, |f.list|), Times(q, |f.Asked()|), should);
    }
  }
}
