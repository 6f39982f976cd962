/** Lists of descriptors that the user supplies: validated, copied, started, and what they then copy. */
module UserLists {
  import opened Words
  import opened Bits
  import opened Descriptors
  import opened Window
  import opened Meaning
  import opened Generator
  import opened PageTable
  import opened Translate
  import opened Publish
  import opened Space
  import opened DescCheck
  import opened Walk
  import opened EndToEnd
  import opened Transfers

  /** What tpce_validate_desc_mem makes sure of for a transfer from the device. */
  ghost predicate Validated(m: Mapping, ds: seq<Descriptor>) {
    forall k | 0 <= k < |ds| :: InsideMapping(m.sgl, CheckedAddr(ds[k], false), ds[k].length)
  }

  /** The list part of init_dma_info for a list of the user, which the ioctl has limited to 256
      descriptors: copied into the plain buffer, validated, copied to the coherent one. */
  method TakeUserList(p: Params, m: Mapping, user: seq<Descriptor>, desc: array<Descriptor>, info: DmaInfo)
    returns (ok: bool)
    requires p.channel < NUM_CHANNELS && p.direction == FROM_DEVICE && |user| <= 256
    requires desc != info.descDma && desc.Length == info.descDma.Length
    requires 0 < DESC_BYTES * |user| + Terminator(p) <= DESC_BYTES * desc.Length
    modifies desc, info`params, info`descActive, info`descSize, info`state, info.descDma
    ensures ok <==> Validated(m, user)
    ensures !ok ==> info.state == old(info.state) && info.descDma[..] == old(info.descDma[..])
    ensures ok ==> info.Ready() && info.params == p && info.state == Initialized
    ensures ok ==> info.descActive / DESC_BYTES == |user| <= info.descDma.Length && info.descDma[..|user|] == user
  {
    forall i | 0 <= i < |user| {
      desc[i] := user[i];
    }
    assert desc[..|user|] == user;
    ok := ValidateDescMem(m, desc[..|user|], false);
    if ok {
      CopyList(p, desc, info, |user|);
    }
  }

  /** init_dma_info and dma_start for a list of the user. The transfer starts exactly if the list is
      valid and the table has room. */
  method TakeAndStart(p: Params, m: Mapping, user: seq<Descriptor>, desc: array<Descriptor>, table: PageTable,
                      info: DmaInfo, regs: Registers)
    returns (ok: bool, started: bool, ghost f: Flight)
    requires p.channel < NUM_CHANNELS && p.direction == FROM_DEVICE && |user| <= 256
    requires table.Valid() && regs.translation.Length == SLOTS && Apart(table, info, regs, desc)
    requires NoDuplicates(table.View()) && PagesAligned(table.View())
    requires desc as object != table.pages && desc as object != table.activeChannel
    requires desc as object != regs.translation
    requires desc.Length == info.descDma.Length && info.descBusAddr % DESC_BYTES == 0
    requires 0 < DESC_BYTES * |user| + Terminator(p) <= DESC_BYTES * desc.Length
    modifies desc, info, info.descDma, table, table.pages, table.activeChannel, regs, regs.translation
    ensures table.Valid()
    ensures ok <==> Validated(m, user)
    ensures started <==> ok && HasRoom(old(table.View()), p, old(info.descBusAddr), WriteAddrs(user))
    ensures started ==>
      && f.JustStarted() && f.Started() && f.p == p && f.m == m && f.ds == user && f.bus == old(info.descBusAddr)
      && f.t0 == old(table.View()) && f.t == table.View()
      && f.regs0 == old(regs.translation[..]) && f.regs == regs.translation[..]
      && f.start == regs.nextDescLow && regs.nextDescHigh == 0
      && |f.list| <= info.descDma.Length && f.list == info.descDma[..|f.list|]
  {
    f, started := *, false;
    ghost var t0, regs0 := table.View(), regs.translation[..];
    ok := TakeUserList(p, m, user, desc, info);
    if !ok {
      return;
    }
    var res := DmaStart(table, info, regs);
    started := res == Started;
    StartExact(t0, p, info.descBusAddr, WriteAddrs(user));
    if started {
      f := Flight(p, m, user, t0, regs0, info.descBusAddr, table.View(), regs.translation[..],
                  info.descDma[..info.descSize / DESC_BYTES], info.descBusAddrTranslated);
      StartPrograms(f);
    }
  }

  /** A validated list of the user in DEFAULT mode is executed, each descriptor once and in order, and
      copies what it says, if and only if its data and the list itself pass their tests. */
  lemma {:induction false} UserTransferExact(f: Flight, fuel: nat)
    requires f.Started() && Validated(f.m, f.ds) && f.NoZeroPage()
    requires f.p.transferMode != MODE_STREAM && fuel > |f.ds|
    ensures |f.Slots()| == |f.ds| == |f.list| - 1
    ensures f.Performs(fuel, 0, f.list[..|f.ds|], f.Asked()) <==> f.Safe() && f.ListContained()
  {
    ValidatedLengths(f.m, f.ds);
    ChainTransferExact(f, fuel);
  }

  /** ... and one in STREAM mode, round after round. */
  lemma {:induction false} UserStreamExact(f: Flight, q: nat, r: nat)
    requires f.Started() && Validated(f.m, f.ds) && f.NoZeroPage()
    requires f.p.transferMode == MODE_STREAM && |f.ds| > 0 && r > 0
    ensures |f.Slots()| == |f.ds| == |f.list|
    ensures var fuel := Times(r, |f.list|);
      f.Performs(fuel, Times(q, |f.Asked()|), Around(f.list, 0, fuel), Rounds(f.Asked(), q, r))
      <==> f.Safe() && f.ListContained()
  {
    ValidatedLengths(f.m, f.ds);
    RingTransferExact(f, q, r);
  }

  lemma {:induction false} ValidatedLengths(m: Mapping, ds: seq<Descriptor>)
    requires Validated(m, ds)
    ensures forall k | 0 <= k < |ds| :: ds[k].length > 0
  {
    forall k | 0 <= k < |ds| ensures ds[k].length > 0 {
      assert InsideMapping(m.sgl, CheckedAddr(ds[k], false), ds[k].length);
    }
  }

  /** The address lies in an entry of the mapping. */
  ghost predicate InMapping(m: Mapping, a: int) {
    exists i | 0 <= i < |m.sgl| :: m.sgl[i].dmaAddr <= a < m.sgl[i].dmaAddr + m.sgl[i].dmaLen
  }

  ghost predicate IntoMapping(m: Mapping, mv: Move) {
    mv.dst.Host? && InMapping(m, mv.dst.addr)
  }

  /** Every byte that a validated list says to copy goes into the mapping. */
  lemma {:induction false} AskedInMapping(m: Mapping, ch: ChannelInfo, ds: seq<Descriptor>, taken: nat)
    requires Validated(m, ds)
    ensures forall mv | mv in ListMoves(Untranslated, FROM_DEVICE, ch, ds, taken) :: IntoMapping(m, mv)
    decreases |ds|
  {
    if ds != [] {
      var head := DescMoves(Untranslated, FROM_DEVICE, ch, ds[0], taken);
      MovesCons(Untranslated, ch, ds, taken);
      AskedInMapping(m, ch, ds[1..], taken + ds[0].length);
      assert InsideMapping(m.sgl, CheckedAddr(ds[0], false), ds[0].length);
      var i :| 0 <= i < |m.sgl| && RangeInSg(m.sgl[i], ds[0].WriteAddr(), ds[0].WriteAddr() + ds[0].length);
      forall j: nat | j < |head| ensures IntoMapping(m, head[j]) {
        assert head[j] == DescMove(Untranslated, FROM_DEVICE, ch, ds[0], taken, j);
        assert m.sgl[i].dmaAddr <= ds[0].WriteAddr() + j < m.sgl[i].dmaAddr + m.sgl[i].dmaLen;
      }
    }
  }

  /** So a transfer of such a list that passes its tests writes nothing outside the mapping, whatever
      lies around the list. */
  lemma {:induction false} UserStaysInside(f: Flight, mem: Memory, fuel: nat)
    requires f.Started() && Validated(f.m, f.ds) && f.NoZeroPage()
    requires f.p.transferMode != MODE_STREAM && fuel > |f.ds|
    requires |f.Slots()| == |f.ds| && f.Safe() && f.ListContained() && HoldsList(mem, f.bus, f.list)
    ensures forall mv | mv in f.Copied(mem, fuel, 0) :: IntoMapping(f.m, mv)
  {
    UserTransferExact(f, fuel);
    AskedInMapping(f.m, ChannelTable(f.p.channel), f.ds, 0);
    assert f.Copied(mem, fuel, 0) == f.Asked();
  }

  // ----- Exactly when a list writes inside its mapping ------------------------------------------------------

  /** The part in window q of len bytes at device-side address a goes to bus addresses of the mapping. */
  ghost predicate PartInside(m: Mapping, regs: seq<RegPair>, a: nat, len: nat, q: nat)
    requires |regs| == SLOTS
  {
    var lo, hi := Max(a, q * 0x4_0000), Min(a + len, (q + 1) * 0x4_0000);
    lo < hi ==>
      && q < SLOTS
      && var to := RegBase(regs[q]) - q * 0x4_0000;
         forall x | to + lo <= x < to + hi :: InMapping(m, x)
  }

  /** So do all its parts. */
  ghost predicate DescInside(m: Mapping, regs: seq<RegPair>, a: nat, len: nat)
    requires |regs| == SLOTS
  {
    forall q | a / 0x4_0000 <= q <= (a + len) / 0x4_0000 :: PartInside(m, regs, a, len, q)
  }

  ghost predicate ByteInside(m: Mapping, regs: seq<RegPair>, a: nat, j: nat)
    requires |regs| == SLOTS
  {
    InMapping(m, Resolve(regs, a + j))
  }

  ghost predicate BytesInside(m: Mapping, regs: seq<RegPair>, a: nat, len: nat)
    requires |regs| == SLOTS
  {
    forall j: nat | j < len :: ByteInside(m, regs, a, j)
  }

  /** The test, part by part, is that every byte resolves into the mapping. */
  lemma {:induction false} DescInsideExact(m: Mapping, regs: seq<RegPair>, a: nat, len: nat)
    requires |regs| == SLOTS
    ensures BytesInside(m, regs, a, len) <==> DescInside(m, regs, a, len)
  {
    if BytesInside(m, regs, a, len) {
      forall q | a / 0x4_0000 <= q <= (a + len) / 0x4_0000 ensures PartInside(m, regs, a, len, q) {
        PartOfBytes(m, regs, a, len, q);
      }
    }
    if DescInside(m, regs, a, len) {
      forall j: nat | j < len ensures ByteInside(m, regs, a, j) {
        ByteOfPart(m, regs, a, len, j);
      }
    }
  }

  lemma {:induction false} PartOfBytes(m: Mapping, regs: seq<RegPair>, a: nat, len: nat, q: nat)
    requires |regs| == SLOTS && BytesInside(m, regs, a, len)
    ensures PartInside(m, regs, a, len, q)
  {
    var lo, hi := Max(a, q * 0x4_0000), Min(a + len, (q + 1) * 0x4_0000);
    if lo < hi {
      assert ByteInside(m, regs, a, lo - a);
      var to := if q < SLOTS then RegBase(regs[q]) - q * 0x4_0000 else 0;
      forall x | to + lo <= x < to + hi ensures q < SLOTS ==> InMapping(m, x) {
        var b := x - to;
        assert ByteInside(m, regs, a, b - a);
        DivModUnique(b, q, b - q * 0x4_0000, 0x4_0000);
      }
    }
  }

  lemma {:induction false} ByteOfPart(m: Mapping, regs: seq<RegPair>, a: nat, len: nat, j: nat)
    requires |regs| == SLOTS && j < len && DescInside(m, regs, a, len)
    ensures ByteInside(m, regs, a, j)
  {
    var q := (a + j) / 0x4_0000;
    DivMono(a, a + j, 0x4_0000);
    DivMono(a + j, a + len, 0x4_0000);
    assert PartInside(m, regs, a, len, q);
    assert a + j == q * 0x4_0000 + (a + j) % 0x4_0000;
  }

  ghost predicate AllInto(m: Mapping, mvs: seq<Move>) {
    forall i | 0 <= i < |mvs| :: IntoMapping(m, mvs[i])
  }

  /** What a walk copies goes into the mapping exactly if every byte of every descriptor resolves there. */
  lemma {:induction false} MovesInside(m: Mapping, regs: seq<RegPair>, ch: ChannelInfo, walked: seq<Descriptor>,
                                       taken: nat)
    requires |regs| == SLOTS
    ensures AllInto(m, ListMoves(Resolver(regs), FROM_DEVICE, ch, walked, taken))
            <==> forall k | 0 <= k < |walked| :: BytesInside(m, regs, walked[k].WriteAddr(), walked[k].length)
    decreases |walked|
  {
    if walked != [] {
      var head := DescMoves(Resolver(regs), FROM_DEVICE, ch, walked[0], taken);
      var rest := ListMoves(Resolver(regs), FROM_DEVICE, ch, walked[1..], taken + walked[0].length);
      MovesCons(Resolver(regs), ch, walked, taken);
      MovesInside(m, regs, ch, walked[1..], taken + walked[0].length);
      HeadInside(m, regs, ch, walked[0], taken);
      IntoAppend(m, head, rest);
      forall k | 1 <= k < |walked| ensures walked[1..][k - 1] == walked[k] {
      }
      HeadTail(m, regs, walked);
    }
  }

  ghost predicate WalkInside(m: Mapping, regs: seq<RegPair>, walked: seq<Descriptor>)
    requires |regs| == SLOTS
  {
    forall k | 0 <= k < |walked| :: BytesInside(m, regs, walked[k].WriteAddr(), walked[k].length)
  }

  lemma {:induction false} HeadTail(m: Mapping, regs: seq<RegPair>, walked: seq<Descriptor>)
    requires |regs| == SLOTS && walked != []
    ensures WalkInside(m, regs, walked)
            <==> BytesInside(m, regs, walked[0].WriteAddr(), walked[0].length) && WalkInside(m, regs, walked[1..])
  {
    if WalkInside(m, regs, walked[1..]) {
      forall k | 1 <= k < |walked| ensures BytesInside(m, regs, walked[k].WriteAddr(), walked[k].length) {
        assert walked[1..][k - 1] == walked[k];
      }
    }
  }

  lemma {:induction false} HeadInside(m: Mapping, regs: seq<RegPair>, ch: ChannelInfo, w: Descriptor, taken: nat)
    requires |regs| == SLOTS
    ensures AllInto(m, DescMoves(Resolver(regs), FROM_DEVICE, ch, w, taken))
            <==> BytesInside(m, regs, w.WriteAddr(), w.length)
  {
    var mvs := DescMoves(Resolver(regs), FROM_DEVICE, ch, w, taken);
    forall j: nat | j < w.length
      ensures IntoMapping(m, mvs[j]) <==> ByteInside(m, regs, w.WriteAddr(), j)
    {
      assert mvs[j] == DescMove(Resolver(regs), FROM_DEVICE, ch, w, taken, j);
    }
  }

  lemma {:induction false} IntoAppend(m: Mapping, a: seq<Move>, b: seq<Move>)
    ensures AllInto(m, a + b) <==> AllInto(m, a) && AllInto(m, b)
  {
    if AllInto(m, a + b) {
      forall i | 0 <= i < |a| ensures IntoMapping(m, a[i]) {
        assert (a + b)[i] == a[i];
      }
      forall i | 0 <= i < |b| ensures IntoMapping(m, b[i]) {
        assert (a + b)[|a| + i] == b[i];
      }
    }
  }

  /** The test on a started transfer: where its slots and registers send it, every part of every descriptor
      lies in the mapping. */
  ghost predicate ListInside(f: Flight)
    requires f.Started() && |f.Slots()| == |f.ds|
  {
    forall k | 0 <= k < |f.ds| ::
      DescInside(f.m, f.regs, SlotAddr(f.ds[k].WriteAddr(), f.Slots()[k]), f.ds[k].length)
  }

  lemma {:induction false} RelocatedInside(f: Flight)
    requires f.Launched()
    ensures |f.Slots()| == |f.ds| <= |f.list|
    ensures WalkInside(f.m, f.regs, f.list[..|f.ds|]) <==> ListInside(f)
  {
    ListShape(f);
    forall k | 0 <= k < |f.ds|
      ensures BytesInside(f.m, f.regs, f.list[..|f.ds|][k].WriteAddr(), f.list[..|f.ds|][k].length)
              <==> DescInside(f.m, f.regs, SlotAddr(f.ds[k].WriteAddr(), f.Slots()[k]), f.ds[k].length)
    {
      assert SameMoves(f.ds[k], f.list[..|f.ds|][k], f.Slots()[k]);
      DescInsideExact(f.m, f.regs, f.list[..|f.ds|][k].WriteAddr(), f.list[..|f.ds|][k].length);
    }
  }

  /** A validated list of the user in DEFAULT mode writes only inside its mapping, with any memory around
      it, if and only if it passes that test. Such a list, of at most 256 descriptors, passes the test on
      lists by its size (UserListContained). */
  lemma {:induction false} UserInsideExact(f: Flight, mem: Memory, fuel: nat)
    requires f.Started() && Validated(f.m, f.ds) && f.p.transferMode != MODE_STREAM && fuel > |f.ds|
    requires f.ListContained() && HoldsList(mem, f.bus, f.list)
    ensures |f.Slots()| == |f.ds|
    ensures AllInto(f.m, f.Copied(mem, fuel, 0)) <==> ListInside(f)
  {
    ValidatedLengths(f.m, f.ds);
    ListShape(f);
    ListReadExact(f);
    ChainWalk(f.regs, mem, f.bus, f.list, f.start, |f.ds|, fuel);
    MovesInside(f.m, f.regs, ChannelTable(f.p.channel), f.list[..|f.ds|], 0);
    RelocatedInside(f);
  }

  /** ... and so does one in STREAM mode, from the first round on. */
  lemma {:induction false} UserRingInsideExact(f: Flight, mem: Memory, fuel: nat, taken: nat)
    requires f.Started() && Validated(f.m, f.ds) && f.p.transferMode == MODE_STREAM && fuel >= |f.ds| > 0
    requires f.ListContained() && HoldsList(mem, f.bus, f.list)
    ensures |f.Slots()| == |f.ds|
    ensures AllInto(f.m, f.Copied(mem, fuel, taken)) <==> ListInside(f)
  {
    ValidatedLengths(f.m, f.ds);
    ListShape(f);
    ListReadExact(f);
    RingWalk(f.regs, mem, f.bus, f.list, f.start, 0, fuel);
    assert DescAddr(f.start, 0) == f.start;
    MovesInside(f.m, f.regs, ChannelTable(f.p.channel), Around(f.list, 0, fuel), taken);
    AroundInside(f.m, f.regs, f.list, fuel);
    RelocatedInside(f);
  }

  lemma {:induction false} AroundInside(m: Mapping, regs: seq<RegPair>, list: seq<Descriptor>, fuel: nat)
    requires |regs| == SLOTS && fuel >= |list| > 0
    ensures WalkInside(m, regs, Around(list, 0, fuel)) <==> WalkInside(m, regs, list)
  {
    AroundLength(list, 0, fuel);
    forall i | 0 <= i < fuel ensures Around(list, 0, fuel)[i] == list[i % |list|] {
      AroundAt(list, 0, fuel, i);
    }
    forall i | 0 <= i < |list| ensures Around(list, 0, fuel)[i] == list[i] {
      SmallMod(i, |list|);
    }
  }

  /** At most 256 descriptors and a terminator, in memory aligned to a power of two not below their size, lie
      in one page. */
  lemma {:induction false} UserListContained(f: Flight, e: nat)
    requires f.Launched() && |f.ds| <= 256 && f.bus % Pow2(e) == 0 && DESC_BYTES * |f.list| <= Pow2(e)
    ensures f.ListContained()
  {
    ListShape(f);
    ListInPageExact(f, e);
  }

  // ----- A validated list that writes elsewhere ---------------------------------------------------------------

  /** One descriptor of the user over all of an entry across the boundary of a 256 KiB page. */
  predicate CrossingList(m: Mapping, ds: seq<Descriptor>) {
    && m.sgl == [SgEntry(0x13_FFF8, 16, 0)] && m.size == 16 && m.direction == FROM_DEVICE
    && |ds| == 1 && ds[0].WriteAddr() == 0x13_FFF8 && ds[0].length == 16
  }

  lemma {:induction false} CrossingValidated(m: Mapping, ds: seq<Descriptor>)
    requires CrossingList(m, ds)
    ensures Validated(m, ds)
  {
    assert RangeInSg(m.sgl[0], 0x13_FFF8, 0x14_0008);
  }

  lemma {:induction false} CrossingEscapes(f: Flight)
    requires f.JustStarted() && f.Started() && CrossingList(f.m, f.ds)
    requires f.t0 == EMPTY_TABLE && f.regs0 == ZERO_REGS && f.bus == LIST_BUS
    ensures |f.Slots()| == |f.ds| && !ListInside(f)
  {
    SlotsUsed(f);
    assert f.DataPages() == [0x10_0000];
    SlotsOwned(ListTable(f.t0, f.p.channel, f.bus), f.p.channel, WriteAddrs(f.ds), |f.ds|);
    var slot := f.Slots()[0];
    assert 0 <= slot < SLOTS;
    if slot + 1 < SLOTS {
      RegistersAlone(f, slot + 1);
    }
    OutsideNext(f.m, f.regs, f.ds, slot);
  }

  lemma {:induction false} OutsideNext(m: Mapping, regs: seq<RegPair>, ds: seq<Descriptor>, slot: nat)
    requires |regs| == SLOTS && slot < SLOTS && CrossingList(m, ds)
    requires slot + 1 < SLOTS ==> RegBase(regs[slot + 1]) in {0, 0x30_0000, 0x10_0000}
    ensures !DescInside(m, regs, SlotAddr(0x13_FFF8, slot), 16)
  {
    var a := SlotAddr(0x13_FFF8, slot);
    DivModUnique(a + 8, slot + 1, 0, 0x4_0000);
    DescInsideExact(m, regs, a, 16);
    assert !ByteInside(m, regs, a, 8);
  }

  /** It is validated, starts, and, alone on the device, writes its last bytes outside the mapping, whatever
      lies around the list. */
  lemma {:induction false} UserEscapes() returns (f: Flight)
    ensures f.Started() && Validated(f.m, f.ds) && CrossingList(f.m, f.ds) && f.p.transferMode == MODE_DEFAULT
    ensures forall mem, fuel: nat | HoldsList(mem, f.bus, f.list) && fuel > |f.ds| ::
              !AllInto(f.m, f.Copied(mem, fuel, 0))
  {
    var ds := [ZERO_DESCRIPTOR.(writeLow := 0x13_FFF8, length := 16)];
    f := EscapingFlight(CROSSING, ds);
  }

  lemma {:induction false} EscapingFlight(m: Mapping, ds: seq<Descriptor>) returns (f: Flight)
    requires CrossingList(m, ds)
    ensures f.Started() && Validated(m, ds) && f.m == m && f.ds == ds && f.p.transferMode == MODE_DEFAULT
    ensures forall mem, fuel: nat | HoldsList(mem, f.bus, f.list) && fuel > |f.ds| ::
              !AllInto(f.m, f.Copied(mem, fuel, 0))
  {
    var p := WholeMapping(16);
    CrossingValidated(m, ds);
    EmptyRoom(p, WriteAddrs(ds));
    f := ListTakesOff(p, m, ds, EMPTY_TABLE, ZERO_REGS, LIST_BUS);
    CrossingEscapes(f);
    ValidatedLengths(m, ds);
    ListShape(f);
    ShortListContained(f);
    forall mem, fuel: nat | HoldsList(mem, f.bus, f.list) && fuel > |f.ds|
      ensures !AllInto(f.m, f.Copied(mem, fuel, 0))
    {
      UserInsideExact(f, mem, fuel);
    }
  }
}
