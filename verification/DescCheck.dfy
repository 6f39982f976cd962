/** The check that user-supplied descriptors stay inside the mapping, with its one-entry cache. */
module DescCheck {
  import opened Words
  import opened Descriptors
  import opened Window
  import opened Meaning
  import opened Generator
  import opened Boundaries

  /** dma_range_in_sg: [start, end) lies in the non-empty entry, whose end does not overflow. */
  predicate RangeInSg(e: SgEntry, start: u64, end: u64) {
    && e.dmaLen != 0
    && e.dmaAddr + e.dmaLen < TWO64
    && start >= e.dmaAddr && end <= e.dmaAddr + e.dmaLen
  }

  /** What acceptance means: a non-empty range that does not overflow and lies inside one entry. */
  ghost predicate InsideMapping(sgl: seq<SgEntry>, addr: u64, len: u32) {
    && 0 < len && addr + len < TWO64
    && exists i | 0 <= i < |sgl| :: RangeInSg(sgl[i], addr, addr + len)
  }

  /** dma_range_in_sgt: the cached entry (-1 for none) only saves time. Whatever it is, the answer
      is that of a plain scan. */
  method RangeInSgt(sgl: seq<SgEntry>, cached: int, addr: u64, len: u32) returns (ok: bool, cached': int)
    requires -1 <= cached < |sgl|
    ensures ok <==> InsideMapping(sgl, addr, len)
    ensures -1 <= cached' < |sgl|
    ensures !ok ==> cached' == cached
    ensures ok ==> cached' >= 0 && RangeInSg(sgl[cached'], addr, addr + len)
  {
    cached' := cached;
    if len == 0 || addr + len >= TWO64 {
      return false, cached';
    }
    var end := addr + len;
    if cached >= 0 && RangeInSg(sgl[cached], addr, end) {
      return true, cached';
    }
    var i := 0;
    while i < |sgl|
      invariant 0 <= i <= |sgl|
      invariant forall j | 0 <= j < i :: !RangeInSg(sgl[j], addr, end)
    {
      if RangeInSg(sgl[i], addr, end) {
        return true, i;
      }
      i := i + 1;
    }
    ok := false;
  }

  function CheckedAddr(d: Descriptor, checkReadAddr: bool): u64 {
    if checkReadAddr then d.ReadAddr() else d.WriteAddr()
  }

  /** tpce_validate_desc_mem: accepts exactly the lists all of whose descriptors lie inside the
      mapping. */
  method ValidateDescMem(m: Mapping, descs: seq<Descriptor>, checkReadAddr: bool) returns (ok: bool)
    ensures ok <==> forall k | 0 <= k < |descs| ::
                      InsideMapping(m.sgl, CheckedAddr(descs[k], checkReadAddr), descs[k].length)
  {
    var cached := -1;
    var i := 0;
    while i < |descs|
      invariant 0 <= i <= |descs| && -1 <= cached < |m.sgl|
      invariant forall k | 0 <= k < i ::
        InsideMapping(m.sgl, CheckedAddr(descs[k], checkReadAddr), descs[k].length)
    {
      var inside: bool;
      inside, cached := RangeInSgt(m.sgl, cached, CheckedAddr(descs[i], checkReadAddr), descs[i].length);
      if !inside {
        return false;
      }
      i := i + 1;
    }
    ok := true;
  }

  /** A generated descriptor lies in its own entry exactly when the entry's page offset, which the
      generator adds to the DMA address, does not push it over the end. */
  lemma {:induction false} OwnEntryExact(p: Params, m: Mapping, d: Descriptor, c: Chunk)
    requires WellFormed(m) && p.channel < NUM_CHANNELS && InEntry(m.sgl, c) && Addresses(p, m, d, c)
    ensures var a := HostSide(p.direction, d);
      && a + d.length < TWO64
      && (RangeInSg(m.sgl[c.idx], a, a + d.length)
          <==> m.sgl[c.idx].offset + c.off + c.len <= m.sgl[c.idx].dmaLen)
  {
    ChunkAddrFits(m, c);
  }

  /** Generator and validator agree on mappings without page offsets: every descriptor generated
      for a valid request is accepted. */
  lemma {:induction false} GeneratedAccepted(p: Params, m: Mapping, ds: seq<Descriptor>)
    requires WellFormed(m) && Accepted(p, m) && Compilable(p, m) && IsGenerated(p, m, ds)
    requires forall i | 0 <= i < |m.sgl| :: m.sgl[i].offset == 0
    ensures forall k | 0 <= k < |ds| ::
      InsideMapping(m.sgl, CheckedAddr(ds[k], p.direction == TO_DEVICE), ds[k].length)
  {
    assert !Violates(Direction, p, m);
    CompilableChunks(p, m);
    var cs := WindowChunks(m.sgl, p.mapOffset, p.bytesTotal, Step(p));
    ChunksInBounds(p, m, cs, Step(p));
    forall k | 0 <= k < |ds|
      ensures InsideMapping(m.sgl, CheckedAddr(ds[k], p.direction == TO_DEVICE), ds[k].length)
    {
      assert Addresses(p, m, ds[k], cs[k]);
      OwnEntryExact(p, m, ds[k], cs[k]);
    }
  }

  // ----- With page offsets ------------------------------------------------------------------------

  /** The test on a chunk: where the generator puts it, some entry has room for all of it. */
  predicate FitsSomeEntry(sgl: seq<SgEntry>, c: Chunk)
    requires c.idx < |sgl|
  {
    var start := sgl[c.idx].dmaAddr + sgl[c.idx].offset + c.off;
    exists i | 0 <= i < |sgl| :: FitsEntry(sgl[i], start, start + c.len)
  }

  predicate FitsEntry(e: SgEntry, start: nat, end: nat) {
    e.dmaAddr <= start && end <= e.dmaAddr + e.dmaLen
  }

  /** The validator accepts a generated list, of any mapping and window, exactly if every chunk passes
      the test. */
  lemma {:induction false} AcceptanceExact(p: Params, m: Mapping, ds: seq<Descriptor>)
    requires WellFormed(m) && Accepted(p, m) && Compilable(p, m) && IsGenerated(p, m, ds)
    ensures var cs := WindowChunks(m.sgl, p.mapOffset, p.bytesTotal, Step(p));
      && |cs| == |ds| && (forall k | 0 <= k < |cs| :: cs[k].idx < |m.sgl|)
      && ((forall k | 0 <= k < |ds| ::
             InsideMapping(m.sgl, CheckedAddr(ds[k], p.direction == TO_DEVICE), ds[k].length))
          <==> forall k | 0 <= k < |cs| :: FitsSomeEntry(m.sgl, cs[k]))
  {
    assert !Violates(Direction, p, m);
    CompilableChunks(p, m);
    var cs := WindowChunks(m.sgl, p.mapOffset, p.bytesTotal, Step(p));
    ChunksInBounds(p, m, cs, Step(p));
    forall k | 0 <= k < |ds|
      ensures InsideMapping(m.sgl, CheckedAddr(ds[k], p.direction == TO_DEVICE), ds[k].length)
              <==> FitsSomeEntry(m.sgl, cs[k])
    {
      assert Addresses(p, m, ds[k], cs[k]);
      OneAcceptanceExact(p, m, ds[k], cs[k]);
    }
  }

  lemma {:induction false} OneAcceptanceExact(p: Params, m: Mapping, d: Descriptor, c: Chunk)
    requires WellFormed(m) && p.channel < NUM_CHANNELS && InEntry(m.sgl, c) && Addresses(p, m, d, c)
    requires p.direction == TO_DEVICE || p.direction == FROM_DEVICE
    ensures InsideMapping(m.sgl, CheckedAddr(d, p.direction == TO_DEVICE), d.length) <==> FitsSomeEntry(m.sgl, c)
  {
    ChunkAddrFits(m, c);
    var start := CheckedAddr(d, p.direction == TO_DEVICE);
    forall i | 0 <= i < |m.sgl|
      ensures RangeInSg(m.sgl[i], start, start + d.length) <==> FitsEntry(m.sgl[i], start, start + d.length)
    {
      assert m.sgl[i].dmaAddr + m.sgl[i].offset + m.sgl[i].dmaLen < TWO64;
    }
  }

  /** Every entry leaves a gap of its page offset behind it before another entry begins. */
  predicate Isolated(sgl: seq<SgEntry>) {
    forall i, j | 0 <= i < |sgl| && 0 <= j < |sgl| && i != j && sgl[j].dmaLen > 0 ::
      sgl[i].dmaAddr + sgl[i].offset + sgl[i].dmaLen <= sgl[j].dmaAddr
      || sgl[j].dmaAddr + sgl[j].dmaLen <= sgl[i].dmaAddr
  }

  /** The test on entry i: the page offset does not push the part of the entry that the window uses
      over its end. */
  predicate OffsetFits(sgl: seq<SgEntry>, i: nat, start: nat, total: nat)
    requires i < |sgl|
  {
    var lo, e := Prefix(sgl, i), sgl[i];
    e.dmaLen > 0 && lo < start + total && start < lo + e.dmaLen ==>
      e.offset + Min(e.dmaLen, start + total - lo) <= e.dmaLen
  }

  /** On isolated entries generator and validator agree on a request, for any window, exactly if the
      page offset of every entry of the window passes its test. An entry that is used up to its
      end passes only with offset 0. */
  lemma {:induction false} OffsetDisagreement(p: Params, m: Mapping, ds: seq<Descriptor>)
    requires WellFormed(m) && Accepted(p, m) && Compilable(p, m) && IsGenerated(p, m, ds) && p.bytesTotal > 0
    requires Isolated(m.sgl)
    ensures (forall k | 0 <= k < |ds| ::
               InsideMapping(m.sgl, CheckedAddr(ds[k], p.direction == TO_DEVICE), ds[k].length))
            <==> forall i | 0 <= i < |m.sgl| :: OffsetFits(m.sgl, i, p.mapOffset, p.bytesTotal)
  {
    AcceptanceExact(p, m, ds);
    CompilableChunks(p, m);
    var cs := WindowChunks(m.sgl, p.mapOffset, p.bytesTotal, Step(p));
    TilesInEntry(m.sgl, cs, p.mapOffset, p.bytesTotal, Step(p));
    forall k | 0 <= k < |cs|
      ensures FitsSomeEntry(m.sgl, cs[k]) <==> OwnEntryFits(m.sgl, cs[k])
    {
      IsolatedOwnEntry(m.sgl, cs[k]);
    }
    OwnEntriesExact(m.sgl, cs, p.mapOffset, p.bytesTotal, Step(p));
  }

  /** All chunks fit their own entries exactly if the offset of every entry passes its test. */
  lemma {:induction false} OwnEntriesExact(sgl: seq<SgEntry>, cs: seq<Chunk>, start: nat, total: nat, step: nat)
    requires Tiles(sgl, cs, start, total, step) && total > 0
    requires forall k | 0 <= k < |cs| :: cs[k].idx < |sgl|
    ensures (forall k | 0 <= k < |cs| :: OwnEntryFits(sgl, cs[k]))
            <==> forall i | 0 <= i < |sgl| :: OffsetFits(sgl, i, start, total)
  {
    if forall k | 0 <= k < |cs| :: OwnEntryFits(sgl, cs[k]) {
      forall i | 0 <= i < |sgl| ensures OffsetFits(sgl, i, start, total) {
        LastByteFits(sgl, cs, start, total, step, i);
      }
    }
    if forall i | 0 <= i < |sgl| :: OffsetFits(sgl, i, start, total) {
      forall k | 0 <= k < |cs| ensures OwnEntryFits(sgl, cs[k]) {
        ChunkInWindow(sgl, cs, start, total, step, k);
        assert OffsetFits(sgl, cs[k].idx, start, total);
      }
    }
  }

  predicate OwnEntryFits(sgl: seq<SgEntry>, c: Chunk)
    requires c.idx < |sgl|
  {
    sgl[c.idx].offset + c.off + c.len <= sgl[c.idx].dmaLen
  }

  lemma {:induction false} IsolatedOwnEntry(sgl: seq<SgEntry>, c: Chunk)
    requires InEntry(sgl, c) && Isolated(sgl)
    ensures FitsSomeEntry(sgl, c) <==> OwnEntryFits(sgl, c)
  {
    var e, start := sgl[c.idx], sgl[c.idx].dmaAddr + sgl[c.idx].offset + c.off;
    if OwnEntryFits(sgl, c) {
      assert FitsEntry(e, start, start + c.len);
    }
    forall i | 0 <= i < |sgl| && FitsEntry(sgl[i], start, start + c.len) ensures i == c.idx {
    }
  }

  /** Every chunk of a tiling lies in the window. */
  lemma {:induction false} ChunkInWindow(sgl: seq<SgEntry>, cs: seq<Chunk>, start: nat, total: nat, step: nat, k: nat)
    requires Tiles(sgl, cs, start, total, step) && k < |cs|
    ensures InEntry(sgl, cs[k]) && start <= Pos(sgl, cs[k]) && Pos(sgl, cs[k]) + cs[k].len <= start + total
    decreases |cs|
  {
    if k > 0 {
      ChunkInWindow(sgl, cs[1..], start + cs[0].len, total - cs[0].len, step, k - 1);
    }
  }

  /** Every byte of the window lies in a chunk. */
  lemma {:induction false} ChunkOf(sgl: seq<SgEntry>, cs: seq<Chunk>, start: nat, total: nat, step: nat, x: nat)
    returns (k: nat)
    requires Tiles(sgl, cs, start, total, step) && start <= x < start + total
    ensures k < |cs| && InEntry(sgl, cs[k]) && Pos(sgl, cs[k]) <= x < Pos(sgl, cs[k]) + cs[k].len
    decreases |cs|
  {
    if x < start + cs[0].len {
      k := 0;
    } else {
      var j := ChunkOf(sgl, cs[1..], start + cs[0].len, total - cs[0].len, step, x);
      k := j + 1;
    }
  }

  /** The chunk with the last byte that the window uses of entry i decides its offset. */
  lemma {:induction false} LastByteFits(sgl: seq<SgEntry>, cs: seq<Chunk>, start: nat, total: nat, step: nat, i: nat)
    requires Tiles(sgl, cs, start, total, step) && total > 0 && i < |sgl|
    requires forall k | 0 <= k < |cs| :: cs[k].idx < |sgl| && OwnEntryFits(sgl, cs[k])
    ensures OffsetFits(sgl, i, start, total)
  {
    var lo, e := Prefix(sgl, i), sgl[i];
    if e.dmaLen > 0 && lo < start + total && start < lo + e.dmaLen {
      var x := lo + Min(e.dmaLen, start + total - lo) - 1;
      var k := ChunkOf(sgl, cs, start, total, step, x);
      ChunkInWindow(sgl, cs, start, total, step, k);
      var c := cs[k];
      BoundaryEntry(sgl, c.idx, x - Prefix(sgl, c.idx), i, x - lo);
      assert c.idx == i && c.off + c.len >= x - lo + 1;
      assert OwnEntryFits(sgl, c);
    }
  }

  /** Adjacent entries can make up for an offset: every list of 8-byte descriptors over these two
      entries is accepted, although the first has page offset 8. */
  lemma {:induction false} NeighbourAccepts(p: Params, m: Mapping, ds: seq<Descriptor>)
    requires WellFormed(m) && Accepted(p, m) && Compilable(p, m) && IsGenerated(p, m, ds)
    requires m.sgl == [SgEntry(0x1000, 16, 8), SgEntry(0x1010, 16, 0)]
    requires p.bytesPerDescriptor == 8 && Locate(m.sgl, 0, p.mapOffset).1 % 8 == 0
    ensures forall k | 0 <= k < |ds| ::
      InsideMapping(m.sgl, CheckedAddr(ds[k], p.direction == TO_DEVICE), ds[k].length)
  {
    AcceptanceExact(p, m, ds);
    CompilableChunks(p, m);
    var (idx, off) := Locate(m.sgl, 0, p.mapOffset);
    var cs := WindowChunks(m.sgl, p.mapOffset, p.bytesTotal, 8);
    TilesInEntry(m.sgl, cs, p.mapOffset, p.bytesTotal, 8);
    ChunkOffsets(m.sgl, idx, off, p.bytesTotal, 8);
    forall k | 0 <= k < |cs| ensures FitsSomeEntry(m.sgl, cs[k]) {
      NeighbourFits(m.sgl, cs[k]);
    }
  }

  lemma {:induction false} NeighbourFits(sgl: seq<SgEntry>, c: Chunk)
    requires sgl == [SgEntry(0x1000, 16, 8), SgEntry(0x1010, 16, 0)]
    requires InEntry(sgl, c) && c.off % 8 == 0 && c.len == 8
    ensures FitsSomeEntry(sgl, c)
  {
    var start := sgl[c.idx].dmaAddr + sgl[c.idx].offset + c.off;
    assert c.off == 0 || c.off == 8;
    assert FitsEntry(sgl[0], start, start + 8) || FitsEntry(sgl[1], start, start + 8);
  }
}
