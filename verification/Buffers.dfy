/** The descriptor buffer of STREAM mode, which has no room for a terminator: exactly when it is
    large enough whatever the fragmentation of the mapping. */
module Buffers {
  import opened Words
  import opened Descriptors
  import opened Window
  import opened Capacity
  import opened Generator

  // ----- The most fragmented mapping ---------------------------------------------------------------

  /** How many memory pages the first size bytes of a mapping take. */
  function PageCount(size: nat, c: nat): nat {
    if size == 0 then 0 else PageOf(size - 1, c) + 1
  }

  /** Where memory page i ends in the mapping. */
  function PageEnd(i: nat, size: nat, c: nat): nat
    requires c < PAGE_SIZE
  {
    Min((i + 1) * PAGE_SIZE - c, size)
  }

  /** A mapping of size bytes that starts c bytes into a memory page, each page an entry of its own. */
  function Fragmented(size: nat, c: nat): (sgl: seq<SgEntry>)
    requires c < PAGE_SIZE
    ensures |sgl| == PageCount(size, c)
  {
    seq(PageCount(size, c), i requires 0 <= i < PageCount(size, c) =>
      PageEntry(i, size, c))
  }

  function PageEntry(i: nat, size: nat, c: nat): SgEntry
    requires c < PAGE_SIZE && i < PageCount(size, c)
  {
    PageStart(i, size, c);
    SgEntry(W64(0x2000 * (i + 1)), PageEnd(i, size, c) - Max(0, i * PAGE_SIZE - c), 0)
  }

  /** Page i is not empty. */
  lemma {:induction false} PageStart(i: nat, size: nat, c: nat)
    requires c < PAGE_SIZE && i < PageCount(size, c)
    ensures 0 < PageEnd(i, size, c) - Max(0, i * PAGE_SIZE - c) <= PAGE_SIZE
  {
    var q := (size - 1 + c) / PAGE_SIZE;
    assert i <= q && q * PAGE_SIZE <= size - 1 + c;
    MulMono(i, q, PAGE_SIZE);
  }

  lemma {:induction false} FragmentedPrefix(size: nat, c: nat, i: nat)
    requires c < PAGE_SIZE && 0 < i <= PageCount(size, c)
    ensures Prefix(Fragmented(size, c), i) == PageEnd(i - 1, size, c)
    ensures i < PageCount(size, c) ==> Prefix(Fragmented(size, c), i) == i * PAGE_SIZE - c
    ensures i == PageCount(size, c) ==> Prefix(Fragmented(size, c), i) == size
  {
    var sgl := Fragmented(size, c);
    PageStart(i - 1, size, c);
    assert Prefix(sgl, i) == Prefix(sgl, i - 1) + sgl[i - 1].dmaLen;
    if i > 1 {
      FragmentedPrefix(size, c, i - 1);
    }
    if i < PageCount(size, c) {
      PageStart(i, size, c);
    } else {
      var x := size - 1 + c;
      assert x == (x / PAGE_SIZE) * PAGE_SIZE + x % PAGE_SIZE;
    }
  }

  lemma {:induction false} FragmentedOnGrid(size: nat, c: nat)
    requires c < PAGE_SIZE
    ensures OnPageGrid(Fragmented(size, c), c)
  {
    forall i | 0 < i < PageCount(size, c)
      ensures (Prefix(Fragmented(size, c), i) + c) % PAGE_SIZE == 0
    {
      FragmentedPrefix(size, c, i);
      DivModUnique(i * PAGE_SIZE, i, 0, PAGE_SIZE);
    }
  }

  /** Entry i is memory page i, or what the mapping has of it. */
  predicate IsPage(sgl: seq<SgEntry>, c: nat, i: nat)
    requires i < |sgl|
  {
    && 0 < sgl[i].dmaLen <= PAGE_SIZE
    && PageOf(Prefix(sgl, i), c) == i == PageOf(Prefix(sgl, i) + sgl[i].dmaLen - 1, c)
  }

  ghost predicate PerPage(sgl: seq<SgEntry>, c: nat) {
    forall i | 0 <= i < |sgl| :: IsPage(sgl, c, i)
  }

  lemma {:induction false} FragmentedPerPage(size: nat, c: nat)
    requires c < PAGE_SIZE
    ensures PerPage(Fragmented(size, c), c)
  {
    var sgl := Fragmented(size, c);
    forall i | 0 <= i < |sgl| ensures IsPage(sgl, c, i) {
      PageStart(i, size, c);
      FragmentedPrefix(size, c, i + 1);
      if i > 0 {
        FragmentedPrefix(size, c, i);
      }
      assert Prefix(sgl, i + 1) == Prefix(sgl, i) + sgl[i].dmaLen;
      DivModUnique(Prefix(sgl, i) + c, i, Prefix(sgl, i) + c - i * PAGE_SIZE, PAGE_SIZE);
      DivModUnique(Prefix(sgl, i + 1) - 1 + c, i, Prefix(sgl, i + 1) - 1 + c - i * PAGE_SIZE, PAGE_SIZE);
    }
  }

  /** In a mapping with an entry for each page, a window takes a descriptor for each page. */
  lemma {:induction false} PerPageCount(sgl: seq<SgEntry>, c: nat, idx: nat, off: nat, rem: nat, step: nat)
    requires PerPage(sgl, c) && step >= PAGE_SIZE && rem > 0 && idx < |sgl| && off < sgl[idx].dmaLen
    requires Prefix(sgl, idx) + off + rem <= Prefix(sgl, |sgl|)
    ensures |Chunks(sgl, idx, off, rem, step)| == PageOf(Prefix(sgl, idx) + off + rem - 1, c) - idx + 1
    decreases |sgl| - idx
  {
    var len := SegLen(sgl, idx, off, rem);
    assert IsPage(sgl, c, idx);
    assert Prefix(sgl, idx + 1) == Prefix(sgl, idx) + sgl[idx].dmaLen;
    OneChunk(idx, off, len, step);
    if len < rem {
      assert idx + 1 < |sgl| && IsPage(sgl, c, idx + 1);
      PerPageCount(sgl, c, idx + 1, 0, rem - len, step);
    } else {
      var last := Prefix(sgl, idx) + off + rem - 1;
      DivMono(Prefix(sgl, idx) + c, last + c, PAGE_SIZE);
      DivMono(last + c, Prefix(sgl, idx) + sgl[idx].dmaLen - 1 + c, PAGE_SIZE);
      assert Chunks(sgl, idx + 1, 0, 0, step) == [];
    }
  }

  lemma {:induction false} OneChunk(idx: nat, off: nat, len: nat, step: nat)
    requires 0 < len <= step
    ensures |Split(idx, off, len, step)| == 1
  {
    assert Split(idx, off + len, 0, step) == [];
  }

  /** Entries of at most a page never make the rounding up wrap. */
  lemma {:induction false} SmallEntries(sgl: seq<SgEntry>, idx: nat, off: nat, rem: nat)
    requires idx <= |sgl| && (idx < |sgl| ==> off <= sgl[idx].dmaLen)
    requires forall i | 0 <= i < |sgl| :: sgl[i].dmaLen <= PAGE_SIZE
    ensures SegmentsBelow(sgl, idx, off, rem, 0xFFFC_0000)
    decreases |sgl| - idx
  {
    if idx < |sgl| && rem > 0 {
      SmallEntries(sgl, idx + 1, 0, rem - SegLen(sgl, idx, off, rem));
    }
  }

  /** For every window there is a mapping, as large as the window needs, that takes as many
      descriptors as the window touches pages. It is one that the request is accepted on, if it is
      accepted on any and has no interrupt interval. */
  lemma {:induction false} WorstMapping(p: Params, c: nat) returns (m: Mapping)
    requires p.channel < NUM_CHANNELS && p.bytesPerDescriptor == 0 && c < PAGE_SIZE
    requires p.mapOffset + p.bytesTotal < TWO32
    ensures WellFormed(m) && Compilable(p, m) && OnPageGrid(m.sgl, c) && m.size == p.mapOffset + p.bytesTotal
    ensures PlannedCount(p, m) == PagesTouched(p.mapOffset, p.bytesTotal, c)
    ensures forall m' :: Accepted(p, m') && p.interruptInterval == 0 ==> Accepted(p, m)
  {
    var size := p.mapOffset + p.bytesTotal;
    m := Mapping(size, BIDIRECTIONAL, Fragmented(size, c));
    FragmentedShape(m, c);
    WorstCount(p, m, c);
    forall m' | Accepted(p, m') && p.interruptInterval == 0 ensures Accepted(p, m) {
      AcceptedAlso(p, m', m);
    }
  }

  lemma {:induction false} WorstCount(p: Params, m: Mapping, c: nat)
    requires p.channel < NUM_CHANNELS && p.bytesPerDescriptor == 0 && c < PAGE_SIZE
    requires m.size == p.mapOffset + p.bytesTotal && m.sgl == Fragmented(m.size, c)
    requires Prefix(m.sgl, |m.sgl|) == m.size && forall i | 0 <= i < |m.sgl| :: m.sgl[i].dmaLen <= PAGE_SIZE
    ensures Compilable(p, m) && PlannedCount(p, m) == PagesTouched(p.mapOffset, p.bytesTotal, c)
  {
    var (idx, off) := Locate(m.sgl, 0, p.mapOffset);
    SmallEntries(m.sgl, idx, off, p.bytesTotal);
    CompilableChunks(p, m);
    WorstChunks(m.size, c, p.mapOffset, p.bytesTotal, Descriptors.Step(p));
  }

  lemma {:induction false} WorstChunks(size: nat, c: nat, start: nat, total: nat, step: nat)
    requires c < PAGE_SIZE && step >= PAGE_SIZE && size == start + total
    requires Prefix(Fragmented(size, c), PageCount(size, c)) == size
    ensures |WindowChunks(Fragmented(size, c), start, total, step)| == PagesTouched(start, total, c)
  {
    FragmentedPerPage(size, c);
    PerPageWindow(Fragmented(size, c), c, start, total, step);
  }

  lemma {:induction false} PerPageWindow(sgl: seq<SgEntry>, c: nat, start: nat, total: nat, step: nat)
    requires PerPage(sgl, c) && step >= PAGE_SIZE && start + total <= Prefix(sgl, |sgl|)
    ensures |WindowChunks(sgl, start, total, step)| == PagesTouched(start, total, c)
  {
    var (idx, off) := Locate(sgl, 0, start);
    if total > 0 {
      assert IsPage(sgl, c, idx);
      PerPageCount(sgl, c, idx, off, total, step);
      DivMono(Prefix(sgl, idx) + c, start + c, PAGE_SIZE);
      DivMono(start + c, Prefix(sgl, idx) + sgl[idx].dmaLen - 1 + c, PAGE_SIZE);
    }
  }

  lemma {:induction false} FragmentedShape(m: Mapping, c: nat)
    requires c < PAGE_SIZE && m.sgl == Fragmented(m.size, c)
    ensures WellFormed(m) && OnPageGrid(m.sgl, c) && Prefix(m.sgl, |m.sgl|) == m.size
    ensures forall i | 0 <= i < |m.sgl| :: m.sgl[i].dmaLen <= PAGE_SIZE
  {
    FragmentedOnGrid(m.size, c);
    if m.size > 0 {
      FragmentedPrefix(m.size, c, |m.sgl|);
    }
    forall i | 0 <= i < |m.sgl|
      ensures m.sgl[i].dmaLen <= PAGE_SIZE && m.sgl[i].dmaAddr + m.sgl[i].offset + m.sgl[i].dmaLen < TWO64
    {
      PageStart(i, m.size, c);
      DivLe(m.size - 1 + c, PAGE_SIZE);
      W64Fits(0x2000 * (i + 1));
    }
  }

  /** Without a fixed size and an interval, the rules of a request hardly depend on the mapping. */
  lemma {:induction false} AcceptedAlso(p: Params, m': Mapping, m: Mapping)
    requires Accepted(p, m') && p.bytesPerDescriptor == 0 && p.interruptInterval == 0
    requires m.size == p.mapOffset + p.bytesTotal && m.direction == BIDIRECTIONAL
    ensures Accepted(p, m)
  {
    W32Fits(p.bytesTotal + p.mapOffset);
    forall f: ParamFlag ensures !Violates(f, p, m) {
      assert !Violates(f, p, m');
    }
  }

  // ----- DEFAULT mode --------------------------------------------------------------------------------

  /** In DEFAULT mode the buffer of a flexible request is as large as need be: for every window of more than a
      byte there is a start in a memory page, and a mapping, with which the plan takes all of it. */
  lemma {:induction false} DefaultModeTight(p: Params) returns (m: Mapping, c: nat)
    requires p.channel < NUM_CHANNELS && p.bytesPerDescriptor == 0 && p.transferMode == MODE_DEFAULT
    requires p.bytesTotal % PAGE_SIZE != 1 && p.bytesTotal > 0 && p.mapOffset + p.bytesTotal < TWO32
    ensures WellFormed(m) && Compilable(p, m) && OnPageGrid(m.sgl, c) && PlannedCount(p, m) == AllocNum(p)
  {
    c := (2 * PAGE_SIZE - 1 - p.mapOffset % PAGE_SIZE) % PAGE_SIZE;
    m := WorstMapping(p, c);
    FlexibleAllocNum(p);
    LastByteOfPage(p.mapOffset, c);
    WorstPages(p.mapOffset, p.bytesTotal, c);
    DivMono(p.bytesTotal + PAGE_SIZE - 1, 2 * TWO32 - 1, PAGE_SIZE);
    W32Fits(CeilDiv(p.bytesTotal, PAGE_SIZE) + 1);
  }

  lemma {:induction false} LastByteOfPage(start: nat, c: nat)
    requires c == (2 * PAGE_SIZE - 1 - start % PAGE_SIZE) % PAGE_SIZE
    ensures (start + c) % PAGE_SIZE == PAGE_SIZE - 1
  {
  }

  /** A window from the last byte of a page on touches one page more than its rounded-up size. */
  lemma {:induction false} WorstPages(start: nat, total: nat, c: nat)
    requires (start + c) % PAGE_SIZE == PAGE_SIZE - 1 && total > 0 && total % PAGE_SIZE != 1
    ensures PagesTouched(start, total, c) == CeilDiv(total, PAGE_SIZE) + 1
  {
    var k := (start + c) / PAGE_SIZE;
    assert start + c == k * PAGE_SIZE + PAGE_SIZE - 1;
    AddMultiple(PAGE_SIZE - 1 + total - 1, k, PAGE_SIZE);
  }

  // ----- STREAM mode ---------------------------------------------------------------------------------

  /** In STREAM mode generation never runs out of descriptors if the window touches no more pages
      than its rounded-up size, and so in particular if it starts at a page. */
  lemma {:induction false} StreamModeNeverRunsOut(p: Params, m: Mapping, c: nat)
    requires WellFormed(m) && p.channel < NUM_CHANNELS && Compilable(p, m) && OnPageGrid(m.sgl, c)
    requires p.bytesPerDescriptor == 0 && p.transferMode == MODE_STREAM
    ensures PagesTouched(p.mapOffset, p.bytesTotal, c) <= CeilDiv(p.bytesTotal, PAGE_SIZE) ==>
              PlannedCount(p, m) <= AllocNum(p)
    ensures (p.mapOffset + c) % PAGE_SIZE == 0 ==> PlannedCount(p, m) <= AllocNum(p)
  {
    FlexibleAllocNum(p);
    CompilableChunks(p, m);
    OneChunkPerPage(m.sgl, p.mapOffset, p.bytesTotal, Descriptors.Step(p), c);
    PagesTouchedBound(p.mapOffset, p.bytesTotal, c);
  }

  /** Exactly: the buffer of a flexible STREAM request suffices for every mapping that it compiles
      against if and only if its window touches no more memory pages than its rounded-up size. */
  lemma {:induction false} StreamModeFitsExact(p: Params, c: nat)
    requires p.channel < NUM_CHANNELS && p.bytesPerDescriptor == 0 && p.transferMode == MODE_STREAM
    requires c < PAGE_SIZE && p.mapOffset + p.bytesTotal < TWO32
    ensures (forall m | WellFormed(m) && Compilable(p, m) && OnPageGrid(m.sgl, c) ::
               PlannedCount(p, m) <= AllocNum(p))
            <==> PagesTouched(p.mapOffset, p.bytesTotal, c) <= CeilDiv(p.bytesTotal, PAGE_SIZE)
  {
    forall m | WellFormed(m) && Compilable(p, m) && OnPageGrid(m.sgl, c)
      ensures PagesTouched(p.mapOffset, p.bytesTotal, c) <= CeilDiv(p.bytesTotal, PAGE_SIZE) ==>
                PlannedCount(p, m) <= AllocNum(p)
    {
      StreamModeNeverRunsOut(p, m, c);
    }
    FlexibleAllocNum(p);
    var worst := WorstMapping(p, c);
  }

  /** An accepted STREAM request that is refused: 16 bytes across two pages, for which the buffer has
      one descriptor. */
  lemma {:induction false} StreamModeRefused(p: Params) returns (m: Mapping)
    requires p == Params(4088, 0, 16, 0, 0, 0, 0, MODE_STREAM, FROM_DEVICE, 0, 0)
    ensures WellFormed(m) && Accepted(p, m) && Compilable(p, m)
    ensures PlannedCount(p, m) == 2 && AllocNum(p) == 1
  {
    FlexibleAllocNum(p);
    m := WorstMapping(p, 0);
    var any := Mapping(8192, FROM_DEVICE, []);
    W32Fits(4104);
    assert Accepted(p, any);
  }
}
