/** The boundaries that descriptors keep to: pages of the translation table, and the data width. */
module Boundaries {
  import opened Words
  import opened Descriptors
  import opened Window
  import opened Meaning
  import opened Generator
  import opened Walk

  ghost predicate OffsetsDivisible(cs: seq<Chunk>, b: nat)
    requires b > 0
  {
    forall k | 0 <= k < |cs| :: cs[k].off % b == 0
  }

  lemma {:induction false} SplitOffsets(idx: nat, off: nat, len: nat, b: nat)
    requires b > 0 && off % b == 0
    ensures OffsetsDivisible(Split(idx, off, len, b), b)
    decreases len
  {
    if len >= b {
      AddMultiple(off, 1, b);
      SplitOffsets(idx, off + b, len - b, b);
    }
  }

  lemma {:induction false} ChunkOffsets(sgl: seq<SgEntry>, idx: nat, off: nat, rem: nat, b: nat)
    requires b > 0 && idx <= |sgl| && (idx < |sgl| ==> off <= sgl[idx].dmaLen && off % b == 0)
    ensures OffsetsDivisible(Chunks(sgl, idx, off, rem, b), b)
    decreases |sgl| - idx
  {
    if idx < |sgl| && rem > 0 {
      var len := SegLen(sgl, idx, off, rem);
      SplitOffsets(idx, off, len, b);
      SmallMod(0, b);
      ChunkOffsets(sgl, idx + 1, 0, rem - len, b);
    }
  }

  /** If b divides a page, b bytes at a multiple of b stay inside one page. */
  lemma {:induction false} AlignedInPage(a: nat, b: nat)
    requires b > 0 && 0x4_0000 % b == 0 && a % b == 0
    ensures WithinPage(a, b)
  {
    AlignedInside(a, b, 0x4_0000);
  }

  lemma {:induction false} AlignedInside(a: nat, b: nat, page: nat)
    requires b > 0 && page > 0 && page % b == 0 && a % b == 0
    ensures a % page + b <= page
  {
    var n, k := page / b, a / b;
    assert page == n * b && a == k * b;
    AlignedBlock(k, b, n);
  }

  /** Block k of size b lies inside one of the pages of n blocks. */
  lemma {:induction false} AlignedBlock(k: nat, b: nat, n: nat)
    requires b > 0 && n > 0
    ensures n * b > 0 && (k * b) % (n * b) + b <= n * b
  {
    var q, r := k / n, k % n;
    MulMono(1, n, b);
    BlockNumber(k, q, r, n, b);
    MulMono(r + 1, n, b);
    assert (r + 1) * b == r * b + b;
    DivModUnique(k * b, q, r * b, n * b);
  }

  lemma {:induction false} BlockNumber(k: nat, q: nat, r: nat, n: nat, b: nat)
    requires k == q * n + r
    ensures k * b == q * (n * b) + r * b
  {
    assert (q * n) * b == q * (n * b);
    assert (q * n + r) * b == (q * n) * b + r * b;
  }

  /** A fixed size that divides 256 KiB, and entries of the scatter list whose addresses it divides:
      then no descriptor crosses a page of the translation table, provided the window starts at a
      multiple of the size inside its first entry. */
  lemma {:induction false} FixedSizeStaysInPage(p: Params, m: Mapping, ds: seq<Descriptor>)
    requires p.channel < NUM_CHANNELS && p.direction == FROM_DEVICE && p.bytesPerDescriptor > 0
    requires Compilable(p, m) && IsGenerated(p, m, ds)
    requires 0x4_0000 % p.bytesPerDescriptor == 0 && Locate(m.sgl, 0, p.mapOffset).1 % p.bytesPerDescriptor == 0
    requires forall i | 0 <= i < |m.sgl| :: RangeAddr(m.sgl[i]) % p.bytesPerDescriptor == 0
    ensures forall k | 0 <= k < |ds| :: WithinPage(ds[k].WriteAddr(), ds[k].length)
  {
    var b := p.bytesPerDescriptor;
    var cs := WindowChunks(m.sgl, p.mapOffset, p.bytesTotal, b);
    var (idx, off) := Locate(m.sgl, 0, p.mapOffset);
    CompilableChunks(p, m);
    TilesInEntry(m.sgl, cs, p.mapOffset, p.bytesTotal, b);
    ChunkOffsets(m.sgl, idx, off, p.bytesTotal, b);
    forall k | 0 <= k < |ds|
      ensures WithinPage(ds[k].WriteAddr(), ds[k].length)
    {
      assert Addresses(p, m, ds[k], cs[k]) && cs[k].len == b;
      AddDivisible(RangeAddr(m.sgl[cs[k].idx]), cs[k].off, b);
      AlignedInPage(ChunkAddr(m.sgl, cs[k]), b);
    }
  }

  // ----- The data width -------------------------------------------------------------------------

  ghost predicate LengthsDivisible(cs: seq<Chunk>, w: nat)
    requires w > 0
  {
    forall k | 0 <= k < |cs| :: cs[k].len % w == 0
  }

  lemma {:induction false} SplitLengths(idx: nat, off: nat, len: nat, step: nat, w: nat)
    requires w > 0 && step > 0 && step % w == 0
    ensures LengthsDivisible(Split(idx, off, len, step), w) <==> len % w == 0
    decreases len
  {
    var s := Split(idx, off, len, step);
    if len == 0 {
      SmallMod(0, w);
    } else if len <= step {
      assert s == [Chunk(idx, off, len)] + Split(idx, off + len, 0, step);
      assert s[0].len == len;
    } else {
      var t := Split(idx, off + step, len - step, step);
      SplitLengths(idx, off + step, len - step, step, w);
      AddDivisible(len, step, w);
      assert s == [Chunk(idx, off, step)] + t;
      assert forall k | 0 <= k < |t| :: t[k] == s[k + 1];
    }
  }

  lemma {:induction false} ChunkLengths(sgl: seq<SgEntry>, idx: nat, off: nat, rem: nat, step: nat, w: nat)
    requires w > 0 && step > 0 && step % w == 0
    requires idx <= |sgl| && (idx < |sgl| ==> off <= sgl[idx].dmaLen)
    ensures LengthsDivisible(Chunks(sgl, idx, off, rem, step), w) <==> WholeSegments(sgl, idx, off, rem, w)
    decreases |sgl| - idx
  {
    if idx < |sgl| && rem > 0 {
      var len := SegLen(sgl, idx, off, rem);
      SplitLengths(idx, off, len, step, w);
      ChunkLengths(sgl, idx + 1, 0, rem - len, step, w);
      LengthsAppend(Split(idx, off, len, step), Chunks(sgl, idx + 1, 0, rem - len, step), w);
    }
  }

  lemma {:induction false} LengthsAppend(a: seq<Chunk>, b: seq<Chunk>, w: nat)
    requires w > 0
    ensures LengthsDivisible(a + b, w) <==> LengthsDivisible(a, w) && LengthsDivisible(b, w)
  {
    assert forall k | 0 <= k < |a| :: a[k] == (a + b)[k];
    assert forall k | 0 <= k < |b| :: b[k] == (a + b)[|a| + k];
  }

  /** The lengths that get_transfer_length asserts to be multiples of the data width: they are, for a
      generated list, exactly if the size is fixed or every segment of the window is such a multiple;
      and they are whenever all entries are. */
  lemma {:induction false} TransferLengthExact(p: Params, m: Mapping, ds: seq<Descriptor>)
    requires WellFormed(m) && Accepted(p, m) && Compilable(p, m) && IsGenerated(p, m, ds) && p.bytesTotal > 0
    ensures var (idx, off) := Locate(m.sgl, 0, p.mapOffset);
      var w := ChannelTable(p.channel).dataWidth;
      && ((forall k | 0 <= k < |ds| :: ds[k].length % w == 0)
          <==> p.bytesPerDescriptor > 0 || WholeSegments(m.sgl, idx, off, p.bytesTotal, w))
      && (EntriesDivisible(m.sgl, w) ==> WholeSegments(m.sgl, idx, off, p.bytesTotal, w))
  {
    var (idx, off) := Locate(m.sgl, 0, p.mapOffset);
    var w, cs := ChannelTable(p.channel).dataWidth, WindowChunks(m.sgl, p.mapOffset, p.bytesTotal, Descriptors.Step(p));
    CompilableChunks(p, m);
    StepDivisible(p, m);
    SameLengths(p, m, ds);
    if p.bytesPerDescriptor == 0 {
      ChunkLengths(m.sgl, idx, off, p.bytesTotal, Descriptors.Step(p), w);
    }
    WholeEntries(p, m);
  }

  lemma {:induction false} StepDivisible(p: Params, m: Mapping)
    requires Accepted(p, m)
    ensures Descriptors.Step(p) % ChannelTable(p.channel).dataWidth == 0
  {
    assert !Violates(BytesPerDesc, p, m);
  }

  lemma {:induction false} SameLengths(p: Params, m: Mapping, ds: seq<Descriptor>)
    requires p.channel < NUM_CHANNELS && Compilable(p, m) && IsGenerated(p, m, ds)
    ensures var cs := WindowChunks(m.sgl, p.mapOffset, p.bytesTotal, Descriptors.Step(p));
      var w := ChannelTable(p.channel).dataWidth;
      && |ds| == |cs| && (forall k | 0 <= k < |ds| :: ds[k].length == cs[k].len)
      && (LengthsDivisible(cs, w) <==> forall k | 0 <= k < |ds| :: ds[k].length % w == 0)
  {
    var cs := WindowChunks(m.sgl, p.mapOffset, p.bytesTotal, Descriptors.Step(p));
    CompilableChunks(p, m);
    forall k | 0 <= k < |ds| ensures ds[k].length == cs[k].len {
      assert Addresses(p, m, ds[k], cs[k]);
    }
  }

  lemma {:induction false} WholeEntries(p: Params, m: Mapping)
    requires WellFormed(m) && Accepted(p, m) && Compilable(p, m) && p.bytesTotal > 0
    ensures var (idx, off) := Locate(m.sgl, 0, p.mapOffset);
      var w := ChannelTable(p.channel).dataWidth;
      EntriesDivisible(m.sgl, w) ==> WholeSegments(m.sgl, idx, off, p.bytesTotal, w)
  {
    var w := ChannelTable(p.channel).dataWidth;
    assert !Violates(BytesTotal, p, m) && !Violates(MapOffset, p, m);
    if EntriesDivisible(m.sgl, w) {
      WholeSegmentsExact(m.sgl, p.mapOffset, p.bytesTotal, w);
    }
  }
}
