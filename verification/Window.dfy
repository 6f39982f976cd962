/** How a window of a mapping is cut into chunks, what it means for chunks to tile a window,
    and when a tiling by chunks of one fixed size exists at all. */
module Window {
  import opened Words
  import opened Descriptors

  /** len bytes at offset off of scatter entry idx: what one descriptor addresses. */
  datatype Chunk = Chunk(idx: nat, off: nat, len: nat)

  predicate InEntry(sgl: seq<SgEntry>, c: Chunk) {
    c.idx < |sgl| && 0 < c.len && c.off + c.len <= sgl[c.idx].dmaLen
  }

  /** Position of the chunk in the mapping. */
  function Pos(sgl: seq<SgEntry>, c: Chunk): nat
    requires c.idx < |sgl|
  {
    Prefix(sgl, c.idx) + c.off
  }

  /** The chunks cover [start, start + total) of the mapping exactly, in order, each inside one
      entry and at most step bytes long. */
  ghost predicate Tiles(sgl: seq<SgEntry>, cs: seq<Chunk>, start: nat, total: nat, step: nat) {
    if cs == [] then total == 0
    else
      && InEntry(sgl, cs[0]) && cs[0].len <= step && cs[0].len <= total
      && Pos(sgl, cs[0]) == start
      && Tiles(sgl, cs[1..], start + cs[0].len, total - cs[0].len, step)
  }

  /** Bus address of byte p of the mapping, found by walking the entries from i. */
  function BusByte(sgl: seq<SgEntry>, i: nat, p: nat): int
    requires i <= |sgl|
    decreases |sgl| - i
  {
    if i == |sgl| then -1
    else if p < sgl[i].dmaLen then RangeAddr(sgl[i]) + p
    else BusByte(sgl, i + 1, p - sgl[i].dmaLen)
  }

  function ChunkAddr(sgl: seq<SgEntry>, c: Chunk): nat
    requires c.idx < |sgl|
  {
    RangeAddr(sgl[c.idx]) + c.off
  }

  lemma {:induction false} BusByteFrom(sgl: seq<SgEntry>, i: nat, k: nat, o: nat)
    requires i <= k < |sgl| && o < sgl[k].dmaLen
    ensures Prefix(sgl, i) <= Prefix(sgl, k)
    ensures BusByte(sgl, i, Prefix(sgl, k) - Prefix(sgl, i) + o) == RangeAddr(sgl[k]) + o
    decreases k - i
  {
    PrefixMono(sgl, i, k);
    if i < k {
      PrefixMono(sgl, i + 1, k);
      assert Prefix(sgl, i + 1) == Prefix(sgl, i) + sgl[i].dmaLen;
      BusByteFrom(sgl, i + 1, k, o);
    }
  }

  /** A byte inside an entry is found at the entry's address. */
  lemma {:induction false} BusByteInEntry(sgl: seq<SgEntry>, k: nat, o: nat)
    requires k < |sgl| && o < sgl[k].dmaLen
    ensures BusByte(sgl, 0, Prefix(sgl, k) + o) == RangeAddr(sgl[k]) + o
  {
    BusByteFrom(sgl, 0, k, o);
  }

  // ----- Cutting one segment, and the window -------------------------------------------------

  /** Cuts [off, off + len) of one entry into steps, the last one shorter. */
  function Split(idx: nat, off: nat, len: nat, step: nat): seq<Chunk>
    requires step > 0
    decreases len
  {
    if len == 0 then []
    else
      var l := Min(len, step);
      [Chunk(idx, off, l)] + Split(idx, off + l, len - l, step)
  }

  /** Bytes of the segment of the window that lies in entry idx from offset off on. */
  function SegLen(sgl: seq<SgEntry>, idx: nat, off: nat, rem: nat): nat
    requires idx < |sgl| && off <= sgl[idx].dmaLen
  {
    Min(sgl[idx].dmaLen - off, rem)
  }

  /** Cuts rem bytes from offset off of entry idx on, entry by entry. */
  function Chunks(sgl: seq<SgEntry>, idx: nat, off: nat, rem: nat, step: nat): seq<Chunk>
    requires step > 0
    requires idx <= |sgl| && (idx < |sgl| ==> off <= sgl[idx].dmaLen)
    decreases |sgl| - idx
  {
    if idx == |sgl| || rem == 0 then []
    else
      var len := SegLen(sgl, idx, off, rem);
      Split(idx, off, len, step) + Chunks(sgl, idx + 1, 0, rem - len, step)
  }

  /** The entry, and the offset into it, at which byte off of entries i, i+1, ... lies. */
  function Locate(sgl: seq<SgEntry>, i: nat, off: nat): (r: (nat, nat))
    requires i <= |sgl|
    ensures i <= r.0 <= |sgl| && r.1 <= off
    ensures r.0 < |sgl| ==> r.1 < sgl[r.0].dmaLen
    ensures Prefix(sgl, i) + off == Prefix(sgl, r.0) + r.1
    decreases |sgl| - i
  {
    if i == |sgl| || off < sgl[i].dmaLen then (i, off)
    else Locate(sgl, i + 1, off - sgl[i].dmaLen)
  }

  /** The chunks of a whole request. */
  function WindowChunks(sgl: seq<SgEntry>, start: nat, total: nat, step: nat): seq<Chunk>
    requires step > 0
  {
    var (idx, off) := Locate(sgl, 0, start);
    Chunks(sgl, idx, off, total, step)
  }

  // ----- The chunks tile the window ----------------------------------------------------------

  lemma {:induction false} TilesAppend(sgl: seq<SgEntry>, a: seq<Chunk>, b: seq<Chunk>,
                                       start: nat, m: nat, n: nat, step: nat)
    requires Tiles(sgl, a, start, m, step) && Tiles(sgl, b, start + m, n, step)
    ensures Tiles(sgl, a + b, start, m + n, step)
  {
    if a == [] {
      assert a + b == b;
    } else {
      assert (a + b)[1..] == a[1..] + b;
      TilesAppend(sgl, a[1..], b, start + a[0].len, m - a[0].len, n, step);
    }
  }

  lemma {:induction false} SplitTiles(sgl: seq<SgEntry>, idx: nat, off: nat, len: nat, step: nat)
    requires step > 0 && idx < |sgl| && off + len <= sgl[idx].dmaLen
    ensures Tiles(sgl, Split(idx, off, len, step), Prefix(sgl, idx) + off, len, step)
    decreases len
  {
    if len > 0 {
      var l := Min(len, step);
      SplitTiles(sgl, idx, off + l, len - l, step);
      assert Split(idx, off, len, step)[1..] == Split(idx, off + l, len - l, step);
    }
  }

  lemma {:induction false} ChunksTile(sgl: seq<SgEntry>, idx: nat, off: nat, rem: nat, step: nat)
    requires step > 0
    requires idx <= |sgl| && (idx < |sgl| ==> off <= sgl[idx].dmaLen)
    requires Prefix(sgl, idx) + off + rem <= Prefix(sgl, |sgl|)
    ensures Tiles(sgl, Chunks(sgl, idx, off, rem, step), Prefix(sgl, idx) + off, rem, step)
    decreases |sgl| - idx
  {
    if idx < |sgl| && rem > 0 {
      var len := SegLen(sgl, idx, off, rem);
      SplitTiles(sgl, idx, off, len, step);
      assert Prefix(sgl, idx + 1) == Prefix(sgl, idx) + sgl[idx].dmaLen;
      if len == rem {
        assert Chunks(sgl, idx + 1, 0, 0, step) == [];
        assert Split(idx, off, len, step) + [] == Split(idx, off, len, step);
      } else {
        ChunksTile(sgl, idx + 1, 0, rem - len, step);
        TilesAppend(sgl, Split(idx, off, len, step), Chunks(sgl, idx + 1, 0, rem - len, step),
                    Prefix(sgl, idx) + off, len, rem - len, step);
      }
    }
  }

  /** The window of a request is tiled exactly, whatever the fragmentation of the mapping. */
  lemma {:induction false} WindowTiles(sgl: seq<SgEntry>, start: nat, total: nat, step: nat)
    requires step > 0 && start + total <= Prefix(sgl, |sgl|)
    ensures Tiles(sgl, WindowChunks(sgl, start, total, step), start, total, step)
  {
    var (idx, off) := Locate(sgl, 0, start);
    ChunksTile(sgl, idx, off, total, step);
  }

  // ----- What a tiling means, byte by byte -----------------------------------------------------

  /** The bus addresses that the chunks touch, in order. */
  function ChunkBytes(sgl: seq<SgEntry>, cs: seq<Chunk>): seq<int>
    requires forall k | 0 <= k < |cs| :: cs[k].idx < |sgl|
  {
    if cs == [] then []
    else seq(cs[0].len, k => ChunkAddr(sgl, cs[0]) + k) + ChunkBytes(sgl, cs[1..])
  }

  /** The bus addresses of the bytes of a window, in order. */
  function WindowBytes(sgl: seq<SgEntry>, start: nat, total: nat): seq<int> {
    seq(total, j requires 0 <= j => BusByte(sgl, 0, start + j))
  }

  lemma {:induction false} TilesInEntry(sgl: seq<SgEntry>, cs: seq<Chunk>, start: nat, total: nat, step: nat)
    requires Tiles(sgl, cs, start, total, step)
    ensures forall k | 0 <= k < |cs| :: InEntry(sgl, cs[k]) && cs[k].len <= step
    ensures |cs| <= total
  {
    if cs != [] {
      TilesInEntry(sgl, cs[1..], start + cs[0].len, total - cs[0].len, step);
      forall k | 0 <= k < |cs| ensures InEntry(sgl, cs[k]) && cs[k].len <= step {
        if k > 0 {
          assert cs[k] == cs[1..][k - 1];
        }
      }
    }
  }

  /** Any tiling touches exactly the bytes of the window, each once, in order. */
  lemma {:induction false} TilingMeaning(sgl: seq<SgEntry>, cs: seq<Chunk>, start: nat, total: nat, step: nat)
    requires Tiles(sgl, cs, start, total, step)
    ensures forall k | 0 <= k < |cs| :: cs[k].idx < |sgl|
    ensures ChunkBytes(sgl, cs) == WindowBytes(sgl, start, total)
  {
    TilesInEntry(sgl, cs, start, total, step);
    if cs != [] {
      var c := cs[0];
      TilingMeaning(sgl, cs[1..], start + c.len, total - c.len, step);
      var head := seq(c.len, k => ChunkAddr(sgl, c) + k);
      var w := WindowBytes(sgl, start, total);
      forall k | 0 <= k < c.len
        ensures head[k] == w[k]
      {
        BusByteInEntry(sgl, c.idx, c.off + k);
      }
      assert w[..c.len] == head;
      assert w[c.len..] == WindowBytes(sgl, start + c.len, total - c.len);
      assert w == w[..c.len] + w[c.len..];
    }
  }

  // ----- Fixed chunk size: when is it possible at all? ------------------------------------------

  /** Every segment of the window is a whole number of chunks of b bytes. */
  predicate WholeSegments(sgl: seq<SgEntry>, idx: nat, off: nat, rem: nat, b: nat)
    requires b > 0
    requires idx <= |sgl| && (idx < |sgl| ==> off <= sgl[idx].dmaLen)
    decreases |sgl| - idx
  {
    idx == |sgl| || rem == 0 ||
    var len := SegLen(sgl, idx, off, rem);
    len % b == 0 && WholeSegments(sgl, idx + 1, 0, rem - len, b)
  }

  predicate EntriesDivisible(sgl: seq<SgEntry>, b: nat)
    requires b > 0
  {
    forall i | 0 <= i < |sgl| :: sgl[i].dmaLen % b == 0
  }

  lemma {:induction false} PrefixDivisible(sgl: seq<SgEntry>, i: nat, b: nat)
    requires b > 0 && i <= |sgl| && EntriesDivisible(sgl, b)
    ensures Prefix(sgl, i) % b == 0
  {
    if i == 0 {
      SmallMod(0, b);
    } else {
      PrefixDivisible(sgl, i - 1, b);
      AddDivisible(Prefix(sgl, i - 1), sgl[i - 1].dmaLen, b);
    }
  }

  /** From an entry boundary on, the segments are whole exactly when the rest is. */
  lemma {:induction false} WholeFromBoundary(sgl: seq<SgEntry>, idx: nat, rem: nat, b: nat)
    requires b > 0 && idx <= |sgl| && EntriesDivisible(sgl, b)
    requires Prefix(sgl, idx) + rem <= Prefix(sgl, |sgl|)
    ensures WholeSegments(sgl, idx, 0, rem, b) <==> rem % b == 0
    decreases |sgl| - idx
  {
    SmallMod(0, b);
    if idx < |sgl| && rem > 0 {
      assert Prefix(sgl, idx + 1) == Prefix(sgl, idx) + sgl[idx].dmaLen;
      var len := SegLen(sgl, idx, 0, rem);
      if len < rem {
        WholeFromBoundary(sgl, idx + 1, rem - len, b);
        AddDivisible(rem, len, b);
      }
    }
  }

  /** The test on the request that decides a fixed size: the total is a multiple of b, and so is
      the offset, unless the window ends in the entry it starts in. off is the offset into the
      first entry idx of the window. */
  predicate FixedSizeFits(sgl: seq<SgEntry>, idx: nat, off: nat, start: nat, total: nat, b: nat)
    requires b > 0 && (idx < |sgl| ==> off <= sgl[idx].dmaLen)
  {
    total % b == 0 && (start % b == 0 || (idx < |sgl| && total <= sgl[idx].dmaLen - off))
  }

  /** When b divides every entry, the segments of the window are whole exactly when the request
      passes that test. */
  lemma {:induction false} WholeSegmentsExact(sgl: seq<SgEntry>, start: nat, total: nat, b: nat)
    requires b > 0 && total > 0 && EntriesDivisible(sgl, b)
    requires start + total <= Prefix(sgl, |sgl|)
    ensures var (idx, off) := Locate(sgl, 0, start);
      WholeSegments(sgl, idx, off, total, b) <==> FixedSizeFits(sgl, idx, off, start, total, b)
  {
    var (idx, off) := Locate(sgl, 0, start);
    PrefixDivisible(sgl, idx, b);
    AddDivisible(off, Prefix(sgl, idx), b);
    var size := sgl[idx].dmaLen;
    SmallMod(0, b);
    if total > size - off {
      assert Prefix(sgl, idx + 1) == Prefix(sgl, idx) + size;
      WholeFromBoundary(sgl, idx + 1, total - (size - off), b);
      SplitRemainder(size, off, total, b);
    } else {
      assert SegLen(sgl, idx, off, total) == total;
      assert WholeSegments(sgl, idx + 1, 0, 0, b);
    }
  }

  /** When b divides size, b divides both size - off and total - (size - off) exactly when it
      divides off and total. */
  lemma {:induction false} SplitRemainder(size: nat, off: nat, total: nat, b: nat)
    requires b > 0 && size % b == 0 && off <= size && size - off <= total
    ensures (size - off) % b == 0 && (total - (size - off)) % b == 0
            <==> total % b == 0 && off % b == 0
  {
    var k := size / b;
    assert size == k * b;
    if off % b == 0 {
      AddDivisible(size, off, b);
      AddDivisible(total, size - off, b);
    }
    if (size - off) % b == 0 {
      AddDivisible(size, size - off, b);
      AddDivisible(total, size - off, b);
    }
  }

  ghost predicate AllOfLength(cs: seq<Chunk>, b: nat) {
    forall k | 0 <= k < |cs| :: cs[k].len == b
  }

  lemma {:induction false} SplitWhole(idx: nat, off: nat, len: nat, b: nat)
    requires b > 0 && len % b == 0
    ensures AllOfLength(Split(idx, off, len, b), b)
    ensures |Split(idx, off, len, b)| * b == len
    decreases len
  {
    if len > 0 {
      if len < b {
        SmallMod(len, b);
      }
      assert b == 1 * b;
      AddMultiple(len - b, 1, b);
      SplitWhole(idx, off + b, len - b, b);
      assert |Split(idx, off, len, b)| * b == b + |Split(idx, off + b, len - b, b)| * b;
    }
  }

  /** With whole segments every chunk has the full size, so there are total / b of them. */
  lemma {:induction false} WholeChunks(sgl: seq<SgEntry>, idx: nat, off: nat, rem: nat, b: nat)
    requires b > 0
    requires idx <= |sgl| && (idx < |sgl| ==> off <= sgl[idx].dmaLen)
    requires Prefix(sgl, idx) + off + rem <= Prefix(sgl, |sgl|)
    requires WholeSegments(sgl, idx, off, rem, b)
    ensures AllOfLength(Chunks(sgl, idx, off, rem, b), b)
    ensures |Chunks(sgl, idx, off, rem, b)| * b == rem
    decreases |sgl| - idx
  {
    if idx < |sgl| && rem > 0 {
      assert Prefix(sgl, idx + 1) == Prefix(sgl, idx) + sgl[idx].dmaLen;
      var len := SegLen(sgl, idx, off, rem);
      SplitWhole(idx, off, len, b);
      var s, t := Split(idx, off, len, b), Chunks(sgl, idx + 1, 0, rem - len, b);
      if len == rem {
        assert t == [];
      } else {
        WholeChunks(sgl, idx + 1, 0, rem - len, b);
      }
      Distribute(|s|, |t|, b);
      assert |Chunks(sgl, idx, off, rem, b)| == |s| + |t|;
    }
  }

  lemma {:induction false} Distribute(x: nat, y: nat, b: nat)
    ensures (x + y) * b == x * b + y * b
  {
  }

  lemma {:induction false} FixedTilingEndsAtBoundary(
    sgl: seq<SgEntry>, cs: seq<Chunk>, start: nat, total: nat, b: nat, idx: nat)
    requires b > 0 && idx < |sgl| && EntriesDivisible(sgl, b)
    requires Tiles(sgl, cs, start, total, b) && AllOfLength(cs, b)
    requires Prefix(sgl, idx) <= start < Prefix(sgl, idx) + sgl[idx].dmaLen < start + total
    ensures start % b == 0
    decreases |cs|
  {
    var c := cs[0];
    BoundaryEntry(sgl, c.idx, c.off, idx, start - Prefix(sgl, idx));
    AddMultiple(start, 1, b);
    var edge := Prefix(sgl, idx) + sgl[idx].dmaLen;
    assert c.len == b && start + b <= edge;
    if start + b < edge {
      assert forall k | 0 <= k < |cs[1..]| :: cs[1..][k] == cs[k + 1];
      FixedTilingEndsAtBoundary(sgl, cs[1..], start + b, total - b, b, idx);
    } else {
      PrefixDivisible(sgl, idx + 1, b);
      assert edge == Prefix(sgl, idx + 1) == start + b;
    }
  }

  /** A position inside an entry determines the entry and the offset. */
  lemma {:induction false} BoundaryEntry(sgl: seq<SgEntry>, i: nat, o: nat, j: nat, p: nat)
    requires i < |sgl| && j < |sgl| && o < sgl[i].dmaLen && p < sgl[j].dmaLen
    requires Prefix(sgl, i) + o == Prefix(sgl, j) + p
    ensures i == j && o == p
  {
    if i < j {
      PrefixMono(sgl, i + 1, j);
    } else if j < i {
      PrefixMono(sgl, j + 1, i);
    }
  }

  lemma {:induction false} FixedTilingTotal(sgl: seq<SgEntry>, cs: seq<Chunk>, start: nat, total: nat, b: nat)
    requires b > 0 && Tiles(sgl, cs, start, total, b) && AllOfLength(cs, b)
    ensures total == |cs| * b && total % b == 0
  {
    if cs == [] {
      SmallMod(0, b);
    } else {
      assert forall k | 0 <= k < |cs[1..]| :: cs[1..][k] == cs[k + 1];
      FixedTilingTotal(sgl, cs[1..], start + b, total - b, b);
      assert |cs| * b == b + |cs[1..]| * b;
      DivModUnique(total, |cs|, 0, b);
    }
  }

  /** Fixed-size mode, exactly. When b divides every entry, descriptors of b bytes can tile the
      window in any way at all if and only if the request passes FixedSizeFits; and then the
      chunks of the window are such a tiling. */
  lemma {:induction false} FixedSizeExact(sgl: seq<SgEntry>, start: nat, total: nat, b: nat)
    requires b > 0 && total > 0 && EntriesDivisible(sgl, b)
    requires start + total <= Prefix(sgl, |sgl|)
    ensures var (idx, off) := Locate(sgl, 0, start);
      && ((exists cs :: Tiles(sgl, cs, start, total, b) && AllOfLength(cs, b))
          <==> FixedSizeFits(sgl, idx, off, start, total, b))
      && (FixedSizeFits(sgl, idx, off, start, total, b) ==>
            && Tiles(sgl, WindowChunks(sgl, start, total, b), start, total, b)
            && AllOfLength(WindowChunks(sgl, start, total, b), b)
            && |WindowChunks(sgl, start, total, b)| == total / b)
  {
    var (idx, off) := Locate(sgl, 0, start);
    WindowTiles(sgl, start, total, b);
    WholeSegmentsExact(sgl, start, total, b);
    if FixedSizeFits(sgl, idx, off, start, total, b) {
      WholeChunks(sgl, idx, off, total, b);
      DivModUnique(total, |WindowChunks(sgl, start, total, b)|, 0, b);
    }
    forall cs | Tiles(sgl, cs, start, total, b) && AllOfLength(cs, b)
      ensures FixedSizeFits(sgl, idx, off, start, total, b)
    {
      FixedTilingTotal(sgl, cs, start, total, b);
      if total > sgl[idx].dmaLen - off {
        FixedTilingEndsAtBoundary(sgl, cs, start, total, b, idx);
      }
    }
  }
}
