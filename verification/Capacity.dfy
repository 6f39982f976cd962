/** The flexible mode never needs more descriptors than the memory pages its window touches,
    which bounds it by the buffer that is sized before the scatter list is looked at. */
module Capacity {
  import opened Words
  import opened Descriptors
  import opened Window

  /** Entries of a mapping that starts c bytes into a memory page meet at page boundaries. */
  predicate OnPageGrid(sgl: seq<SgEntry>, c: nat) {
    forall i | 0 < i < |sgl| :: (Prefix(sgl, i) + c) % PAGE_SIZE == 0
  }

  /** The memory page that byte p of the mapping lies in. */
  function PageOf(p: nat, c: nat): nat {
    (p + c) / PAGE_SIZE
  }

  /** How many memory pages a window touches. */
  function PagesTouched(start: nat, total: nat, c: nat): nat {
    if total == 0 then 0
    else
      DivMono(start + c, start + total - 1 + c, PAGE_SIZE);
      PageOf(start + total - 1, c) - PageOf(start, c) + 1
  }

  lemma {:induction false} SplitBound(idx: nat, off: nat, len: nat, step: nat, p: nat, c: nat)
    requires step >= PAGE_SIZE && len > 0
    ensures |Split(idx, off, len, step)| <= PagesTouched(p, len, c)
    decreases len
  {
    if len > step {
      SplitBound(idx, off + step, len - step, step, p + step, c);
      AddMultiple(p + c, 1, PAGE_SIZE);
      DivMono(p + c + PAGE_SIZE, p + step + c, PAGE_SIZE);
    } else {
      DivMono(p + c, p + len - 1 + c, PAGE_SIZE);
      assert Split(idx, off + len, 0, step) == [];
    }
  }

  /** A page boundary starts a new page. */
  lemma {:induction false} BoundaryPage(q: nat, c: nat)
    requires q > 0 && (q + c) % PAGE_SIZE == 0
    ensures PageOf(q, c) == PageOf(q - 1, c) + 1
  {
    var k := (q + c) / PAGE_SIZE;
    DivModUnique(q - 1 + c, k - 1, PAGE_SIZE - 1, PAGE_SIZE);
  }

  /** Cutting a window at a page boundary splits the pages it touches. */
  lemma {:induction false} PagesTouchedSplit(p: nat, m: nat, n: nat, c: nat)
    requires m > 0 && n > 0 && (p + m + c) % PAGE_SIZE == 0
    ensures PagesTouched(p, m + n, c) == PagesTouched(p, m, c) + PagesTouched(p + m, n, c)
  {
    BoundaryPage(p + m, c);
  }

  lemma {:induction false} ChunksBound(sgl: seq<SgEntry>, idx: nat, off: nat, rem: nat, step: nat, c: nat)
    requires step >= PAGE_SIZE && rem > 0
    requires OnPageGrid(sgl, c) && idx < |sgl| && off <= sgl[idx].dmaLen
    requires Prefix(sgl, idx) + off + rem <= Prefix(sgl, |sgl|)
    ensures |Chunks(sgl, idx, off, rem, step)| <= PagesTouched(Prefix(sgl, idx) + off, rem, c)
    decreases |sgl| - idx
  {
    var p := Prefix(sgl, idx) + off;
    var len := SegLen(sgl, idx, off, rem);
    assert Prefix(sgl, idx + 1) == Prefix(sgl, idx) + sgl[idx].dmaLen;
    if len > 0 {
      SplitBound(idx, off, len, step, p, c);
    }
    if len < rem {
      assert Prefix(sgl, idx + 1) == p + len;
      ChunksBound(sgl, idx + 1, 0, rem - len, step, c);
      if len > 0 {
        PagesTouchedSplit(p, len, rem - len, c);
      }
    } else {
      assert Chunks(sgl, idx + 1, 0, 0, step) == [];
    }
  }

  /** The flexible plan needs at most one descriptor per memory page it touches. */
  lemma {:induction false} OneChunkPerPage(sgl: seq<SgEntry>, start: nat, total: nat, step: nat, c: nat)
    requires step >= PAGE_SIZE && OnPageGrid(sgl, c)
    requires start + total <= Prefix(sgl, |sgl|)
    ensures |WindowChunks(sgl, start, total, step)| <= PagesTouched(start, total, c)
  {
    var (idx, off) := Locate(sgl, 0, start);
    if total > 0 {
      ChunksBound(sgl, idx, off, total, step, c);
    }
  }

  /** A window of total bytes touches at most one page more than its rounded-up size, and none
      more when it starts at a page boundary. */
  lemma {:induction false} PagesTouchedBound(start: nat, total: nat, c: nat)
    ensures PagesTouched(start, total, c) <= CeilDiv(total, PAGE_SIZE) + 1
    ensures (start + c) % PAGE_SIZE == 0 ==> PagesTouched(start, total, c) == CeilDiv(total, PAGE_SIZE)
  {
    if total > 0 {
      var k, r := (start + c) / PAGE_SIZE, (start + c) % PAGE_SIZE;
      assert start + c == k * PAGE_SIZE + r;
      AddMultiple(r + total - 1, k, PAGE_SIZE);
      assert PagesTouched(start, total, c) == (r + total - 1) / PAGE_SIZE + 1;
      AddMultiple(total - 1, 1, PAGE_SIZE);
      DivMono(r + total - 1, PAGE_SIZE + total - 1, PAGE_SIZE);
    }
  }

  /** DEFAULT mode: the buffer sized from the request alone always suffices for the flexible
      plan, for any offset and any fragmentation at memory pages. */
  lemma {:induction false} DefaultModeFits(sgl: seq<SgEntry>, p: Params, c: nat)
    requires p.channel < NUM_CHANNELS && OnPageGrid(sgl, c)
    requires p.bytesPerDescriptor == 0 && p.transferMode == MODE_DEFAULT
    requires p.mapOffset + p.bytesTotal <= Prefix(sgl, |sgl|)
    ensures |WindowChunks(sgl, p.mapOffset, p.bytesTotal, Step(p))| <= MaxDescriptorsNeeded(p)
  {
    OneChunkPerPage(sgl, p.mapOffset, p.bytesTotal, Step(p), c);
    PagesTouchedBound(p.mapOffset, p.bytesTotal, c);
    DivMono(p.bytesTotal + PAGE_SIZE - 1, 2 * TWO32 - 1, PAGE_SIZE);
    W32Fits(CeilDiv(p.bytesTotal, PAGE_SIZE) + 1);
  }
}
