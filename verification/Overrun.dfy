/** The filling loops over 32-bit words, for requests that validation accepts but that cannot be
    compiled: exactly when they stay inside the planned descriptors. */
module Overrun {
  import opened Words
  import opened Descriptors
  import opened Window
  import opened Meaning
  import opened Generator

  /** The inner loop, which takes b off bytes_in_page_rem with wrap-around until nothing is left,
      ends after j rounds. */
  predicate InnerEnds(len: nat, b: nat, j: nat) {
    W32(len - Bytes(b, j)) == 0 && forall i {:trigger Bytes(b, i)} | 0 <= i < j :: W32(len - Bytes(b, i)) != 0
  }

  /** fill_addresses in fixed-size mode, from offset off of entry idx on with rem bytes and room
      planned descriptors left, writes no descriptor beyond them and reads no entry beyond the
      list. */
  ghost predicate StaysInside(sgl: seq<SgEntry>, idx: nat, off: nat, rem: nat, room: nat, b: nat)
    requires idx <= |sgl| && (idx < |sgl| ==> off <= sgl[idx].dmaLen)
    decreases |sgl| - idx
  {
    rem == 0 || room == 0 ||
    (idx < |sgl|
     && exists j: nat ::
          j <= room && InnerEnds(SegLen(sgl, idx, off, rem), b, j)
          && StaysInside(sgl, idx + 1, 0, W32(rem - Bytes(b, j)), room - j, b))
  }

  /** Every segment that begins with at least b bytes of the window left is a whole number of b
      bytes. */
  predicate WholeWhile(sgl: seq<SgEntry>, idx: nat, off: nat, rem: nat, b: nat)
    requires b > 0
    requires idx <= |sgl| && (idx < |sgl| ==> off <= sgl[idx].dmaLen)
    decreases |sgl| - idx
  {
    rem < b ||
    (idx < |sgl|
     && SegLen(sgl, idx, off, rem) % b == 0
     && WholeWhile(sgl, idx + 1, 0, rem - SegLen(sgl, idx, off, rem), b))
  }

  /** Within the planned descriptors the inner loop can only end by using up its segment: the next
      chance comes after 2^32 more bytes. */
  lemma {:induction false} InnerEndsExact(len: nat, b: nat, rem: nat, j: nat)
    requires b > 0 && len <= rem < TWO32 && j <= rem / b
    ensures InnerEnds(len, b, j) <==> Bytes(b, j) == len
  {
    BoundedBytes(b, j, rem);
    if Bytes(b, j) == len {
      forall i | 0 <= i < j ensures W32(len - Bytes(b, i)) != 0 {
        MulMono(i + 1, j, b);
        assert Bytes(b, i + 1) == Bytes(b, i) + b;
        SmallDifference(len - Bytes(b, i));
      }
    } else {
      SmallDifference(len - Bytes(b, j));
    }
  }

  lemma {:induction false} BoundedBytes(b: nat, j: nat, rem: nat)
    requires b > 0 && j <= rem / b
    ensures Bytes(b, j) <= rem
  {
    MulMono(j, rem / b, b);
    assert rem == (rem / b) * b + rem % b;
  }

  /** A difference below 2^32 in size vanishes with wrap-around only if it is 0. */
  lemma {:induction false} SmallDifference(x: int)
    requires -0x1_0000_0000 < x < 0x1_0000_0000
    ensures W32(x) == 0 <==> x == 0
  {
  }

  /** Divisibility as a number of descriptors. */
  lemma {:induction false} WholeNumber(len: nat, b: nat, rem: nat)
    requires b > 0 && len <= rem
    ensures len % b == 0 <==> exists j: nat :: j <= rem / b && Bytes(b, j) == len
    ensures len % b == 0 ==> len / b <= rem / b && Bytes(b, len / b) == len && (rem - len) / b == rem / b - len / b
  {
    if len % b == 0 {
      TakeWhole(len, len / b, b, rem);
    }
    forall j: nat | Bytes(b, j) == len ensures len % b == 0 {
      DivModUnique(len, j, 0, b);
    }
  }

  lemma {:induction false} TakeWhole(len: nat, j: nat, b: nat, rem: nat)
    requires b > 0 && len <= rem && len == j * b
    ensures j <= rem / b && Bytes(b, j) == len && (rem - len) / b == rem / b - j
  {
    DivMono(len, rem, b);
    DivModUnique(len, j, 0, b);
    AddMultiple(rem - len, j, b);
  }

  /** The filling loops stay inside the plan exactly if every segment they come to is whole. */
  lemma {:induction false} StaysInsideExact(sgl: seq<SgEntry>, idx: nat, off: nat, rem: nat, b: nat)
    requires 0 < b && rem < TWO32 && idx <= |sgl| && (idx < |sgl| ==> off <= sgl[idx].dmaLen)
    ensures StaysInside(sgl, idx, off, rem, rem / b, b) <==> WholeWhile(sgl, idx, off, rem, b)
    decreases |sgl| - idx
  {
    if rem < b {
      SmallMod(rem, b);
    } else {
      DivMono(b, rem, b);
      DivModUnique(b, 1, 0, b);
      if idx < |sgl| {
        var len := SegLen(sgl, idx, off, rem);
        StaysStep(sgl, idx, off, rem, b);
        if len % b == 0 {
          StaysInsideExact(sgl, idx + 1, 0, rem - len, b);
        }
      }
    }
  }

  /** One round of the outer loop: it stays inside exactly if its segment is whole and the rest does. */
  lemma {:induction false} StaysStep(sgl: seq<SgEntry>, idx: nat, off: nat, rem: nat, b: nat)
    requires 0 < b <= rem < TWO32 && idx < |sgl| && off <= sgl[idx].dmaLen && rem / b > 0
    ensures var len := SegLen(sgl, idx, off, rem);
      && 0 <= (rem - len) / b
      && (StaysInside(sgl, idx, off, rem, rem / b, b)
          <==> len % b == 0 && StaysInside(sgl, idx + 1, 0, rem - len, (rem - len) / b, b))
  {
    var len := SegLen(sgl, idx, off, rem);
    DivLe(rem - len, b);
    WholeNumber(len, b, rem);
    forall j: nat | j <= rem / b ensures InnerEnds(len, b, j) <==> Bytes(b, j) == len {
      InnerEndsExact(len, b, rem, j);
    }
    W32Fits(rem - len);
    if len % b == 0 {
      SameCount(b, len / b, len);
      assert InnerEnds(len, b, len / b);
    }
  }

  lemma {:induction false} SameCount(b: nat, j: nat, len: nat)
    requires b > 0 && Bytes(b, j) == len
    ensures forall i: nat :: Bytes(b, i) == len ==> i == j
  {
    forall i: nat | Bytes(b, i) == len ensures i == j {
      DivModUnique(len, i, 0, b);
      DivModUnique(len, j, 0, b);
    }
  }

  /** When b divides what is left, that is all segments. */
  lemma {:induction false} WholeWhileAll(sgl: seq<SgEntry>, idx: nat, off: nat, rem: nat, b: nat)
    requires b > 0 && rem % b == 0 && idx <= |sgl| && (idx < |sgl| ==> off <= sgl[idx].dmaLen)
    requires Prefix(sgl, idx) + off + rem <= Prefix(sgl, |sgl|)
    ensures WholeWhile(sgl, idx, off, rem, b) <==> WholeSegments(sgl, idx, off, rem, b)
    decreases |sgl| - idx
  {
    if rem < b {
      SmallMod(rem, b);
    } else if idx < |sgl| {
      var len := SegLen(sgl, idx, off, rem);
      assert Prefix(sgl, idx + 1) == Prefix(sgl, idx) + sgl[idx].dmaLen;
      if len % b == 0 {
        AddDivisible(rem, len, b);
        PrefixMono(sgl, idx + 1, |sgl|);
        WholeWhileAll(sgl, idx + 1, 0, rem - len, b);
      }
    }
  }

  /** For an accepted fixed-size request whose size divides its total, staying inside the plan is
      the same as being compilable. */
  lemma {:induction false} OverrunExact(p: Params, m: Mapping)
    requires WellFormed(m) && Accepted(p, m) && p.bytesPerDescriptor > 0
    requires p.mapOffset + p.bytesTotal < TWO32 && p.bytesTotal % p.bytesPerDescriptor == 0 && |m.sgl| > 0
    ensures var (idx, off) := Locate(m.sgl, 0, p.mapOffset);
      StaysInside(m.sgl, idx, off, p.bytesTotal, PlannedCount(p, m), p.bytesPerDescriptor) <==> Compilable(p, m)
  {
    AcceptedWindowInside(p, m);
    var (idx, off) := Locate(m.sgl, 0, p.mapOffset);
    StaysInsideExact(m.sgl, idx, off, p.bytesTotal, p.bytesPerDescriptor);
    WholeWhileAll(m.sgl, idx, off, p.bytesTotal, p.bytesPerDescriptor);
  }

  /** 1024 bytes at offset 8 in descriptors of 1024 bytes: accepted, and filled past the plan. */
  lemma {:induction false} MisalignedOverruns() returns (p: Params, m: Mapping)
    ensures WellFormed(m) && Accepted(p, m) && |m.sgl| == 2
    ensures p.mapOffset == 8 && p.bytesTotal == 1024 && p.bytesPerDescriptor == 1024
    ensures var (idx, off) := Locate(m.sgl, 0, p.mapOffset);
      !StaysInside(m.sgl, idx, off, p.bytesTotal, PlannedCount(p, m), p.bytesPerDescriptor)
  {
    p, m := MisalignedOffsetAccepted();
    CompilableTiles(p, m);
    OverrunExact(p, m);
  }

  lemma {:induction false} CompilableTiles(p: Params, m: Mapping)
    requires p.channel < NUM_CHANNELS && p.bytesPerDescriptor > 0
    ensures Compilable(p, m) ==>
      exists cs :: Tiles(m.sgl, cs, p.mapOffset, p.bytesTotal, p.bytesPerDescriptor)
                   && AllOfLength(cs, p.bytesPerDescriptor)
  {
    if Compilable(p, m) {
      CompilableChunks(p, m);
    }
  }

  // ----- Flexible sizes ---------------------------------------------------------------------------------

  /** fill_addresses in flexible mode: the inner loop takes at most max bytes a round until its segment is
      used up, so no subtraction wraps. It writes no descriptor beyond the room planned ones, and reads no
      entry beyond the list. */
  predicate FlexibleStays(sgl: seq<SgEntry>, idx: nat, off: nat, rem: nat, room: nat, max: nat)
    requires max > 0
    requires idx <= |sgl| && (idx < |sgl| ==> off <= sgl[idx].dmaLen)
    decreases |sgl| - idx
  {
    rem == 0 || room == 0 ||
    (idx < |sgl|
     && CeilDiv(SegLen(sgl, idx, off, rem), max) <= room
     && FlexibleStays(sgl, idx + 1, 0, rem - SegLen(sgl, idx, off, rem),
                      room - CeilDiv(SegLen(sgl, idx, off, rem), max), max))
  }

  /** The test: a segment whose count wraps is the last one that is planned, or what is planned for the
      segments after it suffices for it. */
  predicate HugeFits(sgl: seq<SgEntry>, idx: nat, off: nat, rem: nat, max: u32)
    requires max > 0
    requires idx <= |sgl| && (idx < |sgl| ==> off <= sgl[idx].dmaLen)
    decreases |sgl| - idx
  {
    idx == |sgl| || rem == 0 ||
    var len := SegLen(sgl, idx, off, rem);
    if len <= TWO32 - max then HugeFits(sgl, idx + 1, 0, rem - len, max)
    else
      var later := PlanCount(sgl, idx + 1, 0, rem - len, max);
      later == 0 || CeilDiv(len, max) <= later
  }

  /** A segment whose count wraps is planned as no descriptor. */
  lemma {:induction false} WrapsToNone(n: u32, d: u32)
    requires d > 0 && n > TWO32 - d
    ensures DivRoundUp32(n, d) == 0
  {
    var w := n + d - 1 - TWO32;
    assert W32(n + d - 1) == w;
    SmallMod(w, d);
  }

  lemma {:induction false} ShortCeil(len: nat, max: nat)
    requires max > 0 && len <= max
    ensures CeilDiv(len, max) == if len == 0 then 0 else 1
  {
    if len == 0 {
      SmallMod(max - 1, max);
    } else {
      DivModUnique(len + max - 1, 1, len - 1, max);
    }
  }

  /** What is left after such a segment is short: it takes one descriptor a segment, and never more than
      there is room for. */
  lemma {:induction false} ShortStays(sgl: seq<SgEntry>, idx: nat, off: nat, rem: nat, room: nat, max: nat)
    requires max > 0 && rem <= max && idx <= |sgl| && (idx < |sgl| ==> off <= sgl[idx].dmaLen)
    requires rem > 0 ==> Prefix(sgl, idx) + off + rem <= Prefix(sgl, |sgl|)
    ensures FlexibleStays(sgl, idx, off, rem, room, max)
    decreases |sgl| - idx
  {
    if rem > 0 && room > 0 {
      var len := SegLen(sgl, idx, off, rem);
      ShortCeil(len, max);
      assert Prefix(sgl, idx + 1) == Prefix(sgl, idx) + sgl[idx].dmaLen;
      ShortStays(sgl, idx + 1, 0, rem - len, room - CeilDiv(len, max), max);
    }
  }

  /** In flexible mode the filling loops stay inside the plan exactly if the window passes the test. */
  lemma {:induction false} FlexibleStaysExact(sgl: seq<SgEntry>, idx: nat, off: nat, rem: nat, max: u32)
    requires max > 0 && rem < TWO32 && idx <= |sgl| && (idx < |sgl| ==> off <= sgl[idx].dmaLen)
    requires rem > 0 ==> Prefix(sgl, idx) + off + rem <= Prefix(sgl, |sgl|)
    ensures FlexibleStays(sgl, idx, off, rem, PlanCount(sgl, idx, off, rem, max), max)
            <==> HugeFits(sgl, idx, off, rem, max)
    decreases |sgl| - idx
  {
    if rem > 0 {
      var len := SegLen(sgl, idx, off, rem);
      var later := PlanCount(sgl, idx + 1, 0, rem - len, max);
      assert Prefix(sgl, idx + 1) == Prefix(sgl, idx) + sgl[idx].dmaLen;
      PlanCountStep(sgl, idx, off, rem, max, len, DivRoundUp32(len, max));
      if len <= TWO32 - max {
        RoundUpExact(len, max);
        CeilNat(len, max);
        FlexibleStaysExact(sgl, idx + 1, 0, rem - len, max);
        NothingPlanned(sgl, idx + 1, 0, rem - len, max);
      } else {
        WrapsToNone(len, max);
        if CeilDiv(len, max) <= later {
          CeilNat(len, max);
          ShortStays(sgl, idx + 1, 0, rem - len, later - CeilDiv(len, max), max);
        }
      }
    }
  }

  lemma {:induction false} CeilNat(n: nat, d: nat)
    requires d > 0
    ensures CeilDiv(n, d) >= 0
  {
    DivLe(n + d - 1, d);
  }

  /** Without anything planned the loops do nothing. */
  lemma {:induction false} NothingPlanned(sgl: seq<SgEntry>, idx: nat, off: nat, rem: nat, max: u32)
    requires max > 0 && idx <= |sgl| && (idx < |sgl| ==> off <= sgl[idx].dmaLen)
    ensures PlanCount(sgl, idx, off, rem, max) == 0 ==>
              FlexibleStays(sgl, idx, off, rem, PlanCount(sgl, idx, off, rem, max), max)
  {
  }

  /** For an accepted request of flexible sizes whose window does not wrap. Compilable ones pass. */
  lemma {:induction false} FlexibleOverrunExact(p: Params, m: Mapping)
    requires WellFormed(m) && Accepted(p, m) && p.bytesPerDescriptor == 0
    requires p.mapOffset + p.bytesTotal < TWO32 && |m.sgl| > 0
    ensures var (idx, off) := Locate(m.sgl, 0, p.mapOffset);
      var max := ChannelTable(p.channel).maxTransfer;
      && (FlexibleStays(m.sgl, idx, off, p.bytesTotal, PlannedCount(p, m), max)
          <==> HugeFits(m.sgl, idx, off, p.bytesTotal, max))
      && (Compilable(p, m) ==> HugeFits(m.sgl, idx, off, p.bytesTotal, max))
  {
    AcceptedWindowInside(p, m);
    var (idx, off) := Locate(m.sgl, 0, p.mapOffset);
    var max := ChannelTable(p.channel).maxTransfer;
    FlexibleStaysExact(m.sgl, idx, off, p.bytesTotal, max);
    if Compilable(p, m) {
      BelowFits(m.sgl, idx, off, p.bytesTotal, max);
    }
  }

  lemma {:induction false} BelowFits(sgl: seq<SgEntry>, idx: nat, off: nat, rem: nat, max: u32)
    requires max > 0 && idx <= |sgl| && (idx < |sgl| ==> off <= sgl[idx].dmaLen)
    requires SegmentsBelow(sgl, idx, off, rem, TWO32 - max)
    ensures HugeFits(sgl, idx, off, rem, max)
    decreases |sgl| - idx
  {
    if idx < |sgl| && rem > 0 {
      BelowFits(sgl, idx + 1, 0, rem - SegLen(sgl, idx, off, rem), max);
    }
  }

  lemma {:induction false} HugeFirst(sgl: seq<SgEntry>, max: u32)
    requires |sgl| == 2 && sgl[0].dmaLen == 0xFFFC_0008 && sgl[1].dmaLen == 8 && max == 0x4_0000
    ensures Prefix(sgl, 2) == 0xFFFC_0010 && Locate(sgl, 0, 0) == (0, 0)
    ensures PlanCount(sgl, 0, 0, 0xFFFC_0010, max) == 1 && !HugeFits(sgl, 0, 0, 0xFFFC_0010, max)
  {
    assert Prefix(sgl, 1) == Prefix(sgl, 0) + sgl[0].dmaLen;
    WrapsToNone(0xFFFC_0008, max);
    DivModUnique(8 + max - 1, 1, 7, max);
    W32Fits(8 + max - 1);
    PlanCountStep(sgl, 1, 0, 8, max, 8, 1);
    PlanCountStep(sgl, 0, 0, 0xFFFC_0010, max, 0xFFFC_0008, 0);
    DivModUnique(0xFFFC_0008 + max - 1, 0x4000, 7, max);
  }

  /** An accepted request of flexible sizes that is filled past its plan: of two entries, the first is
      planned as no descriptor and written as 16384. */
  lemma {:induction false} FlexibleOverruns() returns (p: Params, m: Mapping)
    ensures WellFormed(m) && Accepted(p, m) && p.bytesPerDescriptor == 0 && PlannedCount(p, m) == 1
    ensures var (idx, off) := Locate(m.sgl, 0, p.mapOffset);
      !FlexibleStays(m.sgl, idx, off, p.bytesTotal, PlannedCount(p, m), ChannelTable(p.channel).maxTransfer)
  {
    m := Mapping(0xFFFC_0010, FROM_DEVICE, [SgEntry(0x10_0000, 0xFFFC_0008, 0), SgEntry(0x2_0000_0000, 8, 0)]);
    p := Params(0, 0, 0xFFFC_0010, 0, 0, 0, 0, MODE_DEFAULT, FROM_DEVICE, 0, 0);
    FlexibleAccepted(p, m);
    HugeFirst(m.sgl, 0x4_0000);
    FlexibleOverrunExact(p, m);
  }

  lemma {:induction false} FlexibleAccepted(p: Params, m: Mapping)
    requires p == Params(0, 0, m.size, 0, 0, 0, 0, MODE_DEFAULT, FROM_DEVICE, 0, 0)
    requires m.direction == FROM_DEVICE && m.size % 8 == 0
    ensures Accepted(p, m)
  {
    W32Fits(m.size);
  }

  // ----- A plan that is too small ----------------------------------------------------------------------

  lemma {:induction false} HugeSegment(sgl: seq<SgEntry>)
    requires |sgl| == 1 && sgl[0].dmaLen == 0xFFFF_FFF8
    ensures Locate(sgl, 0, 0) == (0, 0) && Prefix(sgl, 1) == 0xFFFF_FFF8
    ensures PlanCount(sgl, 0, 0, 0xFFFF_FFF8, 262144) == 0
    ensures |WindowChunks(sgl, 0, 0xFFFF_FFF8, 262144)| > 0
  {
    assert Prefix(sgl, 1) == Prefix(sgl, 0) + 0xFFFF_FFF8;
    PlanCountStep(sgl, 0, 0, 0xFFFF_FFF8, 262144, 0xFFFF_FFF8, 0);
    PlanCountExact(sgl, 0, 0, 0xFFFF_FFF8, 262144);
    assert !SegmentsBelow(sgl, 0, 0, 0xFFFF_FFF8, TWO32 - 262144);
  }
}
