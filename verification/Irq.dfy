/** The completion interrupts on the ring of a streaming transfer. */
module Irq {
  import opened Words
  import opened Descriptors
  import opened Window
  import opened Meaning
  import opened Generator
  import opened EndToEnd
  import Transfers

  /** How many of the len descriptors from position start on raise the completion interrupt, the
      positions wrapping around the ring. */
  function IrqsIn(ring: seq<Descriptor>, start: nat, len: nat): nat
    requires |ring| > 0
  {
    if len == 0 then 0
    else IrqsIn(ring, start, len - 1) + (if ring[(start + (len - 1)) % |ring|].irq then 1 else 0)
  }

  /** The interrupt flags of a streaming list with interval i. */
  ghost predicate Periodic(ring: seq<Descriptor>, i: nat)
    requires i > 0
  {
    forall k | 0 <= k < |ring| :: ring[k].irq <==> k % i == i - 1
  }

  lemma {:induction false} QuotientStep(x: nat, i: nat)
    requires i > 0
    ensures (x + 1) / i == x / i + (if x % i == i - 1 then 1 else 0)
  {
    var q, r := x / i, x % i;
    assert x == q * i + r;
    if r == i - 1 {
      DivModUnique(x + 1, q + 1, 0, i);
    } else {
      DivModUnique(x + 1, q, r + 1, i);
    }
  }

  lemma {:induction false} ModOfMod(x: nat, n: nat, i: nat)
    requires n > 0 && i > 0 && n % i == 0
    ensures (x % n) % i == x % i
  {
    var q, k := x / n, n / i;
    assert n == k * i;
    assert x == x % n + (q * k) * i by {
      assert q * (k * i) == (q * k) * i;
    }
    AddMultiple(x % n, q * k, i);
  }

  lemma {:induction false} CountWhenDivides(ring: seq<Descriptor>, i: nat, start: nat, len: nat)
    requires i > 0 && |ring| > 0 && Periodic(ring, i) && |ring| % i == 0
    ensures IrqsIn(ring, start, len) == (start + len) / i - start / i
  {
    if len > 0 {
      CountWhenDivides(ring, i, start, len - 1);
      var x := start + (len - 1);
      QuotientStep(x, i);
      ModOfMod(x, |ring|, i);
      assert ring[x % |ring|].irq <==> (x % |ring|) % i == i - 1;
    }
  }

  /** In the first n positions, that is without wrapping, the count is n / i for every n. */
  lemma {:induction false} CountInOneRound(ring: seq<Descriptor>, i: nat, len: nat)
    requires i > 0 && |ring| > 0 && Periodic(ring, i) && len <= |ring|
    ensures IrqsIn(ring, 0, len) == len / i
  {
    if len == 0 {
      SmallMod(0, i);
    } else {
      CountInOneRound(ring, i, len - 1);
      QuotientStep(len - 1, i);
      SmallMod(len - 1, |ring|);
      assert ring[len - 1].irq <==> (len - 1) % i == i - 1;
    }
  }

  /** When i does not divide the length, the window that starts at the last multiple of i is
      silent. */
  lemma {:induction false} SilentWindow(ring: seq<Descriptor>, i: nat, len: nat)
    requires i > 0 && |ring| > 0 && Periodic(ring, i) && |ring| % i != 0 && len <= i
    ensures IrqsIn(ring, |ring| - |ring| % i, len) == 0
  {
    var n, r := |ring|, |ring| % i;
    DivLe(n, i);
    assert n == (n / i) * i + r && r <= n;
    if len > 0 {
      SilentWindow(ring, i, len - 1);
      SilentPosition(n, n / i, r, i, len - 1);
      NotLast(ring, i, (n - r + (len - 1)) % n);
    }
  }

  lemma {:induction false} NotLast(ring: seq<Descriptor>, i: nat, k: nat)
    requires i > 0 && Periodic(ring, i) && k < |ring| && k % i != i - 1
    ensures !ring[k].irq
  {
  }

  /** Position j of that window, around the ring, is not the last of its interval. */
  lemma {:induction false} SilentPosition(n: nat, q: nat, r: nat, i: nat, j: nat)
    requires n == q * i + r && 0 < r < i && j < i
    ensures ((n - r + j) % n) % i != i - 1
  {
    var x := n - r + j;
    if x < n {
      SmallMod(x, n);
      DivModUnique(x, q, j, i);
    } else if q == 0 {
      SmallMod(x % n, i);
    } else {
      MulMono(1, q, i);
      DivModUnique(x, 1, x - n, n);
      SmallMod(x - n, i);
    }
  }

  lemma {:induction false} OneInWindow(ring: seq<Descriptor>, i: nat, start: nat)
    requires i > 0 && |ring| > 0 && Periodic(ring, i) && |ring| % i == 0
    ensures IrqsIn(ring, start, i) == 1
  {
    CountWhenDivides(ring, i, start, i);
    AddMultiple(start, 1, i);
  }

  lemma {:induction false} RemainderLe(n: nat, i: nat)
    requires i > 0
    ensures n % i <= n
  {
    DivLe(n, i);
    assert n == (n / i) * i + n % i;
  }

  /** IRQ cadence, exactly: every cyclic window of i consecutive descriptors, including the ones
      across the wrap, contains exactly one interrupt if and only if i divides the ring. */
  lemma {:induction false} CadenceExact(ring: seq<Descriptor>, i: nat)
    requires i > 0 && |ring| > 0 && Periodic(ring, i)
    ensures (forall start | 0 <= start < |ring| :: IrqsIn(ring, start, i) == 1) <==> |ring| % i == 0
    ensures IrqsIn(ring, 0, |ring|) == |ring| / i
  {
    CountInOneRound(ring, i, |ring|);
    if |ring| % i == 0 {
      forall start | 0 <= start < |ring|
        ensures IrqsIn(ring, start, i) == 1
      {
        OneInWindow(ring, i, start);
      }
    } else {
      SilentWindow(ring, i, i);
      var start := |ring| - |ring| % i;
      RemainderLe(|ring|, i);
      assert IrqsIn(ring, start, i) != 1;
    }
  }

  // ----- The flags and fields of a generated list --------------------------------------------------

  /** In DEFAULT mode exactly one descriptor raises the completion interrupt: the one with which the last byte
      of the request has been copied. */
  lemma {:induction false} DefaultInterrupt(p: Params, m: Mapping, ds: seq<Descriptor>)
    requires WellFormed(m) && Accepted(p, m) && Compilable(p, m) && IsGenerated(p, m, ds)
    requires p.transferMode == MODE_DEFAULT
    ensures forall k | 0 <= k < |ds| :: ds[k].irq <==> k == |ds| - 1
    ensures forall k | 0 <= k < |ds| :: ds[k].irq <==> TotalLength(ds[..k + 1]) == p.bytesTotal
    ensures p.bytesTotal > 0 ==> |ds| > 0
  {
    var cs := WindowChunks(m.sgl, p.mapOffset, p.bytesTotal, Step(p));
    CompilableChunks(p, m);
    GeneratedLengths(p, m, ds);
    GeneratedTotal(p, m, ds);
    forall k | 0 <= k < |ds|
      ensures ds[k].irq <==> k == |ds| - 1
      ensures ds[k].irq <==> TotalLength(ds[..k + 1]) == p.bytesTotal
    {
      assert Dressed(p, ds[k], k, |cs|);
      assert ds == ds[..k + 1] + ds[k + 1..];
      TotalAppend(ds[..k + 1], ds[k + 1..]);
      assert k + 1 < |ds| ==> ds[k + 1..][0].length > 0;
    }
  }

  /** So the walk over the published list of a request in DEFAULT mode raises it with its last step alone. */
  lemma {:induction false} DefaultSignals(f: Flight)
    requires f.Valid() && f.p.transferMode == MODE_DEFAULT
    ensures |f.ds| <= |f.list|
    ensures forall k | 0 <= k < |f.ds| :: f.list[k].irq <==> k == |f.ds| - 1
  {
    ListShape(f);
    DefaultInterrupt(f.p, f.m, f.ds);
    forall k | 0 <= k < |f.ds| ensures f.list[k].irq <==> k == |f.ds| - 1 {
      PublishedKeeps(f, k);
    }
  }

  /** The descriptors of a generated list add up to the request. */
  lemma {:induction false} GeneratedTotal(p: Params, m: Mapping, ds: seq<Descriptor>)
    requires p.channel < NUM_CHANNELS && Compilable(p, m) && IsGenerated(p, m, ds)
    ensures TotalLength(ds) == p.bytesTotal
  {
    var cs := WindowChunks(m.sgl, p.mapOffset, p.bytesTotal, Step(p));
    CompilableChunks(p, m);
    forall k | 0 <= k < |ds| ensures ds[k].length == cs[k].len {
      assert Addresses(p, m, ds[k], cs[k]);
    }
    TilesTotal(m.sgl, cs, p.mapOffset, p.bytesTotal, Step(p), ds);
  }

  lemma {:induction false} TilesTotal(sgl: seq<SgEntry>, cs: seq<Chunk>, start: nat, total: nat, step: nat,
                                      ds: seq<Descriptor>)
    requires Tiles(sgl, cs, start, total, step) && |ds| == |cs|
    requires forall k | 0 <= k < |ds| :: ds[k].length == cs[k].len
    ensures TotalLength(ds) == total
  {
    if cs != [] {
      TilesTotal(sgl, cs[1..], start + cs[0].len, total - cs[0].len, step, ds[1..]);
    }
  }

  /** In STREAM mode descriptor k raises the interrupt exactly if it is the last one of an interval, and none
      does without an interval. */
  lemma {:induction false} StreamInterrupts(p: Params, m: Mapping, ds: seq<Descriptor>)
    requires p.channel < NUM_CHANNELS && IsGenerated(p, m, ds) && p.transferMode == MODE_STREAM
    ensures p.interruptInterval == 0 ==> forall k | 0 <= k < |ds| :: !ds[k].irq
    ensures p.interruptInterval > 0 ==>
      forall k | 0 <= k < |ds| :: ds[k].irq <==> (k + 1) % p.interruptInterval == 0
  {
    var i, cs := p.interruptInterval, WindowChunks(m.sgl, p.mapOffset, p.bytesTotal, Step(p));
    forall k | 0 <= k < |ds|
      ensures i == 0 ==> !ds[k].irq
      ensures i > 0 ==> (ds[k].irq <==> (k + 1) % i == 0)
    {
      assert Dressed(p, ds[k], k, |cs|);
      if i > 0 {
        LastOfInterval(k, i);
      }
    }
  }

  lemma {:induction false} LastOfInterval(k: nat, i: nat)
    requires i > 0
    ensures k % i == i - 1 <==> (k + 1) % i == 0
  {
    var q, r := k / i, k % i;
    assert k == q * i + r;
    if r == i - 1 {
      DivModUnique(k + 1, q + 1, 0, i);
    } else {
      DivModUnique(k + 1, q, r + 1, i);
    }
  }

  /** The other fields, by channel. Channel 2 reads a stream: its descriptors never ask for an early done and
      have no read burst. Those of the channels with memory on both sides ask for an early done, but for the
      last one in DEFAULT mode, and have the requested bursts. The strides are the requested ones. */
  lemma {:induction false} GeneratedFields(p: Params, m: Mapping, ds: seq<Descriptor>, k: nat)
    requires p.channel < NUM_CHANNELS && IsGenerated(p, m, ds) && k < |ds|
    ensures var d := ds[k];
      && d.readStride == p.readStride && d.writeStride == p.writeStride && d.writeBurst == p.burstCount
      && d.sequence == k % 0x1_0000
      && (if p.channel == 2 then !d.earlyDone && d.readBurst == 0
          else d.readBurst == p.burstCount && (d.earlyDone <==> p.transferMode != MODE_DEFAULT || k < |ds| - 1))
  {
    var cs := WindowChunks(m.sgl, p.mapOffset, p.bytesTotal, Step(p));
    assert Dressed(p, ds[k], k, |cs|);
  }

  /** A generated ring with an interrupt interval, of either size mode, has the cadence exactly if the
      interval divides it; and if not, a window of it is silent. */
  lemma {:induction false} GeneratedCadenceExact(p: Params, m: Mapping, ds: seq<Descriptor>)
    requires p.channel < NUM_CHANNELS && Compilable(p, m) && IsGenerated(p, m, ds) && |ds| > 0
    requires p.transferMode == MODE_STREAM && p.interruptInterval > 0
    ensures (forall start | 0 <= start < |ds| :: IrqsIn(ds, start, p.interruptInterval) == 1)
            <==> |ds| % p.interruptInterval == 0
    ensures |ds| % p.interruptInterval != 0 ==>
      exists start | 0 <= start < |ds| :: IrqsIn(ds, start, p.interruptInterval) == 0
  {
    var i := p.interruptInterval;
    var cs := WindowChunks(m.sgl, p.mapOffset, p.bytesTotal, Step(p));
    forall k | 0 <= k < |ds| ensures ds[k].irq <==> k % i == i - 1 {
      assert Dressed(p, ds[k], k, |cs|);
    }
    CadenceExact(ds, i);
    if |ds| % i != 0 {
      SilentWindow(ds, i, i);
      RemainderLe(|ds|, i);
      assert IrqsIn(ds, |ds| - |ds| % i, i) == 0;
    }
  }

  /** An accepted fixed-size streaming request with an interrupt interval gets that cadence:
      validation checks the interval against the number of descriptors that is generated. */
  lemma {:induction false} StreamCadence(p: Params, m: Mapping, ds: seq<Descriptor>)
    requires WellFormed(m) && Accepted(p, m) && Compilable(p, m) && IsGenerated(p, m, ds)
    requires p.transferMode == MODE_STREAM && p.bytesPerDescriptor > 0 && p.interruptInterval > 0
    requires |ds| > 0
    ensures forall start | 0 <= start < |ds| :: IrqsIn(ds, start, p.interruptInterval) == 1
    ensures IrqsIn(ds, 0, |ds|) == |ds| / p.interruptInterval
  {
    CompilableChunks(p, m);
    assert !Violates(IntInterval, p, m);
    var cs := WindowChunks(m.sgl, p.mapOffset, p.bytesTotal, Step(p));
    assert |ds| == PlannedCount(p, m);
    forall k | 0 <= k < |ds|
      ensures ds[k].irq <==> k % p.interruptInterval == p.interruptInterval - 1
    {
      assert Dressed(p, ds[k], k, |cs|);
    }
    CadenceExact(ds, p.interruptInterval);
  }

  const UNEVEN := Mapping(0x80008, FROM_DEVICE, [SgEntry(0x10000, 0x80000, 0), SgEntry(0x20_0000, 8, 0)])
  const UNEVEN_RING := Params(0, 0, 0x80008, 0, 0, 0, 0, MODE_STREAM, FROM_DEVICE, 2, 0)

  lemma {:induction false} UnevenSegments(sgl: seq<SgEntry>)
    requires |sgl| == 2 && sgl[0].dmaLen == 0x80000 && sgl[1].dmaLen == 8
    ensures Prefix(sgl, 2) == 0x80008 && Locate(sgl, 0, 0) == (0, 0)
    ensures SegmentsBelow(sgl, 0, 0, 0x80008, 0xFFFC_0000)
  {
    assert Prefix(sgl, 1) == Prefix(sgl, 0) + 0x80000;
    assert SegmentsBelow(sgl, 1, 0, 8, 0xFFFC_0000);
  }

  lemma {:induction false} UnevenCount(sgl: seq<SgEntry>)
    requires |sgl| == 2 && sgl[0].dmaLen == 0x80000 && sgl[1].dmaLen == 8
    ensures PlanCount(sgl, 0, 0, 0x80008, 262144) == 3
  {
    PlanCountStep(sgl, 0, 0, 0x80008, 262144, 0x80000, 2);
    PlanCountStep(sgl, 1, 0, 8, 262144, 8, 1);
  }

  lemma {:induction false} UnevenPlan()
    ensures WellFormed(UNEVEN) && Compilable(UNEVEN_RING, UNEVEN)
    ensures PlannedCount(UNEVEN_RING, UNEVEN) == 3
  {
    UnevenSegments(UNEVEN.sgl);
    UnevenCount(UNEVEN.sgl);
  }

  lemma {:induction false} UnevenAccepted()
    ensures Accepted(UNEVEN_RING, UNEVEN)
  {
    W32Fits(UNEVEN_RING.bytesTotal + UNEVEN_RING.mapOffset);
    forall f: ParamFlag ensures !Violates(f, UNEVEN_RING, UNEVEN) {
      match f
      case IntInterval => assert AssumedDescriptors(UNEVEN_RING, UNEVEN) == 2;
      case _ =>
    }
  }

  /** In flexible mode validation compares the interval with the number of scatter entries, so an
      accepted ring can have a silent window: three descriptors, interval 2. */
  lemma {:induction false} FlexibleCadenceFails() returns (p: Params, m: Mapping, ds: seq<Descriptor>, start: nat)
    ensures Accepted(p, m) && p.transferMode == MODE_STREAM && p.interruptInterval == 2
    ensures IsGenerated(p, m, ds) && start < |ds| == 3 && IrqsIn(ds, start, 2) == 0
  {
    p, m := UNEVEN_RING, UNEVEN;
    UnevenPlan();
    UnevenAccepted();
    ds, start := SilentRing(p, m);
  }

  lemma {:induction false} SilentRing(p: Params, m: Mapping) returns (ds: seq<Descriptor>, start: nat)
    requires WellFormed(m) && Accepted(p, m) && Compilable(p, m) && p.transferMode == MODE_STREAM
    requires p.interruptInterval > 0 && PlannedCount(p, m) % p.interruptInterval != 0
    ensures IsGenerated(p, m, ds) && |ds| == PlannedCount(p, m)
    ensures start < |ds| && IrqsIn(ds, start, p.interruptInterval) == 0
  {
    ds := Transfers.CompiledList(p, m);
    Transfers.CompiledGenerated(p, m);
    CompilableChunks(p, m);
    if |ds| == 0 {
      SmallMod(0, p.interruptInterval);
    }
    GeneratedCadenceExact(p, m, ds);
    start :| start < |ds| && IrqsIn(ds, start, p.interruptInterval) == 0;
  }
}
