/** What the reader of a stream gets: the counter, the data synchronised for it and the copies that the
    hardware has made, compared with each other. */
module Delivery {
  import opened Words
  import opened Descriptors
  import opened Window
  import opened Meaning
  import opened Generator
  import opened PageTable
  import opened Publish
  import opened Walk
  import opened EndToEnd
  import opened Stream
  import opened SyncData
  import Irq
  import Transfers

  // ----- The counter ---------------------------------------------------------------------------------

  /** The bytes in the first x descriptors that the hardware executes on the ring. */
  function Completed(ds: seq<Descriptor>, x: nat): nat
    requires |ds| > 0
  {
    TotalLength(Around(ds, 0, x))
  }

  lemma {:induction false} AroundSnoc(list: seq<Descriptor>, x: nat)
    requires |list| > 0
    ensures Around(list, 0, x + 1) == Around(list, 0, x) + [list[x % |list|]]
  {
    var a, b := Around(list, 0, x + 1), Around(list, 0, x) + [list[x % |list|]];
    AroundLength(list, 0, x);
    AroundLength(list, 0, x + 1);
    forall i | 0 <= i < x + 1 ensures a[i] == b[i] {
      AroundAt(list, 0, x + 1, i);
      if i < x {
        AroundAt(list, 0, x, i);
      }
    }
  }

  lemma {:induction false} CompletedSnoc(ds: seq<Descriptor>, x: nat)
    requires |ds| > 0
    ensures Completed(ds, x + 1) == Completed(ds, x) + ds[x % |ds|].length
  {
    AroundSnoc(ds, x);
    TotalAppend(Around(ds, 0, x), [ds[x % |ds|]]);
    assert [ds[x % |ds|]][1..] == [];
  }

  lemma {:induction false} CompletedBytes(ds: seq<Descriptor>, b: nat, x: nat)
    requires |ds| > 0
    ensures (forall k | 0 <= k < |ds| :: ds[k].length == b) ==> Completed(ds, x) == Bytes(b, x)
    ensures (forall k | 0 <= k < |ds| :: ds[k].length > 0) && x > 0 ==> Completed(ds, x) > 0
  {
    if x > 0 {
      CompletedBytes(ds, b, x - 1);
      CompletedSnoc(ds, x - 1);
      BytesAdd(b, x - 1, 1);
      assert Bytes(b, 1) == b;
    }
  }

  /** The history of a stream at its k-th interrupt: true positions with steps shorter than a ring that
      the 16-bit numbers can tell apart. */
  ghost predicate Followed(h: seq<nat>, n: nat, k: nat) {
    0 < n <= TWO16 && Positions(h) && k <= |h| && ShortSteps(h, |h|, n)
  }

  /** The byte counter after k interrupts. */
  function Produced(p: Params, h: seq<nat>, n: u32, k: nat): u64
    requires n > 0 && k <= |h|
  {
    After(Indices(h, n), k, n, p.bytesPerDescriptor).produced
  }

  lemma {:induction false} RingBytes(p: Params, m: Mapping, ds: seq<Descriptor>)
    requires p.channel < NUM_CHANNELS && Compilable(p, m) && IsGenerated(p, m, ds)
    ensures Bytes(p.bytesPerDescriptor, |ds|) < TWO32
  {
    CompilableChunks(p, m);
    if p.bytesPerDescriptor > 0 {
      QuotientBytes(p.bytesTotal, p.bytesPerDescriptor);
    }
  }

  lemma {:induction false} QuotientBytes(t: nat, b: nat)
    requires b > 0
    ensures t / b >= 0 && Bytes(b, t / b) <= t
  {
    assert t == (t / b) * b + t % b;
  }

  lemma {:induction false} GeneratedSizes(p: Params, m: Mapping, ds: seq<Descriptor>)
    requires p.channel < NUM_CHANNELS && Compilable(p, m) && IsGenerated(p, m, ds) && p.bytesPerDescriptor > 0
    ensures forall k | 0 <= k < |ds| :: ds[k].length == p.bytesPerDescriptor
  {
    CompilableChunks(p, m);
    var cs := WindowChunks(m.sgl, p.mapOffset, p.bytesTotal, Step(p));
    forall k | 0 <= k < |ds| ensures ds[k].length == p.bytesPerDescriptor {
      assert Addresses(p, m, ds[k], cs[k]);
    }
  }

  /** The counter against the hardware, exactly. With a fixed size it is the size of the descriptors
      that were executed, modulo 2^64. With flexible sizes it stays 0. So, as long as no 2^64 bytes have
      been copied, it is right exactly if the size is fixed or nothing has been copied yet. */
  lemma {:induction false} ProducedExact(p: Params, m: Mapping, ds: seq<Descriptor>, h: seq<nat>, k: nat)
    requires WellFormed(m) && Accepted(p, m) && Compilable(p, m) && IsGenerated(p, m, ds)
    requires Followed(h, |ds|, k)
    ensures var x, produced := PositionBefore(h, k), Produced(p, h, |ds|, k);
      && (p.bytesPerDescriptor > 0 ==> produced == W64(Completed(ds, x)))
      && (p.bytesPerDescriptor == 0 ==> produced == 0)
      && (Completed(ds, x) < TWO64 ==> (produced == Completed(ds, x) <==> p.bytesPerDescriptor > 0 || x == 0))
  {
    RingBytes(p, m, ds);
    GeneratedLengths(p, m, ds);
    if p.bytesPerDescriptor > 0 {
      GeneratedSizes(p, m, ds);
    }
    ProducedOf(p, ds, h, k);
  }

  lemma {:induction false} ProducedOf(p: Params, ds: seq<Descriptor>, h: seq<nat>, k: nat)
    requires Followed(h, |ds|, k) && Bytes(p.bytesPerDescriptor, |ds|) < TWO32
    requires forall i | 0 <= i < |ds| :: ds[i].length > 0
    requires p.bytesPerDescriptor > 0 ==> forall i | 0 <= i < |ds| :: ds[i].length == p.bytesPerDescriptor
    ensures var x, produced := PositionBefore(h, k), Produced(p, h, |ds|, k);
      && (p.bytesPerDescriptor > 0 ==> produced == W64(Completed(ds, x)))
      && (p.bytesPerDescriptor == 0 ==> produced == 0)
      && (Completed(ds, x) < TWO64 ==> (produced == Completed(ds, x) <==> p.bytesPerDescriptor > 0 || x == 0))
  {
    var x, b := PositionBefore(h, k), p.bytesPerDescriptor;
    ProducedPerDescriptor(h, |ds|, b, k);
    CompletedBytes(ds, b, x);
    NothingCompleted(ds);
    RightExactly(Produced(p, h, |ds|, k), Completed(ds, x), b, x);
  }

  lemma {:induction false} NothingCompleted(ds: seq<Descriptor>)
    requires |ds| > 0
    ensures Completed(ds, 0) == 0
  {
  }

  lemma {:induction false} RightExactly(produced: u64, done: nat, b: nat, x: nat)
    requires produced == W64(Bytes(b, x)) && (b > 0 ==> done == Bytes(b, x)) && (done > 0 <==> x > 0)
    ensures b > 0 ==> produced == W64(done)
    ensures b == 0 ==> produced == 0
    ensures done < TWO64 ==> (produced == done <==> b > 0 || x == 0)
  {
    if done < TWO64 {
      W64Fits(done);
    }
    if b == 0 {
      assert Bytes(b, x) == 0;
    }
  }

  /** After this history the hardware has completed data of which the counter says nothing. */
  ghost predicate Silent(p: Params, ds: seq<Descriptor>, h: seq<nat>) {
    Followed(h, |ds|, |h|) && Completed(ds, PositionBefore(h, |h|)) > 0 && Produced(p, h, |ds|, |h|) == 0
  }

  /** An accepted stream of flexible sizes whose reader never learns of its data, and the history in
      which the hardware executes its first descriptor. */
  lemma {:induction false} FlexibleStreamSilent() returns (p: Params, m: Mapping, ds: seq<Descriptor>)
    ensures Accepted(p, m) && p.transferMode == MODE_STREAM && IsGenerated(p, m, ds) && |ds| == 3
    ensures Silent(p, ds, [1])
  {
    p, m := Irq.UNEVEN_RING, Irq.UNEVEN;
    Irq.UnevenPlan();
    Irq.UnevenAccepted();
    ds := SilentRing(p, m);
  }

  lemma {:induction false} SilentRing(p: Params, m: Mapping) returns (ds: seq<Descriptor>)
    requires WellFormed(m) && Accepted(p, m) && Compilable(p, m)
    requires p.bytesPerDescriptor == 0 && 1 < PlannedCount(p, m) <= TWO16
    ensures IsGenerated(p, m, ds) && |ds| == PlannedCount(p, m) && Silent(p, ds, [1])
  {
    ds := Transfers.CompiledList(p, m);
    Transfers.CompiledGenerated(p, m);
    CompilableChunks(p, m);
    OneStep([1], |ds|);
    ProducedExact(p, m, ds, [1], 1);
    GeneratedLengths(p, m, ds);
    CompletedBytes(ds, 0, 1);
  }

  lemma {:induction false} OneStep(h: seq<nat>, n: nat)
    requires h == [1] && 1 < n <= TWO16
    ensures Followed(h, n, |h|) && PositionBefore(h, |h|) == 1
  {
    assert MonotoneAt(h, 0) && ShortStep(h, 0, n);
  }

  // ----- What is synchronised -------------------------------------------------------------------------

  /** All that the first k interrupts have synchronised. */
  function SyncedUpTo(ds: seq<Descriptor>, idx: seq<nat>, k: nat): seq<int>
    requires |ds| > 0 && InRing(idx, |ds|) && k <= |idx|
  {
    if k == 0 then []
    else
      var from := IndexBefore(idx, k - 1);
      SyncedUpTo(ds, idx, k - 1) + SyncedBytes(ds, Synced(from, Advance(from, idx[k - 1], |ds|), |ds|))
  }

  /** Whatever the hardware reports, what has been synchronised are the bytes of the stream that the
      counter has announced, in order and each once. */
  lemma {:induction false} AnnouncedIsSynced(p: Params, m: Mapping, ds: seq<Descriptor>, idx: seq<nat>, k: nat)
    requires p.channel < NUM_CHANNELS && Compilable(p, m) && IsGenerated(p, m, ds) && |ds| > 0
    requires p.bytesPerDescriptor > 0 && p.direction == FROM_DEVICE && InRing(idx, |ds|) && k <= |idx|
    ensures var b, n, u := p.bytesPerDescriptor, |ds|, Unwrapped(idx, k, |ds|);
      && u >= 0 && Bytes(b, n) > 0
      && SyncedUpTo(ds, idx, k) == StreamBytes(p, m, Bytes(b, n), 0, Bytes(b, u))
      && After(idx, k, n, b).produced == W64(|SyncedUpTo(ds, idx, k)|)
  {
    SyncedSoFar(p, m, ds, idx, k);
    RingBytes(p, m, ds);
    ProducedInvariant(idx, k, |ds|, p.bytesPerDescriptor);
  }

  lemma {:induction false} SyncedSoFar(p: Params, m: Mapping, ds: seq<Descriptor>, idx: seq<nat>, k: nat)
    requires p.channel < NUM_CHANNELS && Compilable(p, m) && IsGenerated(p, m, ds) && |ds| > 0
    requires p.bytesPerDescriptor > 0 && p.direction == FROM_DEVICE && InRing(idx, |ds|) && k <= |idx|
    ensures var b, n, u := p.bytesPerDescriptor, |ds|, Unwrapped(idx, k, |ds|);
      && u >= 0 && Bytes(b, n) > 0
      && SyncedUpTo(ds, idx, k) == StreamBytes(p, m, Bytes(b, n), 0, Bytes(b, u))
  {
    var b, n := p.bytesPerDescriptor, |ds|;
    if k == 0 {
      OneSynced(p, m, ds, 0);
      NoStreamBytes(p, m, b, Bytes(b, n));
    } else {
      SyncedSoFar(p, m, ds, idx, k - 1);
      SyncedStep(ds, idx, k);
      NextSynced(p, m, ds, Unwrapped(idx, k - 1, n), Unwrapped(idx, k, n));
    }
  }

  lemma {:induction false} NoStreamBytes(p: Params, m: Mapping, b: nat, ring: nat)
    requires ring > 0
    ensures StreamBytes(p, m, ring, 0, Bytes(b, 0)) == []
  {
    BytesOne(b);
  }

  /** What interrupt k adds, in terms of the positions accounted for. */
  lemma {:induction false} SyncedStep(ds: seq<Descriptor>, idx: seq<nat>, k: nat)
    requires |ds| > 0 && InRing(idx, |ds|) && 0 < k <= |idx|
    ensures var u, v := Unwrapped(idx, k - 1, |ds|), Unwrapped(idx, k, |ds|);
      && 0 <= u <= v
      && SyncedUpTo(ds, idx, k) == SyncedUpTo(ds, idx, k - 1) + SyncedBytes(ds, Synced(u % |ds|, v - u, |ds|))
  {
    PositionInvariant(idx, k - 1, |ds|, 0);
    AdvanceLands(Unwrapped(idx, k - 1, |ds|), IndexBefore(idx, k - 1), idx[k - 1], |ds|);
  }

  /** The bytes of the stream up to descriptor u, and those that accounting for it up to v adds. */
  lemma {:induction false} NextSynced(p: Params, m: Mapping, ds: seq<Descriptor>, u: nat, v: nat)
    requires p.channel < NUM_CHANNELS && Compilable(p, m) && IsGenerated(p, m, ds) && |ds| > 0
    requires p.bytesPerDescriptor > 0 && p.direction == FROM_DEVICE && u <= v
    ensures var b, n := p.bytesPerDescriptor, |ds|;
      && Bytes(b, n) > 0
      && StreamBytes(p, m, Bytes(b, n), 0, Bytes(b, u)) + SyncedBytes(ds, Synced(u % n, v - u, n))
         == StreamBytes(p, m, Bytes(b, n), 0, Bytes(b, v))
  {
    var b, n, count := p.bytesPerDescriptor, |ds|, v - u;
    SyncCoversNewData(p, m, ds, u, count);
    BytesAdd(b, u, count);
    StreamBytesAppend(p, m, Bytes(b, n), 0, Bytes(b, u), Bytes(b, count));
  }

  // ----- What is copied ---------------------------------------------------------------------------------

  /** The moves go to these addresses, in order. */
  ghost predicate GoTo(mvs: seq<Move>, addrs: seq<int>) {
    |mvs| == |addrs| && forall j | 0 <= j < |mvs| :: mvs[j].dst == Host(addrs[j])
  }

  lemma {:induction false} GoToAppend(a: seq<Move>, b: seq<Move>, x: seq<int>, y: seq<int>)
    requires GoTo(a, x) && GoTo(b, y)
    ensures GoTo(a + b, x + y)
  {
  }

  lemma {:induction false} OneGoesTo(regs: seq<RegPair>, ch: ChannelInfo, d: Descriptor, w: Descriptor, slot: int,
                                     taken: nat)
    requires |regs| == SLOTS && SameMoves(d, w, slot) && BytesResolve(regs, d.WriteAddr(), slot, d.length)
    ensures GoTo(ListMoves(Resolver(regs), FROM_DEVICE, ch, [w], taken), DescBytes(d))
  {
    var mvs := DescMoves(Resolver(regs), FROM_DEVICE, ch, w, taken);
    MovesCons(Resolver(regs), ch, [w], taken);
    assert [w][1..] == [];
    assert ListMoves(Resolver(regs), FROM_DEVICE, ch, [w], taken) == mvs + [] == mvs;
    forall j | 0 <= j < |mvs| ensures mvs[j].dst == Host(DescBytes(d)[j]) {
      assert mvs[j] == DescMove(Resolver(regs), FROM_DEVICE, ch, w, taken, j);
      assert ByteResolves(regs, d.WriteAddr(), slot, j);
    }
  }

  /** The first x steps around a ring that resolves go to the bytes of the first x descriptors. */
  lemma {:induction false} RingGoesTo(regs: seq<RegPair>, ch: ChannelInfo, ds: seq<Descriptor>, slots: seq<int>,
                                      list: seq<Descriptor>, x: nat)
    requires |regs| == SLOTS && |slots| == |ds| == |list| > 0 && ResolvesAll(regs, ds, slots)
    requires forall k | 0 <= k < |ds| :: SameMoves(ds[k], list[k], slots[k])
    ensures GoTo(ListMoves(Resolver(regs), FROM_DEVICE, ch, Around(list, 0, x), 0),
                 SyncedBytes(ds, Synced(0, x, |ds|)))
  {
    if x > 0 {
      var before, i := Around(list, 0, x - 1), (x - 1) % |ds|;
      RingGoesTo(regs, ch, ds, slots, list, x - 1);
      AroundSnoc(list, x - 1);
      MovesAppend(Resolver(regs), ch, before, [list[i]], 0);
      assert SameMoves(ds[i], list[i], slots[i]);
      OneGoesTo(regs, ch, ds[i], list[i], slots[i], TotalLength(before));
      SyncedSnoc(ds, x);
      GoToAppend(ListMoves(Resolver(regs), FROM_DEVICE, ch, before, 0),
                 ListMoves(Resolver(regs), FROM_DEVICE, ch, [list[i]], TotalLength(before)),
                 SyncedBytes(ds, Synced(0, x - 1, |ds|)), DescBytes(ds[i]));
    }
  }

  lemma {:induction false} SyncedSnoc(ds: seq<Descriptor>, x: nat)
    requires |ds| > 0 && x > 0
    ensures SyncedBytes(ds, Synced(0, x, |ds|))
            == SyncedBytes(ds, Synced(0, x - 1, |ds|)) + DescBytes(ds[(x - 1) % |ds|])
  {
    SmallMod(0, |ds|);
    LastSynced(ds, 0, x);
  }

  /** Streaming, from the hardware to the reader. In a fixed-size stream whose data and list pass their
      tests, whatever lies around the list, and at every interrupt of a history that can be followed:
      the counter is the number of bytes that the hardware has copied, modulo 2^64, and the places that
      the interrupts have synchronised are the ones that it has copied to, in order and each once. */
  lemma {:induction false} ReaderSeesStream(f: Flight, mem: Memory, h: seq<nat>, k: nat)
    requires f.Valid() && f.NoZeroPage() && f.p.transferMode == MODE_STREAM && f.p.bytesPerDescriptor > 0
    requires |f.Slots()| == |f.ds| && f.Safe() && f.ListContained() && HoldsList(mem, f.bus, f.list)
    requires Followed(h, |f.ds|, k)
    ensures InRing(Indices(h, |f.ds|), |f.ds|)
    ensures var copied := f.Copied(mem, PositionBefore(h, k), 0);
      && Produced(f.p, h, |f.ds|, k) == W64(|copied|)
      && GoTo(copied, SyncedUpTo(f.ds, Indices(h, |f.ds|), k))
  {
    var x, n := PositionBefore(h, k), |f.ds|;
    ListShape(f);
    ListReadExact(f);
    ResolutionExact(f);
    RingWalk(f.regs, mem, f.bus, f.list, f.start, 0, x);
    assert DescAddr(f.start, 0) == f.start;
    RingGoesTo(f.regs, ChannelTable(f.p.channel), f.ds, f.Slots(), f.list, x);
    TrackedIsSynced(f.p, f.m, f.ds, h, k);
  }

  lemma {:induction false} TrackedIsSynced(p: Params, m: Mapping, ds: seq<Descriptor>, h: seq<nat>, k: nat)
    requires p.channel < NUM_CHANNELS && Compilable(p, m) && IsGenerated(p, m, ds)
    requires p.bytesPerDescriptor > 0 && p.direction == FROM_DEVICE && Followed(h, |ds|, k)
    ensures InRing(Indices(h, |ds|), |ds|)
    ensures var synced := SyncedUpTo(ds, Indices(h, |ds|), k);
      synced == SyncedBytes(ds, Synced(0, PositionBefore(h, k), |ds|)) && Produced(p, h, |ds|, k) == W64(|synced|)
  {
    var n, x := |ds|, PositionBefore(h, k);
    IndicesInRing(h, n);
    TrackingExact(h, n);
    AnnouncedIsSynced(p, m, ds, Indices(h, n), k);
    SmallMod(0, n);
    SyncCoversNewData(p, m, ds, 0, x);
    assert Bytes(p.bytesPerDescriptor, 0) == 0;
  }
}
