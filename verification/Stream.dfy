/** The streaming producer: the interrupt handler that unwraps the hardware's 16-bit sequence
    number into a byte counter and synchronises the new data for the CPU. */
module Stream {
  import opened Words
  import opened Bits
  import opened Descriptors
  import opened Window
  import opened Meaning
  import opened Generator

  // ----- The handler as a function ---------------------------------------------------------------

  /** num_desc_mask: n - 1 when n is a power of two, else 0. */
  function RingMask(n: u32): u32 {
    if IsPowerOf2(n) then n - 1 else 0
  }

  /** The ring index behind the upper half of the sequence number register. */
  function Decode(hi: nat, n: nat, mask: u32): nat
    requires n > 0
  {
    if mask != 0 then And(hi, mask) else hi % n
  }

  /** The mask is there exactly for powers of two, and for more than one descriptor. */
  lemma {:induction false} RingMaskExact(n: u32)
    requires n > 0
    ensures RingMask(n) == n - 1 <==> exists k: nat :: n == Pow2(k)
    ensures RingMask(n) != n - 1 ==> RingMask(n) == 0
  {
    if IsPowerOf2(n) {
      var k := PowerOfTwoExponent(n);
      assert n == Pow2(k);
    }
    forall k: nat | n == Pow2(k) ensures IsPowerOf2(n) {
      PowersOfTwo(k);
    }
    assert Pow2(0) == 1;
  }

  /** Masking and division agree: for a power of two, where the mask is used, and for n = 1, where
      the mask is 0 and the division takes over. */
  lemma {:induction false} DecodeIsModulo(hi: nat, n: u32)
    requires n > 0
    ensures Decode(hi, n, RingMask(n)) == hi % n
  {
    if IsPowerOf2(n) && n > 1 {
      var k := PowerOfTwoExponent(n);
      AndLowMask(hi, k);
    }
  }

  /** Counters of a stream: write_seq_num, produced, irq_cnt. */
  datatype Counters = Counters(writeSeq: int, produced: u64, irqCnt: nat)

  const START := Counters(0, 0, 0)

  /** How far the ring index moved forward, around the ring. */
  function Advance(from: int, next: int, n: nat): int {
    if next < from then next - from + n else next - from
  }

  /** One interrupt with ring index next, on a ring of n descriptors of b bytes. */
  function Interrupt(s: Counters, next: nat, n: nat, b: u32): Counters {
    Counters(next, W64(s.produced + W32(b * Advance(s.writeSeq, next, n))), s.irqCnt + 1)
  }

  /** The ring indices that an interrupt synchronises. */
  function Synced(from: nat, count: nat, n: nat): (s: seq<nat>)
    requires n > 0
    ensures |s| == count
  {
    seq(count, i requires 0 <= i => (from + i) % n)
  }

  /** internal_dma_stream_info with the shared state page. */
  class StreamInfo {
    var counters: Counters
    var numDescMask: u32

    /** The counter part of tpce_init_stream_info, for a list of n descriptors. */
    constructor (n: u32)
      ensures counters == START && numDescMask == RingMask(n)
    {
      counters := START;
      numDescMask := RingMask(n);
    }

    /** dma_stream_irq_handler after it has read the register. The guard against an invalid
        advance never fires, and the descriptors synchronised are exactly the ones from the old
        index up to the next one, around the ring. */
    method HandleIrq(seqNums: u32, bytesPerDesc: u32, n: nat) returns (synced: seq<nat>, rejected: bool)
      requires 0 < n < 0x8000_0000 && numDescMask == RingMask(n)
      requires 0 <= counters.writeSeq < n
      modifies this`counters
      ensures !rejected
      ensures var next := (seqNums / 0x1_0000) % n;
        && counters == Interrupt(old(counters), next, n, bytesPerDesc)
        && 0 <= counters.writeSeq < n
        && synced == Synced(old(counters).writeSeq, Advance(old(counters).writeSeq, next, n), n)
    {
      rejected := false;
      synced := [];
      DecodeIsModulo(seqNums / 0x1_0000, n);
      var writeSeq := counters.writeSeq;
      var newWriteSeq := Decode(seqNums / 0x1_0000, n, numDescMask);
      var numProcessed := newWriteSeq - writeSeq;
      if newWriteSeq < writeSeq {
        numProcessed := numProcessed + n;
      }
      var newProduced := W64(counters.produced + W32(bytesPerDesc * numProcessed));
      var newIrqCnt := counters.irqCnt + 1;
      if numProcessed < 0 || numProcessed > n {
        rejected := true;
        return;
      }
      synced := SyncRange(writeSeq, numProcessed, n);
      counters := Counters(newWriteSeq, newProduced, newIrqCnt);
    }
  }

  /** The bounded loop of the handler: count descriptors from ring index writeSeq on. */
  method SyncRange(writeSeq: nat, count: nat, n: nat) returns (synced: seq<nat>)
    requires writeSeq < n
    ensures synced == Synced(writeSeq, count, n)
  {
    synced := [];
    var i := writeSeq;
    SmallMod(i, n);
    var k := 0;
    while k < count
      invariant 0 <= k <= count && 0 <= i < n && i == (writeSeq + k) % n
      invariant synced == Synced(writeSeq, k, n)
    {
      synced := synced + [i];
      NextIndex(writeSeq + k, n);
      i := i + 1;
      if i == n {
        i := 0;
      }
      k := k + 1;
    }
  }

  lemma {:induction false} NextIndex(x: nat, n: nat)
    requires n > 0
    ensures (x + 1) % n == if x % n + 1 == n then 0 else x % n + 1
  {
    var q, r := x / n, x % n;
    assert x == q * n + r;
    if r + 1 == n {
      DivModUnique(x + 1, q + 1, 0, n);
    } else {
      DivModUnique(x + 1, q, r + 1, n);
    }
  }

  /** The synchronised indices lie in the ring and no descriptor is synchronised twice. */
  lemma {:induction false} SyncedDistinct(from: nat, count: nat, n: nat)
    requires n > 0 && count <= n
    ensures forall i | 0 <= i < count :: Synced(from, count, n)[i] < n
    ensures forall i, j | 0 <= i < j < count :: Synced(from, count, n)[i] != Synced(from, count, n)[j]
  {
    forall i, j | 0 <= i < j < count
      ensures Synced(from, count, n)[i] != Synced(from, count, n)[j]
    {
      DifferentIndex(from + i, j - i, n);
      assert from + i + (j - i) == from + j;
    }
  }

  lemma {:induction false} DifferentIndex(x: nat, d: nat, n: nat)
    requires 0 < d < n
    ensures (x + d) % n != x % n
  {
    var q, r := x / n, x % n;
    assert x == q * n + r;
    if r + d < n {
      DivModUnique(x + d, q, r + d, n);
    } else {
      DivModUnique(x + d, q + 1, r + d - n, n);
    }
  }

  // ----- All runs ----------------------------------------------------------------------------------

  /** The counters after k interrupts whose ring indices were idx. */
  function After(idx: seq<nat>, k: nat, n: nat, b: u32): Counters
    requires k <= |idx|
  {
    if k == 0 then START else Interrupt(After(idx, k - 1, n, b), idx[k - 1], n, b)
  }

  function IndexBefore(idx: seq<nat>, k: nat): nat
    requires k <= |idx|
  {
    if k == 0 then 0 else idx[k - 1]
  }

  /** The unwrapped position that the handler accounts for. */
  function Unwrapped(idx: seq<nat>, k: nat, n: nat): int
    requires k <= |idx|
  {
    if k == 0 then 0 else Unwrapped(idx, k - 1, n) + Advance(IndexBefore(idx, k - 1), idx[k - 1], n)
  }

  ghost predicate InRing(idx: seq<nat>, n: nat) {
    forall k | 0 <= k < |idx| :: idx[k] < n
  }

  lemma {:induction false} WrapSum(x: nat, y: nat)
    ensures W64(W64(x) + y) == W64(x + y)
  {
  }

  /** In every reachable state, whatever the hardware reports: the index lies in the ring and is
      the unwrapped position modulo n. */
  lemma {:induction false} PositionInvariant(idx: seq<nat>, k: nat, n: nat, b: u32)
    requires n > 0 && k <= |idx| && InRing(idx, n)
    ensures var s, u := After(idx, k, n, b), Unwrapped(idx, k, n);
      0 <= s.writeSeq == IndexBefore(idx, k) < n && s.irqCnt == k && 0 <= u && u % n == s.writeSeq
  {
    if k == 0 {
      SmallMod(0, n);
    } else {
      PositionInvariant(idx, k - 1, n, b);
      AdvanceLands(Unwrapped(idx, k - 1, n), IndexBefore(idx, k - 1), idx[k - 1], n);
    }
  }

  /** ... and the counter is the size of that many descriptors, modulo its 64 bits. */
  lemma {:induction false} ProducedInvariant(idx: seq<nat>, k: nat, n: nat, b: u32)
    requires n > 0 && k <= |idx| && InRing(idx, n) && Bytes(b, n) < TWO32
    ensures 0 <= Unwrapped(idx, k, n)
    ensures After(idx, k, n, b).produced == W64(Bytes(b, Unwrapped(idx, k, n)))
  {
    if k > 0 {
      ProducedInvariant(idx, k - 1, n, b);
      PositionInvariant(idx, k - 1, n, b);
      var s0, u0 := After(idx, k - 1, n, b), Unwrapped(idx, k - 1, n);
      AdvanceLands(u0, s0.writeSeq, idx[k - 1], n);
      ProducedStep(s0.produced, b, u0, Advance(s0.writeSeq, idx[k - 1], n), n);
    }
  }

  lemma {:induction false} ProducedStep(produced: u64, b: u32, u: nat, d: nat, n: nat)
    requires produced == W64(Bytes(b, u)) && d <= n && Bytes(b, n) < TWO32
    ensures W64(produced + W32(b * d)) == W64(Bytes(b, u + d))
  {
    BytesMono(b, d, n);
    assert W32(b * d) == Bytes(b, d);
    WrapSum(Bytes(b, u), Bytes(b, d));
    BytesAdd(b, u, d);
  }

  /** Hence, as long as it has not wrapped, the counter is congruent to b times the index modulo
      the size of the ring. */
  lemma {:induction false} ProducedCongruent(idx: seq<nat>, k: nat, n: nat, b: u32)
    requires n > 0 && b > 0 && k <= |idx| && InRing(idx, n) && Bytes(b, n) < TWO32
    requires 0 <= Unwrapped(idx, k, n) && Bytes(b, Unwrapped(idx, k, n)) < TWO64
    ensures var s := After(idx, k, n, b);
      s.writeSeq >= 0 && Bytes(b, n) > 0 && s.produced % Bytes(b, n) == Bytes(b, s.writeSeq)
  {
    PositionInvariant(idx, k, n, b);
    ProducedInvariant(idx, k, n, b);
    W64Fits(Bytes(b, Unwrapped(idx, k, n)));
    BytesModulo(b, n, Unwrapped(idx, k, n));
  }

  /** The counter modulo the size of the ring is the place of the index. */
  predicate Congruent(s: Counters, n: nat, b: nat) {
    s.writeSeq >= 0 && Bytes(b, n) > 0 && s.produced % Bytes(b, n) == Bytes(b, s.writeSeq)
  }

  /** Across the wrap of the 64-bit counter, exactly: on a ring of more than one descriptor this holds in
      every reachable state if and only if the size of the ring divides 2^64. */
  lemma {:induction false} CongruentAlwaysExact(n: nat, b: u32)
    requires n > 1 && b > 0 && Bytes(b, n) < TWO32
    ensures Bytes(b, n) > 0
    ensures (forall idx, k | InRing(idx, n) && 0 <= k <= |idx| :: Congruent(After(idx, k, n, b), n, b))
            <==> TWO64 % Bytes(b, n) == 0
  {
    BytesModulo(b, n, 0);
    if TWO64 % Bytes(b, n) == 0 {
      forall idx, k | InRing(idx, n) && 0 <= k <= |idx| ensures Congruent(After(idx, k, n, b), n, b) {
        PositionInvariant(idx, k, n, b);
        ProducedInvariant(idx, k, n, b);
        BytesModulo(b, n, Unwrapped(idx, k, n));
        WrapModulo(Bytes(b, Unwrapped(idx, k, n)), Bytes(b, n));
      }
    } else {
      WrapLoses(n, b);
    }
  }

  lemma {:induction false} WrapModulo(x: nat, ring: nat)
    requires ring > 0 && TWO64 % ring == 0
    ensures W64(x) % ring == x % ring
  {
    var q := x / TWO64;
    assert x == q * TWO64 + W64(x);
    var m := TWO64 / ring;
    assert TWO64 == m * ring && q * (m * ring) == (q * m) * ring;
    AddMultiple(W64(x), q * m, ring);
  }

  /** The indices of a hardware that moves one descriptor at a time. */
  function Counting(u: nat, n: nat): (idx: seq<nat>)
    requires n > 0
    ensures |idx| == u && InRing(idx, n)
  {
    seq(u, i requires 0 <= i => (i + 1) % n)
  }

  lemma {:induction false} CountingUnwraps(u: nat, n: nat, k: nat)
    requires n > 1 && k <= u
    ensures Unwrapped(Counting(u, n), k, n) == k
  {
    if k > 0 {
      CountingUnwraps(u, n, k - 1);
      SmallMod(0, n);
      SmallMod(1, n);
      AdvanceOfPositions(k - 1, k, n);
    }
  }

  lemma {:induction false} WrapLoses(n: nat, b: u32)
    requires n > 1 && b > 0 && 0 < Bytes(b, n) < TWO32 && TWO64 % Bytes(b, n) != 0
    ensures var u := CeilDiv(TWO64, b); !Congruent(After(Counting(u, n), u, n, b), n, b)
  {
    var u, ring := CeilDiv(TWO64, b), Bytes(b, n);
    var idx := Counting(u, n);
    CountingUnwraps(u, n, u);
    PositionInvariant(idx, u, n, b);
    ProducedInvariant(idx, u, n, b);
    JustPast(b);
    var rest := Bytes(b, u) - TWO64;
    assert W64(Bytes(b, u)) == rest;
    BytesModulo(b, n, u);
    if rest % ring == (rest + TWO64) % ring {
      SameRemainder(rest, TWO64, ring);
    }
  }

  lemma {:induction false} JustPast(b: u32)
    requires b > 0
    ensures TWO64 <= Bytes(b, CeilDiv(TWO64, b)) < TWO64 + b
  {
    var x := TWO64 + b - 1;
    assert x == (x / b) * b + x % b;
  }

  lemma {:induction false} SameRemainder(x: nat, y: nat, d: nat)
    requires d > 0 && x % d == (x + y) % d
    ensures y % d == 0
  {
    var p, q := x / d, (x + y) / d;
    assert x == p * d + x % d && x + y == q * d + x % d;
    assert (q - p) * d == q * d - p * d;
    DivModUnique(y, q - p, 0, d);
  }

  lemma {:induction false} BytesModulo(b: nat, n: nat, u: nat)
    requires n > 0 && b > 0
    ensures Bytes(b, n) > 0 && Bytes(b, u) % Bytes(b, n) == Bytes(b, u % n)
  {
    var q, i := u / n, u % n;
    assert u == q * n + i;
    RingCongruence(b, n, q, i);
    BytesMono(b, i + 1, n);
    BytesAdd(b, i, 1);
    assert Bytes(b, 1) == b;
    DivModUnique(Bytes(b, u), q, Bytes(b, i), Bytes(b, n));
  }

  lemma {:induction false} RingCongruence(b: nat, n: nat, q: nat, r: nat)
    ensures Bytes(b, q * n + r) == q * Bytes(b, n) + Bytes(b, r)
  {
    assert b * (q * n) == q * (b * n);
  }

  lemma {:induction false} AdvanceLands(u: nat, from: nat, next: nat, n: nat)
    requires n > 0 && from < n && next < n && u % n == from
    ensures 0 <= Advance(from, next, n) < n && (u + Advance(from, next, n)) % n == next
  {
    var q := u / n;
    assert u == q * n + from;
    if next < from {
      DivModUnique(u + next - from + n, q + 1, next, n);
    } else {
      DivModUnique(u + next - from, q, next, n);
    }
  }

  // ----- Against the true position of the hardware ----------------------------------------------------

  /** Descriptor i of the list is numbered with the low 16 bits of i. The numbers identify the
      descriptors of a ring exactly when it has at most 65536 of them. */
  lemma {:induction false} SequenceNumbersExact(n: nat)
    requires n > 0
    ensures (forall i | 0 <= i < n :: W16(i) % n == i) <==> n <= TWO16
  {
    if n <= TWO16 {
      forall i | 0 <= i < n ensures W16(i) % n == i {
        SmallMod(i, n);
      }
    } else {
      assert W16(TWO16) == 0;
      SmallMod(0, n);
      assert W16(TWO16) % n != TWO16;
    }
  }

  /** Monotone true positions of the hardware, counted in descriptors from the start. */
  ghost predicate Positions(h: seq<nat>) {
    forall k | 0 <= k < |h| :: MonotoneAt(h, k)
  }

  predicate MonotoneAt(h: seq<nat>, k: nat)
    requires k < |h|
  {
    PositionBefore(h, k) <= h[k]
  }

  function PositionBefore(h: seq<nat>, k: nat): nat
    requires k <= |h|
  {
    if k == 0 then 0 else h[k - 1]
  }

  /** The upper half of the register when the hardware is at position x: the number of the ring
      descriptor there. */
  function SequenceNumber(x: nat, n: nat): u16
    requires n > 0
  {
    W16(x % n)
  }

  /** It is the number that the generator wrote into that descriptor. */
  lemma {:induction false} GeneratedNumber(p: Params, m: Mapping, ds: seq<Descriptor>, x: nat)
    requires p.channel < NUM_CHANNELS && IsGenerated(p, m, ds) && |ds| > 0
    ensures ds[x % |ds|].sequence == SequenceNumber(x, |ds|)
  {
    var cs := WindowChunks(m.sgl, p.mapOffset, p.bytesTotal, Step(p));
    assert Dressed(p, ds[x % |ds|], x % |ds|, |cs|);
  }

  /** The ring indices that the handler decodes along a history of the hardware. */
  function Indices(h: seq<nat>, n: u32): (idx: seq<nat>)
    requires n > 0
    ensures |idx| == |h|
    ensures forall k | 0 <= k < |h| :: idx[k] == Decode(SequenceNumber(h[k], n), n, RingMask(n))
  {
    seq(|h|, k requires 0 <= k < |h| => Decode(SequenceNumber(h[k], n), n, RingMask(n)))
  }

  lemma {:induction false} IndicesInRing(h: seq<nat>, n: u32)
    requires n > 0
    ensures InRing(Indices(h, n), n)
    ensures n <= TWO16 ==> forall k | 0 <= k < |h| :: Indices(h, n)[k] == h[k] % n
  {
    forall k | 0 <= k < |h|
      ensures Indices(h, n)[k] < n && (n <= TWO16 ==> Indices(h, n)[k] == h[k] % n)
    {
      DecodeIsModulo(SequenceNumber(h[k], n), n);
      if n <= TWO16 {
        SmallMod(h[k] % n, TWO16);
        SmallMod(h[k] % n, n);
      }
    }
  }

  /** Every step of the hardware up to interrupt k was shorter than the ring. */
  ghost predicate ShortSteps(h: seq<nat>, k: nat, n: nat)
    requires k <= |h|
  {
    forall j | 0 <= j < k :: ShortStep(h, j, n)
  }

  predicate ShortStep(h: seq<nat>, j: nat, n: nat)
    requires j < |h|
  {
    h[j] - PositionBefore(h, j) < n
  }

  lemma {:induction false} AdvanceOfPositions(a: nat, b: nat, n: nat)
    requires n > 0 && a <= b
    ensures Advance(a % n, b % n, n) == (b - a) % n
    ensures (b - a) % n <= b - a
    ensures (b - a) % n == b - a <==> b - a < n
  {
    var d := b - a;
    AdvanceLands(a, a % n, b % n, n);
    var v := Advance(a % n, b % n, n);
    var q, r := d / n, d % n;
    assert d == q * n + r;
    DivLe(d, n);
    // a + r and a + v leave the same remainder, and both r and v are below n
    AddMultiple(a + r, q, n);
    assert a + r + q * n == b;
    if r < v {
      DifferentIndex(a + r, v - r, n);
    } else if v < r {
      DifferentIndex(a + v, r - v, n);
    }
    if d < n {
      SmallMod(d, n);
    }
  }

  /** The position accounted for is the true one at every interrupt of the history. */
  ghost predicate Tracked(h: seq<nat>, n: u32)
    requires n > 0
  {
    forall k | 0 <= k <= |h| :: Unwrapped(Indices(h, n), k, n) == PositionBefore(h, k)
  }

  /** The counter follows the hardware, exactly. On a ring of at most 65536 descriptors the position
      accounted for is the true one at every interrupt of a history if and only if the hardware
      never moved a whole ring or more between two interrupts. */
  lemma {:induction false} TrackingExact(h: seq<nat>, n: u32)
    requires 0 < n <= TWO16 && Positions(h)
    ensures Tracked(h, n) <==> ShortSteps(h, |h|, n)
  {
    if ShortSteps(h, |h|, n) {
      forall k | 0 <= k <= |h| ensures Unwrapped(Indices(h, n), k, n) == PositionBefore(h, k) {
        TrackingUpTo(h, n, k);
      }
    } else {
      var k :| 0 <= k < |h| && !ShortStep(h, k, n);
      LongStepLost(h, n, k);
      assert !(Unwrapped(Indices(h, n), k, n) == PositionBefore(h, k)
               && Unwrapped(Indices(h, n), k + 1, n) == PositionBefore(h, k + 1));
    }
  }

  /** Which rings can be followed at all: every history with short steps is tracked if and only if
      the ring has at most 65536 descriptors. */
  lemma {:induction false} TrackableExact(n: u32)
    requires n > 0
    ensures (forall h | Positions(h) && ShortSteps(h, |h|, n) :: Tracked(h, n)) <==> n <= TWO16
  {
    if n <= TWO16 {
      forall h | Positions(h) && ShortSteps(h, |h|, n) ensures Tracked(h, n) {
        TrackingExact(h, n);
      }
    } else {
      TruncatedNumberLost(n);
    }
  }

  /** On a longer ring the step onto descriptor 65536 is lost: its number is 0. */
  lemma {:induction false} TruncatedNumberLost(n: u32)
    requires n > TWO16
    ensures Positions([TWO16]) && ShortSteps([TWO16], 1, n) && !Tracked([TWO16], n)
  {
    var h := [TWO16];
    assert MonotoneAt(h, 0) && ShortStep(h, 0, n);
    SmallMod(TWO16, n);
    assert SequenceNumber(TWO16, n) == 0;
    DecodeIsModulo(0, n);
    SmallMod(0, n);
    assert Indices(h, n)[0] == 0 && Unwrapped(Indices(h, n), 0, n) == 0;
    assert Unwrapped(Indices(h, n), 1, n) == 0 && PositionBefore(h, 1) == TWO16;
  }

  /** A step of a whole ring or more is not accounted for in full. */
  lemma {:induction false} LongStepLost(h: seq<nat>, n: u32, k: nat)
    requires 0 < n <= TWO16 && Positions(h) && k < |h| && !ShortStep(h, k, n)
    ensures Unwrapped(Indices(h, n), k + 1, n) - Unwrapped(Indices(h, n), k, n)
            < PositionBefore(h, k + 1) - PositionBefore(h, k)
  {
    IndicesInRing(h, n);
    SmallMod(0, n);
    assert MonotoneAt(h, k);
    AdvanceOfPositions(PositionBefore(h, k), h[k], n);
  }

  lemma {:induction false} TrackingUpTo(h: seq<nat>, n: u32, k: nat)
    requires 0 < n <= TWO16 && Positions(h) && k <= |h| && ShortSteps(h, |h|, n)
    ensures Unwrapped(Indices(h, n), k, n) == PositionBefore(h, k)
  {
    if k > 0 {
      TrackingUpTo(h, n, k - 1);
      IndicesInRing(h, n);
      SmallMod(0, n);
      assert ShortStep(h, k - 1, n) && MonotoneAt(h, k - 1);
      AdvanceOfPositions(PositionBefore(h, k - 1), h[k - 1], n);
    }
  }

  /** So with short steps, produced is b bytes for every descriptor that the hardware completed. */
  lemma {:induction false} ProducedPerDescriptor(h: seq<nat>, n: u32, b: u32, k: nat)
    requires 0 < n <= TWO16 && Positions(h) && k <= |h| && ShortSteps(h, |h|, n) && Bytes(b, n) < TWO32
    ensures After(Indices(h, n), k, n, b).produced == W64(Bytes(b, PositionBefore(h, k)))
  {
    IndicesInRing(h, n);
    TrackingExact(h, n);
    ProducedInvariant(Indices(h, n), k, n, b);
  }
}
