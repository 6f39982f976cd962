/** The hardware's view of a published list: a prefetcher that follows the links through the
    programmed translation registers, and what it copies. */
module Walk {
  import opened Words
  import opened Descriptors
  import opened Window
  import opened Meaning
  import opened Generator
  import opened PageTable
  import opened Translate
  import opened Publish

  // ----- The hardware --------------------------------------------------------------------------

  /** The bus address behind a device-side address: 16 windows of 256 KiB; -1 outside them. */
  function Resolve(regs: seq<RegPair>, a: int): int
    requires |regs| == SLOTS
  {
    if 0 <= a < 0x40_0000 then RegBase(regs[a / 0x4_0000]) + a % 0x4_0000 else -1
  }

  function Resolver(regs: seq<RegPair>): int -> int
    requires |regs| == SLOTS
  {
    a => Resolve(regs, a)
  }

  /** What a reader of a descriptor finds at each bus address. */
  type Memory = int -> Descriptor

  /** The list lies in memory at bus; nothing is known of the rest. */
  ghost predicate HoldsList(mem: Memory, bus: u64, list: seq<Descriptor>) {
    forall k | 0 <= k < |list| :: mem(bus + DESC_BYTES * k) == list[k]
  }

  /** The first fuel descriptors that the prefetcher executes from ptr on, whatever it finds there.
      It stops at a descriptor that the hardware does not own. */
  function Prefetch(regs: seq<RegPair>, mem: Memory, ptr: nat, fuel: nat): seq<Descriptor>
    requires |regs| == SLOTS
    decreases fuel
  {
    if fuel == 0 then []
    else
      var d := mem(Resolve(regs, ptr));
      if !d.ownedByHw then [] else [d] + Prefetch(regs, mem, d.nextHigh * TWO32 + d.nextLow, fuel - 1)
  }

  // ----- Bytes through the registers ---------------------------------------------------------------

  /** The bytes of a descriptor stay inside one page of the translation table. */
  predicate WithinPage(a: nat, len: nat) {
    a % 0x4_0000 + len <= 0x4_0000
  }

  /** How many pages len bytes from a on touch. */
  function Spanned(a: nat, len: nat): nat {
    (a % 0x4_0000 + len + 0x3_FFFF) / 0x4_0000
  }

  /** Register slot + j selects the j-th page from that of a on. */
  predicate Selects(regs: seq<RegPair>, a: u64, slot: int, j: nat)
    requires |regs| == SLOTS
  {
    0 <= slot && slot + j < SLOTS && RegBase(regs[slot + j]) == PageBase(a) + j * 0x4_0000
  }

  /** From the one at slot on, the registers select the pages of len bytes at a, in order. */
  predicate Contiguous(regs: seq<RegPair>, a: u64, slot: int, len: nat)
    requires |regs| == SLOTS
  {
    forall j | 0 <= j < Spanned(a, len) :: Selects(regs, a, slot, j)
  }

  /** Byte j from address a, relocated to a slot, resolves to its original address. */
  predicate ByteResolves(regs: seq<RegPair>, a: u64, slot: int, j: nat)
    requires |regs| == SLOTS
  {
    Resolve(regs, SlotAddr(a, slot) + j) == a + j
  }

  ghost predicate BytesResolve(regs: seq<RegPair>, a: u64, slot: int, len: nat)
    requires |regs| == SLOTS
  {
    forall j | 0 <= j < len :: ByteResolves(regs, a, slot, j)
  }

  lemma {:induction false} ByteExact(regs: seq<RegPair>, a: u64, slot: nat, j: nat)
    requires |regs| == SLOTS && slot < SLOTS
    ensures ByteResolves(regs, a, slot, j) <==> Selects(regs, a, slot, (a % 0x4_0000 + j) / 0x4_0000)
  {
    var o := a % 0x4_0000 + j;
    var q, r := o / 0x4_0000, o % 0x4_0000;
    assert SlotAddr(a, slot) + j == (slot + q) * 0x4_0000 + r;
    DivModUnique(SlotAddr(a, slot) + j, slot + q, r, 0x4_0000);
  }

  /** The first byte at or after a that lies in the j-th page from that of a on. */
  function FirstIn(a: nat, j: nat): nat {
    if j == 0 then 0 else j * 0x4_0000 - a % 0x4_0000
  }

  lemma {:induction false} FirstInPage(a: nat, len: nat, j: nat)
    requires j < Spanned(a, len)
    ensures (a % 0x4_0000 + FirstIn(a, j)) / 0x4_0000 == j
    ensures len > 0 ==> FirstIn(a, j) < len
  {
  }

  /** A range of any length resolves to its original addresses exactly when the registers from its
      slot on select the pages that it touches, in order. */
  lemma {:induction false} CrossingExact(regs: seq<RegPair>, a: u64, len: nat, slot: nat)
    requires |regs| == SLOTS && slot < SLOTS && len > 0
    ensures BytesResolve(regs, a, slot, len) <==> Contiguous(regs, a, slot, len)
  {
    forall j: nat | j < len
      ensures (a % 0x4_0000 + j) / 0x4_0000 < Spanned(a, len)
      ensures ByteResolves(regs, a, slot, j) <==> Selects(regs, a, slot, (a % 0x4_0000 + j) / 0x4_0000)
    {
      ByteExact(regs, a, slot, j);
    }
    forall j | 0 <= j < Spanned(a, len)
      ensures FirstIn(a, j) < len && (ByteResolves(regs, a, slot, FirstIn(a, j)) <==> Selects(regs, a, slot, j))
    {
      FirstInPage(a, len, j);
      ByteExact(regs, a, slot, FirstIn(a, j));
    }
  }

  // ----- The list through the registers ---------------------------------------------------------------

  /** The prefetcher that looks for descriptor k reads it where it lies. */
  predicate Reaches(regs: seq<RegPair>, bus: u64, start: nat, k: nat)
    requires |regs| == SLOTS
  {
    Resolve(regs, DescAddr(start, k)) == bus + DESC_BYTES * k
  }

  ghost predicate ReachesAll(regs: seq<RegPair>, bus: u64, start: nat, n: nat)
    requires |regs| == SLOTS
  {
    forall k | 0 <= k < n :: Reaches(regs, bus, start, k)
  }

  /** All descriptors of a list are read where they lie exactly when the registers from the slot of
      the list on select its pages, in order. */
  lemma {:induction false} ReachesExact(regs: seq<RegPair>, bus: u64, slot: nat, n: nat)
    requires |regs| == SLOTS && slot < SLOTS && n > 0 && bus % DESC_BYTES == 0
    ensures ReachesAll(regs, bus, SlotAddr(bus, slot), n) <==> Contiguous(regs, bus, slot, DESC_BYTES * n)
  {
    var start, len := SlotAddr(bus, slot), DESC_BYTES * n;
    forall k: nat | k < n
      ensures PageOfDesc(bus, k) < Spanned(bus, len)
      ensures Reaches(regs, bus, start, k) <==> Selects(regs, bus, slot, PageOfDesc(bus, k))
    {
      ReachesOne(regs, bus, slot, n, k);
    }
    forall j | 0 <= j < Spanned(bus, len)
      ensures FirstIn(bus, j) / DESC_BYTES < n
      ensures Reaches(regs, bus, start, FirstIn(bus, j) / DESC_BYTES) <==> Selects(regs, bus, slot, j)
    {
      DescInPage(bus, n, j);
      ReachesOne(regs, bus, slot, n, FirstIn(bus, j) / DESC_BYTES);
    }
  }

  /** The page that descriptor k lies in, counted from that of the list. */
  function PageOfDesc(bus: nat, k: nat): nat {
    (bus % 0x4_0000 + DESC_BYTES * k) / 0x4_0000
  }

  lemma {:induction false} ReachesOne(regs: seq<RegPair>, bus: u64, slot: nat, n: nat, k: nat)
    requires |regs| == SLOTS && slot < SLOTS && k < n
    ensures PageOfDesc(bus, k) < Spanned(bus, DESC_BYTES * n)
    ensures Reaches(regs, bus, SlotAddr(bus, slot), k) <==> Selects(regs, bus, slot, PageOfDesc(bus, k))
  {
    ByteExact(regs, bus, slot, DESC_BYTES * k);
  }

  lemma {:induction false} DescInPage(bus: nat, n: nat, j: nat)
    requires n > 0 && bus % DESC_BYTES == 0 && j < Spanned(bus, DESC_BYTES * n)
    ensures FirstIn(bus, j) / DESC_BYTES < n && PageOfDesc(bus, FirstIn(bus, j) / DESC_BYTES) == j
  {
    FirstInPage(bus, DESC_BYTES * n, j);
    assert FirstIn(bus, j) % DESC_BYTES == 0;
  }

  // ----- Following the links ---------------------------------------------------------------------

  /** The hardware owns descriptor k, and it links to descriptor next. */
  predicate LinksTo(list: seq<Descriptor>, start: nat, k: nat, next: nat)
    requires k < |list|
  {
    list[k].ownedByHw && list[k].nextHigh == 0 && list[k].nextLow == DescAddr(start, next)
  }

  predicate LinksOn(list: seq<Descriptor>, start: nat, k: nat)
    requires k < |list|
  {
    LinksTo(list, start, k, k + 1)
  }

  /** The links of a published list: each descriptor to its successor; the last one of a ring to
      the first; a chain ends in a descriptor that the software owns. */
  lemma {:induction false} Links(p: Params, ds: seq<Descriptor>, slots: seq<int>, list: seq<Descriptor>, start: u32)
    requires IsList(p, ds, slots, list, start)
    ensures forall k | 0 <= k < |list| - 1 :: LinksOn(list, start, k)
    ensures if p.transferMode == MODE_STREAM then |list| > 0 ==> LinksTo(list, start, |list| - 1, 0)
            else |list| == |ds| + 1 && !list[|ds|].ownedByHw
  {
  }

  /** One step of the walk: it executes a descriptor that the hardware owns and goes on at the
      descriptor it links to. */
  lemma {:induction false} FollowLink(regs: seq<RegPair>, mem: Memory, bus: u64, list: seq<Descriptor>, start: u32,
                                      k: nat, next: nat, fuel: nat)
    requires |regs| == SLOTS && HoldsList(mem, bus, list) && k < |list| && fuel > 0
    requires Reaches(regs, bus, start, k) && LinksTo(list, start, k, next)
    ensures Prefetch(regs, mem, DescAddr(start, k), fuel)
            == [list[k]] + Prefetch(regs, mem, DescAddr(start, next), fuel - 1)
  {
    assert mem(bus + DESC_BYTES * k) == list[k];
  }

  /** As long as the descriptors are read where they lie, the walk visits them in order. */
  lemma {:induction false} WalkOn(regs: seq<RegPair>, mem: Memory, bus: u64, list: seq<Descriptor>, start: u32,
                                  k: nat, n: nat, fuel: nat)
    requires |regs| == SLOTS && HoldsList(mem, bus, list) && k <= n <= |list| && fuel >= n - k
    requires forall i | k <= i < n :: LinksOn(list, start, i) && Reaches(regs, bus, start, i)
    ensures Prefetch(regs, mem, DescAddr(start, k), fuel)
            == list[k..n] + Prefetch(regs, mem, DescAddr(start, n), fuel - (n - k))
    decreases n - k
  {
    if k < n {
      assert LinksOn(list, start, k);
      FollowLink(regs, mem, bus, list, start, k, k + 1, fuel);
      WalkOn(regs, mem, bus, list, start, k + 1, n, fuel - 1);
      ConsSlice(list, k, n, Prefetch(regs, mem, DescAddr(start, n), fuel - (n - k)));
    } else {
      assert list[k..n] == [];
    }
  }

  lemma {:induction false} ConsSlice<T>(s: seq<T>, k: nat, n: nat, rest: seq<T>)
    requires k < n <= |s|
    ensures [s[k]] + (s[k + 1..n] + rest) == s[k..n] + rest
  {
  }

  /** A chain of n descriptors and the terminator that the software owns. */
  ghost predicate IsChain(list: seq<Descriptor>, start: nat, n: nat) {
    |list| == n + 1 && !list[n].ownedByHw && forall i | 0 <= i < n :: LinksOn(list, start, i)
  }

  ghost predicate IsRing(list: seq<Descriptor>, start: nat) {
    |list| > 0 && (forall i | 0 <= i < |list| - 1 :: LinksOn(list, start, i)) && LinksTo(list, start, |list| - 1, 0)
  }

  /** DEFAULT mode: the walk visits the active descriptors in order and stops at the zeroed,
      software-owned terminator, however long it may run. */
  lemma {:induction false} ChainWalk(regs: seq<RegPair>, mem: Memory, bus: u64, list: seq<Descriptor>, start: u32,
                                     n: nat, fuel: nat)
    requires |regs| == SLOTS && HoldsList(mem, bus, list) && ReachesAll(regs, bus, start, n + 1)
    requires IsChain(list, start, n) && fuel > n
    ensures Prefetch(regs, mem, start, fuel) == list[..n]
  {
    WalkOn(regs, mem, bus, list, start, 0, n, fuel);
    assert Reaches(regs, bus, start, n) && mem(bus + DESC_BYTES * n) == list[n];
    assert Prefetch(regs, mem, DescAddr(start, n), fuel - n) == [];
    assert list[0..n] == list[..n] && DescAddr(start, 0) == start;
  }

  /** fuel descriptors of the list from position k on, around the ring. */
  function Around(list: seq<Descriptor>, k: nat, fuel: nat): seq<Descriptor>
    requires k < |list|
    decreases fuel
  {
    if fuel == 0 then []
    else [list[k]] + Around(list, if k + 1 == |list| then 0 else k + 1, fuel - 1)
  }

  lemma {:induction false} AroundAt(list: seq<Descriptor>, k: nat, fuel: nat, i: nat)
    requires k < |list| && i < fuel
    ensures |Around(list, k, fuel)| == fuel
    ensures Around(list, k, fuel)[i] == list[(k + i) % |list|]
    decreases fuel
  {
    var n := |list|;
    AroundLength(list, k, fuel);
    if i == 0 {
      SmallMod(k, n);
    } else if k + 1 == n {
      AroundAt(list, 0, fuel - 1, i - 1);
      AddMultiple(i - 1, 1, n);
    } else {
      AroundAt(list, k + 1, fuel - 1, i - 1);
    }
  }

  lemma {:induction false} AroundLength(list: seq<Descriptor>, k: nat, fuel: nat)
    requires k < |list|
    ensures |Around(list, k, fuel)| == fuel
    decreases fuel
  {
    if fuel > 0 {
      AroundLength(list, if k + 1 == |list| then 0 else k + 1, fuel - 1);
    }
  }

  /** STREAM mode: from any descriptor k on, the walk goes around the ring forever. Its step i
      executes descriptor (k + i) mod n: each round visits every descriptor once and returns to
      where it started. */
  lemma {:induction false} RingWalk(regs: seq<RegPair>, mem: Memory, bus: u64, list: seq<Descriptor>, start: u32,
                                    k: nat, fuel: nat)
    requires |regs| == SLOTS && HoldsList(mem, bus, list) && ReachesAll(regs, bus, start, |list|)
    requires IsRing(list, start) && k < |list|
    ensures Prefetch(regs, mem, DescAddr(start, k), fuel) == Around(list, k, fuel)
    decreases fuel
  {
    if fuel > 0 {
      var next := if k + 1 == |list| then 0 else k + 1;
      assert k + 1 < |list| ==> LinksOn(list, start, k);
      assert Reaches(regs, bus, start, k);
      FollowLink(regs, mem, bus, list, start, k, next, fuel);
      RingWalk(regs, mem, bus, list, start, next, fuel - 1);
    }
  }

  // ----- Exactly when the walk is the list --------------------------------------------------------------

  /** A memory that holds the list, and the same descriptor everywhere else. */
  function MemoryWith(bus: u64, list: seq<Descriptor>, other: Descriptor): Memory {
    b =>
      if bus <= b < bus + DESC_BYTES * |list| && (b - bus) % DESC_BYTES == 0 then list[(b - bus) / DESC_BYTES]
      else other
  }

  lemma {:induction false} MemoryHolds(bus: u64, list: seq<Descriptor>, other: Descriptor)
    ensures HoldsList(MemoryWith(bus, list, other), bus, list)
  {
    forall k | 0 <= k < |list| ensures MemoryWith(bus, list, other)(bus + DESC_BYTES * k) == list[k] {
      DivModUnique(DESC_BYTES * k, k, 0, DESC_BYTES);
    }
  }

  /** What is read for descriptor k from another place: no descriptor of the list, or another one. */
  lemma {:induction false} Elsewhere(regs: seq<RegPair>, bus: u64, list: seq<Descriptor>, other: Descriptor,
                                     start: nat, k: nat) returns (i: nat)
    requires |regs| == SLOTS && k < |list| && !Reaches(regs, bus, start, k)
    ensures var d := MemoryWith(bus, list, other)(Resolve(regs, DescAddr(start, k)));
      d == other || (i < |list| && i != k && d == list[i])
  {
    var b := Resolve(regs, DescAddr(start, k));
    i := 0;
    if bus <= b < bus + DESC_BYTES * |list| && (b - bus) % DESC_BYTES == 0 {
      i := (b - bus) / DESC_BYTES;
      assert b == bus + DESC_BYTES * i;
    }
  }

  lemma {:induction false} FirstMissed(regs: seq<RegPair>, bus: u64, start: nat, n: nat) returns (k: nat)
    requires |regs| == SLOTS && !ReachesAll(regs, bus, start, n)
    ensures k < n && !Reaches(regs, bus, start, k) && ReachesAll(regs, bus, start, k)
  {
    if ReachesAll(regs, bus, start, n - 1) {
      k := n - 1;
    } else {
      k := FirstMissed(regs, bus, start, n - 1);
    }
  }

  /** Stops the prefetcher, and keeps it going. */
  const STOP: Descriptor := ZERO_DESCRIPTOR
  const GO: Descriptor := ZERO_DESCRIPTOR.(ownedByHw := true, length := 1)

  /** If descriptor k is the first that is not read where it lies, some memory lets the walk go
      wrong there: it stops or executes something else. */
  lemma {:induction false} WalkMisses(regs: seq<RegPair>, bus: u64, list: seq<Descriptor>, start: u32,
                                      k: nat, fuel: nat)
    requires |regs| == SLOTS && k < |list| && fuel > k
    requires ReachesAll(regs, bus, start, k) && !Reaches(regs, bus, start, k)
    requires forall i | 0 <= i < |list| - 1 :: LinksOn(list, start, i)
    requires list[|list| - 1].ownedByHw ==> LinksTo(list, start, |list| - 1, 0)
    requires !list[|list| - 1].ownedByHw || list[k].ownedByHw
    ensures var mem := MemoryWith(bus, list, if list[k].ownedByHw then STOP else GO);
      var walked := Prefetch(regs, mem, start, fuel);
      && HoldsList(mem, bus, list) && |walked| >= k && walked[..k] == list[..k]
      && (if |walked| == k then list[k].ownedByHw
          else (walked[k] == GO && !list[k].ownedByHw) || IsAnother(list, k, walked[k]))
  {
    var other := if list[k].ownedByHw then STOP else GO;
    var mem := MemoryWith(bus, list, other);
    MemoryHolds(bus, list, other);
    WalkOn(regs, mem, bus, list, start, 0, k, fuel);
    assert list[0..k] == list[..k] && DescAddr(start, 0) == start;
    var i := Elsewhere(regs, bus, list, other, start, k);
    var d, rest := mem(Resolve(regs, DescAddr(start, k))), Prefetch(regs, mem, DescAddr(start, k), fuel - k);
    assert if d.ownedByHw then |rest| > 0 && rest[0] == d else rest == [];
    if d != other {
      OtherLink(list, start, k, i);
      assert d.ownedByHw ==> IsAnother(list, k, d);
    }
  }

  /** d is a descriptor of the list that the hardware owns, and not descriptor k. */
  ghost predicate IsAnother(list: seq<Descriptor>, k: nat, d: Descriptor)
    requires k < |list|
  {
    d.ownedByHw && d != list[k] && exists i | 0 <= i < |list| :: i != k && d == list[i]
  }

  /** No two descriptors of a list have the same link, and at most the last one is not owned. */
  lemma {:induction false} OtherLink(list: seq<Descriptor>, start: u32, k: nat, i: nat)
    requires k < |list| && i < |list| && i != k
    requires forall i | 0 <= i < |list| - 1 :: LinksOn(list, start, i)
    requires list[|list| - 1].ownedByHw ==> LinksTo(list, start, |list| - 1, 0)
    ensures list[i] != list[k]
    ensures !list[k].ownedByHw ==> list[i].ownedByHw
  {
    assert i < |list| - 1 ==> LinksOn(list, start, i);
    assert k < |list| - 1 ==> LinksOn(list, start, k);
  }

  /** The walk over a chain executes its descriptors, each once and in order, whatever lies around
      the list, if and only if they all are read where they lie, the terminator included. */
  lemma {:induction false} ChainWalkExact(regs: seq<RegPair>, bus: u64, list: seq<Descriptor>, start: u32,
                                          n: nat, fuel: nat)
    requires |regs| == SLOTS && IsChain(list, start, n) && fuel > n
    ensures (forall mem | HoldsList(mem, bus, list) :: Prefetch(regs, mem, start, fuel) == list[..n])
            <==> ReachesAll(regs, bus, start, n + 1)
  {
    if ReachesAll(regs, bus, start, n + 1) {
      forall mem | HoldsList(mem, bus, list) ensures Prefetch(regs, mem, start, fuel) == list[..n] {
        ChainWalk(regs, mem, bus, list, start, n, fuel);
      }
    } else {
      var k := FirstMissed(regs, bus, start, n + 1);
      assert k < n ==> LinksOn(list, start, k);
      WalkMisses(regs, bus, list, start, k, fuel);
      assert k < n ==> list[..n][k] == list[k];
    }
  }

  /** The walk over a ring goes around it, whatever lies around the list, if and only if all its
      descriptors are read where they lie. */
  lemma {:induction false} RingWalkExact(regs: seq<RegPair>, bus: u64, list: seq<Descriptor>, start: u32, fuel: nat)
    requires |regs| == SLOTS && IsRing(list, start) && fuel >= |list|
    ensures (forall mem | HoldsList(mem, bus, list) :: Prefetch(regs, mem, start, fuel) == Around(list, 0, fuel))
            <==> ReachesAll(regs, bus, start, |list|)
  {
    if ReachesAll(regs, bus, start, |list|) {
      forall mem | HoldsList(mem, bus, list) ensures Prefetch(regs, mem, start, fuel) == Around(list, 0, fuel) {
        RingWalk(regs, mem, bus, list, start, 0, fuel);
      }
    } else {
      var k := FirstMissed(regs, bus, start, |list|);
      assert k < |list| - 1 ==> LinksOn(list, start, k);
      WalkMisses(regs, bus, list, start, k, fuel);
      AroundAt(list, 0, fuel, k);
      SmallMod(k, |list|);
    }
  }

  // ----- Slots of a run -------------------------------------------------------------------------------

  /** Every slot of the channel is programmed with its page. */
  ghost predicate ProgrammedFor(regs: seq<RegPair>, t: Table, channel: u8)
    requires |regs| == SLOTS
  {
    forall i | 0 <= i < SLOTS && t[i].Used? && t[i].channel == channel :: RegBase(regs[i]) == t[i].page
  }

  lemma {:induction false} ProgrammedSelects(regs: seq<RegPair>, t: Table, channel: u8)
    requires |regs| == SLOTS && PagesAligned(t)
    ensures ProgrammedFor(Programmed(regs, t, channel), t, channel)
  {
    forall i | 0 <= i < SLOTS && t[i].Used? && t[i].channel == channel
      ensures RegBase(Programmed(regs, t, channel)[i]) == t[i].page
    {
      RegPairSelects(t[i].page);
    }
  }

  /** In a run over addresses outside page 0, every address gets a slot that the channel owns. */
  lemma {:induction false} SlotsOwned(t: Table, channel: u8, addrs: seq<u64>, k: nat)
    requires k <= |addrs| && channel != ANY_CHANNEL && !RunTo(t, channel, addrs, k).full
    requires forall j | 0 <= j < |addrs| :: PageBase(addrs[j]) != 0
    ensures var s := RunTo(t, channel, addrs, k);
      && (s.slot == -1 ==> s.currPage == 0)
      && (s.slot != -1 ==> OwnedSlot(s.table, channel, s.slot))
      && forall j | 0 <= j < k :: OwnedSlot(s.table, channel, s.slots[j])
  {
    if k > 0 {
      RunPrefix(t, channel, addrs, k - 1, k);
      SlotsOwned(t, channel, addrs, k - 1);
      StepOwned(RunTo(t, channel, addrs, k - 1), channel, addrs[k - 1]);
    }
  }

  lemma {:induction false} StepOwned(s: Trans, channel: u8, a: u64)
    requires channel != ANY_CHANNEL && PageBase(a) != 0 && !s.full && !NextTrans(s, channel, a).full
    requires s.slot == -1 ==> s.currPage == 0
    requires s.slot != -1 ==> OwnedSlot(s.table, channel, s.slot)
    requires forall j | 0 <= j < |s.slots| :: OwnedSlot(s.table, channel, s.slots[j])
    ensures var s' := NextTrans(s, channel, a);
      && s'.slot != -1 && OwnedSlot(s'.table, channel, s'.slot)
      && forall j | 0 <= j < |s'.slots| :: OwnedSlot(s'.table, channel, s'.slots[j])
  {
    var page := PageBase(a);
    StepIsolation(s, channel, a);
    FindValueExact(s.table, page, channel);
    assert forall i | OwnedSlot(s.table, channel, i) :: OwnedSlot(NextTrans(s, channel, a).table, channel, i);
  }

  predicate OwnedSlot(t: Table, channel: u8, slot: int) {
    0 <= slot < SLOTS && Matches(t[slot], channel)
  }

  // ----- What the walk copies -------------------------------------------------------------------------

  /** Every byte of every descriptor resolves to its original address. */
  ghost predicate ResolvesAll(regs: seq<RegPair>, ds: seq<Descriptor>, slots: seq<int>)
    requires |regs| == SLOTS && |slots| == |ds|
  {
    forall k | 0 <= k < |ds| :: BytesResolve(regs, ds[k].WriteAddr(), slots[k], ds[k].length)
  }

  /** The resolved moves of the walk are the moves of the original list exactly when every byte
      resolves to its original address. */
  lemma {:induction false} MovesExact(regs: seq<RegPair>, ch: ChannelInfo, ds: seq<Descriptor>, slots: seq<int>,
                                      walked: seq<Descriptor>, taken: nat)
    requires |regs| == SLOTS && |slots| == |ds| == |walked|
    requires forall k | 0 <= k < |ds| :: SameMoves(ds[k], walked[k], slots[k])
    ensures ListMoves(Resolver(regs), FROM_DEVICE, ch, walked, taken)
            == ListMoves(Untranslated, FROM_DEVICE, ch, ds, taken)
            <==> ResolvesAll(regs, ds, slots)
    decreases |ds|
  {
    if ds == [] {
      assert ResolvesAll(regs, ds, slots);
    } else {
      var l := ds[0].length;
      assert SameMoves(ds[0], walked[0], slots[0]);
      forall k | 0 <= k < |ds| - 1 ensures SameMoves(ds[1..][k], walked[1..][k], slots[1..][k]) {
        assert SameMoves(ds[k + 1], walked[k + 1], slots[k + 1]);
      }
      MovesExact(regs, ch, ds[1..], slots[1..], walked[1..], taken + l);
      HeadExact(regs, ch, ds[0], walked[0], slots[0], taken);
      MovesCons(Resolver(regs), ch, walked, taken);
      MovesCons(Untranslated, ch, ds, taken);
      AppendEqual(DescMoves(Resolver(regs), FROM_DEVICE, ch, walked[0], taken),
                  ListMoves(Resolver(regs), FROM_DEVICE, ch, walked[1..], taken + l),
                  DescMoves(Untranslated, FROM_DEVICE, ch, ds[0], taken),
                  ListMoves(Untranslated, FROM_DEVICE, ch, ds[1..], taken + l));
      ResolvesSplit(regs, ds, slots);
    }
  }

  lemma {:induction false} MovesCons(host: int -> int, ch: ChannelInfo, ds: seq<Descriptor>, taken: nat)
    requires ds != []
    ensures ListMoves(host, FROM_DEVICE, ch, ds, taken)
            == DescMoves(host, FROM_DEVICE, ch, ds[0], taken)
               + ListMoves(host, FROM_DEVICE, ch, ds[1..], taken + ds[0].length)
  {
  }

  /** w is d with its write address relocated to a slot; links and ownership do not matter. */
  ghost predicate SameMoves(d: Descriptor, w: Descriptor, slot: int) {
    && w.length == d.length && w.ReadAddr() == d.ReadAddr()
    && w.WriteAddr() == SlotAddr(d.WriteAddr(), slot)
  }

  lemma {:induction false} AppendEqual<T>(a: seq<T>, b: seq<T>, a': seq<T>, b': seq<T>)
    requires |a| == |a'|
    ensures a + b == a' + b' <==> a == a' && b == b'
  {
    if a + b == a' + b' {
      assert a == (a + b)[..|a|] && b == (a + b)[|a|..];
      assert a' == (a' + b')[..|a|] && b' == (a' + b')[|a|..];
    }
  }

  lemma {:induction false} HeadExact(regs: seq<RegPair>, ch: ChannelInfo, d: Descriptor, w: Descriptor, slot: int,
                                     taken: nat)
    requires |regs| == SLOTS && SameMoves(d, w, slot)
    ensures DescMoves(Resolver(regs), FROM_DEVICE, ch, w, taken) == DescMoves(Untranslated, FROM_DEVICE, ch, d, taken)
            <==> BytesResolve(regs, d.WriteAddr(), slot, d.length)
  {
    var a := DescMoves(Resolver(regs), FROM_DEVICE, ch, w, taken);
    var b := DescMoves(Untranslated, FROM_DEVICE, ch, d, taken);
    forall j: nat | j < d.length
      ensures a[j] == b[j] <==> ByteResolves(regs, d.WriteAddr(), slot, j)
    {
      assert a[j] == DescMove(Resolver(regs), FROM_DEVICE, ch, w, taken, j);
      assert b[j] == DescMove(Untranslated, FROM_DEVICE, ch, d, taken, j);
    }
    if a == b {
      forall j: nat | j < d.length
        ensures ByteResolves(regs, d.WriteAddr(), slot, j)
      {
        assert a[j] == b[j];
      }
    }
  }

  lemma {:induction false} ResolvesSplit(regs: seq<RegPair>, ds: seq<Descriptor>, slots: seq<int>)
    requires |regs| == SLOTS && |slots| == |ds| > 0
    ensures ResolvesAll(regs, ds, slots) <==>
      && BytesResolve(regs, ds[0].WriteAddr(), slots[0], ds[0].length)
      && ResolvesAll(regs, ds[1..], slots[1..])
  {
    forall k | 1 <= k < |ds| ensures ds[1..][k - 1] == ds[k] && slots[1..][k - 1] == slots[k] {
    }
    if ResolvesAll(regs, ds[1..], slots[1..]) {
      forall k | 1 <= k < |ds| ensures BytesResolve(regs, ds[k].WriteAddr(), slots[k], ds[k].length) {
        assert BytesResolve(regs, ds[1..][k - 1].WriteAddr(), slots[1..][k - 1], ds[1..][k - 1].length);
      }
    }
  }
}
