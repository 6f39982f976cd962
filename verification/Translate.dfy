/** Relocation of the descriptors' host addresses through the translation table, with the
    one-entry shortcut, and exactly when that shortcut is faithful. */
module Translate {
  import opened Words
  import opened Descriptors
  import opened Bits
  import opened PageTable

  // ----- One run of the loop, as a value ---------------------------------------------------------

  /** The variables of translate_descriptor_rw_addr, and the slot used for each address so far.
      slot is -1 before the first assignment. */
  datatype Trans = Trans(table: Table, currPage: u64, slot: int, slots: seq<int>, used: nat, full: bool)

  function NextTrans(s: Trans, channel: u8, a: u64): Trans {
    if s.full then s
    else
      var page := PageBase(a);
      if s.currPage == page then s.(slots := s.slots + [s.slot])
      else
        var found := FindValue(s.table, page, channel, 0);
        if found != -1 then s.(slot := found, slots := s.slots + [found])
        else
          var slot := FirstFree(s.table, 0);
          if slot == -1 then s.(full := true)
          else Trans(s.table[slot := Used(page, channel)], page, slot, s.slots + [slot], s.used + 1, false)
  }

  /** The state after the first k addresses. */
  function RunTo(t: Table, channel: u8, addrs: seq<u64>, k: nat): (s: Trans)
    requires k <= |addrs|
    ensures !s.full ==> |s.slots| == k
  {
    if k == 0 then Trans(t, 0, -1, [], 0, false)
    else NextTrans(RunTo(t, channel, addrs, k - 1), channel, addrs[k - 1])
  }

  function Run(t: Table, channel: u8, addrs: seq<u64>): (s: Trans)
    ensures !s.full ==> |s.slots| == |addrs|
  {
    RunTo(t, channel, addrs, |addrs|)
  }

  /** A failed run fails from some point on, so a run that succeeds succeeded before, and the
      slots it used for a prefix stay. */
  lemma {:induction false} RunPrefix(t: Table, channel: u8, addrs: seq<u64>, k: nat, n: nat)
    requires k <= n <= |addrs| && !RunTo(t, channel, addrs, n).full
    ensures !RunTo(t, channel, addrs, k).full
    ensures RunTo(t, channel, addrs, k).slots == RunTo(t, channel, addrs, n).slots[..k]
    decreases n - k
  {
    if k < n {
      RunPrefix(t, channel, addrs, k, n - 1);
    }
  }

  // ----- What every run keeps -----------------------------------------------------------------------

  /** t' extends t by slots of the channel. */
  ghost predicate Extends(t: Table, t': Table, channel: u8) {
    forall i | 0 <= i < SLOTS ::
      if t[i].Used? then t'[i] == t[i] else t'[i].Free? || t'[i].channel == channel
  }

  /** A run only takes free slots, for its own channel, and only pages that the channel does not
      hold yet, so no channel ever holds a page twice. */
  lemma {:induction false} RunIsolation(t: Table, channel: u8, addrs: seq<u64>, k: nat)
    requires k <= |addrs| && channel != ANY_CHANNEL && NoDuplicates(t) && PagesAligned(t)
    ensures var t' := RunTo(t, channel, addrs, k).table;
      Extends(t, t', channel) && NoDuplicates(t') && PagesAligned(t')
  {
    if k > 0 {
      RunIsolation(t, channel, addrs, k - 1);
      StepIsolation(RunTo(t, channel, addrs, k - 1), channel, addrs[k - 1]);
    }
  }

  /** One iteration takes at most one free slot, for a page that the channel does not hold. */
  lemma {:induction false} StepIsolation(s: Trans, channel: u8, a: u64)
    requires channel != ANY_CHANNEL
    ensures var t, t' := s.table, NextTrans(s, channel, a).table;
      && Extends(t, t', channel)
      && (NoDuplicates(t) ==> NoDuplicates(t'))
      && (PagesAligned(t) ==> PagesAligned(t'))
  {
    var page, slot := PageBase(a), FirstFree(s.table, 0);
    if !s.full && s.currPage != page && FindValue(s.table, page, channel, 0) == -1 && slot != -1 {
      FindValueExact(s.table, page, channel);
      AllocIsolation(s.table, slot, page, channel);
      FirstFreeExact(s.table, 0);
      MaskedPage(a);
    }
  }

  lemma {:induction false} RunExtends(t: Table, channel: u8, addrs: seq<u64>, k: nat)
    requires k <= |addrs| && channel != ANY_CHANNEL
    ensures Extends(t, RunTo(t, channel, addrs, k).table, channel)
  {
    if k > 0 {
      RunExtends(t, channel, addrs, k - 1);
      StepIsolation(RunTo(t, channel, addrs, k - 1), channel, addrs[k - 1]);
    }
  }

  /** The cleanup after a failure, freeing all slots of the channel, leaves the table as if the
      run had not happened. */
  lemma {:induction false} CleanupRestores(t: Table, t': Table, channel: u8)
    requires channel != ANY_CHANNEL && Extends(t, t', channel)
    ensures FreeSlots(t', channel) == FreeSlots(t, channel)
  {
  }

  // ----- When the shortcut is faithful --------------------------------------------------------------

  function Pages(addrs: seq<u64>): (p: seq<u64>)
    ensures |p| == |addrs| && forall k | 0 <= k < |addrs| :: p[k] == PageBase(addrs[k])
  {
    seq(|addrs|, k requires 0 <= k < |addrs| => PageBase(addrs[k]))
  }

  /** The k-th page is new to the channel: neither in its slots beforehand nor seen earlier. */
  predicate Fresh(held: set<u64>, pages: seq<u64>, k: nat)
    requires k < |pages|
  {
    pages[k] !in held && pages[k] !in pages[..k]
  }

  /** The last new page before position k; 0 if there was none. This is what curr_page caches. */
  function LastFresh(held: set<u64>, pages: seq<u64>, k: nat): u64
    requires k <= |pages|
  {
    if k == 0 then 0
    else if Fresh(held, pages, k - 1) then pages[k - 1]
    else LastFresh(held, pages, k - 1)
  }

  /** The test on the sequence of pages that decides the shortcut: whenever a page is the last new
      one, it directly continues itself. held are the pages the channel has beforehand, which is
      the page of its descriptor buffer. */
  ghost predicate CacheSafe(held: set<u64>, pages: seq<u64>) {
    forall k | 0 <= k < |pages| :: CacheSafeAt(held, pages, k)
  }

  predicate CacheSafeAt(held: set<u64>, pages: seq<u64>, k: nat)
    requires k < |pages|
  {
    pages[k] == LastFresh(held, pages, k) ==> k > 0 && pages[k - 1] == pages[k]
  }

  /** Slot i of the table holds the page for the channel. */
  predicate HeldAt(t: Table, i: int, page: u64, channel: u8) {
    0 <= i < SLOTS && t[i] == Used(page, channel)
  }

  /** Every address of the first k was given a slot that holds its page. */
  ghost predicate FaithfulTo(t: Table, channel: u8, slots: seq<int>, pages: seq<u64>, k: nat)
    requires k <= |slots| && k <= |pages|
  {
    forall j | 0 <= j < k :: HeldAt(t, slots[j], pages[j], channel)
  }

  /** What the loop knows as long as it has been faithful: curr_page is the last new page, slot is
      the slot of the previous address, and the channel holds exactly the pages seen. */
  ghost predicate Tracks(t: Table, channel: u8, addrs: seq<u64>, k: nat)
    requires k <= |addrs|
  {
    var s := RunTo(t, channel, addrs, k);
    var pages := Pages(addrs);
    !s.full ==>
      && s.currPage == LastFresh(PagesOf(t, channel), pages, k)
      && s.slot == (if k == 0 then -1 else s.slots[k - 1])
      && (forall q :: q in PagesOf(s.table, channel) <==> q in PagesOf(t, channel) || q in pages[..k])
      && FaithfulTo(s.table, channel, s.slots, pages, k)
  }

  lemma {:induction false} TracksStep(t: Table, channel: u8, addrs: seq<u64>, k: nat)
    requires k < |addrs| && channel != ANY_CHANNEL && Tracks(t, channel, addrs, k)
    requires !RunTo(t, channel, addrs, k + 1).full
    ensures CacheSafeAt(PagesOf(t, channel), Pages(addrs), k) ==> Tracks(t, channel, addrs, k + 1)
    ensures !CacheSafeAt(PagesOf(t, channel), Pages(addrs), k) ==>
      var s := RunTo(t, channel, addrs, k + 1);
      !HeldAt(s.table, s.slots[k], Pages(addrs)[k], channel)
  {
    var s, pages := RunTo(t, channel, addrs, k), Pages(addrs);
    var page := pages[k];
    assert pages[..k + 1] == pages[..k] + [page];
    if s.currPage == page {
      TracksCached(t, channel, addrs, k);
    } else {
      FindValueExact(s.table, page, channel);
      if FindValue(s.table, page, channel, 0) != -1 {
        TracksFound(t, channel, addrs, k);
      } else {
        TracksFresh(t, channel, addrs, k);
      }
    }
  }

  lemma {:induction false} TracksCached(t: Table, channel: u8, addrs: seq<u64>, k: nat)
    requires k < |addrs| && Tracks(t, channel, addrs, k) && !RunTo(t, channel, addrs, k).full
    requires RunTo(t, channel, addrs, k).currPage == Pages(addrs)[k]
    requires Pages(addrs)[..k + 1] == Pages(addrs)[..k] + [Pages(addrs)[k]]
    ensures !RunTo(t, channel, addrs, k + 1).full
    ensures CacheSafeAt(PagesOf(t, channel), Pages(addrs), k) ==> Tracks(t, channel, addrs, k + 1)
    ensures !CacheSafeAt(PagesOf(t, channel), Pages(addrs), k) ==>
      var s := RunTo(t, channel, addrs, k + 1);
      !HeldAt(s.table, s.slots[k], Pages(addrs)[k], channel)
  {
    var s, pages := RunTo(t, channel, addrs, k), Pages(addrs);
    if k > 0 {
      assert HeldAt(s.table, s.slots[k - 1], pages[k - 1], channel);
      if pages[k - 1] == pages[k] {
        assert pages[..k][k - 1] == pages[k];
      }
    }
  }

  lemma {:induction false} TracksFound(t: Table, channel: u8, addrs: seq<u64>, k: nat)
    requires k < |addrs| && Tracks(t, channel, addrs, k) && !RunTo(t, channel, addrs, k).full
    requires RunTo(t, channel, addrs, k).currPage != Pages(addrs)[k] && channel != ANY_CHANNEL
    requires FindValue(RunTo(t, channel, addrs, k).table, Pages(addrs)[k], channel, 0) != -1
    requires Pages(addrs)[..k + 1] == Pages(addrs)[..k] + [Pages(addrs)[k]]
    ensures Tracks(t, channel, addrs, k + 1)
    ensures CacheSafeAt(PagesOf(t, channel), Pages(addrs), k)
  {
    FindValueExact(RunTo(t, channel, addrs, k).table, Pages(addrs)[k], channel);
  }

  lemma {:induction false} TracksFresh(t: Table, channel: u8, addrs: seq<u64>, k: nat)
    requires k < |addrs| && Tracks(t, channel, addrs, k) && !RunTo(t, channel, addrs, k + 1).full
    requires !RunTo(t, channel, addrs, k).full
    requires RunTo(t, channel, addrs, k).currPage != Pages(addrs)[k] && channel != ANY_CHANNEL
    requires FindValue(RunTo(t, channel, addrs, k).table, Pages(addrs)[k], channel, 0) == -1
    requires Pages(addrs)[..k + 1] == Pages(addrs)[..k] + [Pages(addrs)[k]]
    ensures Tracks(t, channel, addrs, k + 1)
    ensures CacheSafeAt(PagesOf(t, channel), Pages(addrs), k)
  {
    var s := RunTo(t, channel, addrs, k);
    FindValueExact(s.table, Pages(addrs)[k], channel);
    AllocIsolation(s.table, FirstFree(s.table, 0), Pages(addrs)[k], channel);
  }

  lemma {:induction false} TracksAll(t: Table, channel: u8, addrs: seq<u64>, k: nat)
    requires k <= |addrs| && channel != ANY_CHANNEL && !RunTo(t, channel, addrs, k).full
    requires forall j | 0 <= j < k :: CacheSafeAt(PagesOf(t, channel), Pages(addrs), j)
    ensures Tracks(t, channel, addrs, k)
  {
    if k > 0 {
      RunPrefix(t, channel, addrs, k - 1, k);
      TracksAll(t, channel, addrs, k - 1);
      TracksStep(t, channel, addrs, k - 1);
    }
  }

  /** Slots taken during a run stay as they are until its end. */
  lemma {:induction false} RunKeepsSlots(t: Table, channel: u8, addrs: seq<u64>, k: nat, n: nat, i: nat)
    requires k <= n <= |addrs| && i < SLOTS && channel != ANY_CHANNEL && !RunTo(t, channel, addrs, n).full
    requires RunTo(t, channel, addrs, k).table[i].Used?
    ensures RunTo(t, channel, addrs, n).table[i] == RunTo(t, channel, addrs, k).table[i]
    decreases n - k
  {
    if k < n {
      RunPrefix(t, channel, addrs, n - 1, n);
      RunKeepsSlots(t, channel, addrs, k, n - 1, i);
      StepIsolation(RunTo(t, channel, addrs, n - 1), channel, addrs[n - 1]);
    }
  }

  /** Of a page held in no other slot, a used slot that does not hold it at step k does not hold it
      at the end either. */
  lemma {:induction false} StaysWrong(t: Table, channel: u8, addrs: seq<u64>, k: nat, slot: int, page: u64)
    requires k < |addrs| && channel != ANY_CHANNEL && !Run(t, channel, addrs).full
    requires Tracks(t, channel, addrs, k)
    requires !RunTo(t, channel, addrs, k).full && !RunTo(t, channel, addrs, k + 1).full
    requires slot == RunTo(t, channel, addrs, k + 1).slots[k]
    requires RunTo(t, channel, addrs, k).currPage == page == Pages(addrs)[k]
    requires !HeldAt(RunTo(t, channel, addrs, k + 1).table, slot, page, channel)
    ensures !HeldAt(Run(t, channel, addrs).table, slot, page, channel)
  {
    var s := RunTo(t, channel, addrs, k);
    assert slot == s.slot;
    if k > 0 {
      assert HeldAt(s.table, s.slots[k - 1], Pages(addrs)[k - 1], channel);
      RunKeepsSlots(t, channel, addrs, k + 1, |addrs|, slot);
    }
  }

  /** The shortcut, exactly. After a successful run every address has a slot that holds its page
      if and only if the sequence of pages is CacheSafe. */
  lemma {:induction false} ShortcutExact(t: Table, channel: u8, addrs: seq<u64>)
    requires channel != ANY_CHANNEL && !Run(t, channel, addrs).full
    ensures var s := Run(t, channel, addrs);
      FaithfulTo(s.table, channel, s.slots, Pages(addrs), |addrs|)
      <==> CacheSafe(PagesOf(t, channel), Pages(addrs))
  {
    var s, pages, held := Run(t, channel, addrs), Pages(addrs), PagesOf(t, channel);
    if CacheSafe(held, pages) {
      TracksAll(t, channel, addrs, |addrs|);
    } else {
      var k :| 0 <= k < |addrs| && !CacheSafeAt(held, pages, k);
      k := FirstUnsafe(held, pages, k);
      RunPrefix(t, channel, addrs, k, |addrs|);
      RunPrefix(t, channel, addrs, k + 1, |addrs|);
      TracksAll(t, channel, addrs, k);
      TracksStep(t, channel, addrs, k);
      StaysWrong(t, channel, addrs, k, s.slots[k], pages[k]);
      assert !HeldAt(s.table, s.slots[k], pages[k], channel);
    }
  }

  lemma {:induction false} FirstUnsafe(held: set<u64>, pages: seq<u64>, k: nat) returns (j: nat)
    requires k < |pages| && !CacheSafeAt(held, pages, k)
    ensures j <= k && !CacheSafeAt(held, pages, j)
    ensures forall i | 0 <= i < j :: CacheSafeAt(held, pages, i)
  {
    if i :| 0 <= i < k && !CacheSafeAt(held, pages, i) {
      j := FirstUnsafe(held, pages, i);
    } else {
      j := k;
    }
  }

  /** Each page is visited in one contiguous run. */
  ghost predicate InRuns(pages: seq<u64>) {
    forall i, j, k | 0 <= i < j < k < |pages| && pages[i] == pages[k] :: pages[j] == pages[k]
  }

  lemma {:induction false} LastFreshSeen(held: set<u64>, pages: seq<u64>, k: nat)
    requires k <= |pages|
    ensures LastFresh(held, pages, k) == 0 || LastFresh(held, pages, k) in pages[..k]
  {
    if k > 0 {
      LastFreshSeen(held, pages, k - 1);
      assert pages[..k] == pages[..k - 1] + [pages[k - 1]];
    }
  }

  /** Contiguous runs and no page at address 0 are enough. */
  lemma {:induction false} RunsAreSafe(held: set<u64>, pages: seq<u64>)
    requires InRuns(pages) && forall k | 0 <= k < |pages| :: pages[k] != 0
    ensures CacheSafe(held, pages)
  {
    forall k | 0 <= k < |pages|
      ensures CacheSafeAt(held, pages, k)
    {
      LastFreshSeen(held, pages, k);
      if pages[k] == LastFresh(held, pages, k) {
        var i :| 0 <= i < k && pages[..k][i] == pages[k];
        if i < k - 1 {
          assert pages[i] == pages[k] && pages[k - 1] == pages[k];
        }
      }
    }
  }

  /** Visiting two new pages in turn, A, B, A, B, is not safe. */
  lemma {:induction false} AlternationUnsafe(held: set<u64>, a: u64, b: u64)
    requires a != b && a !in held && b !in held && a != 0 && b != 0
    ensures !CacheSafe(held, [a, b, a, b])
  {
    var pages := [a, b, a, b];
    assert pages[..0] == [] && pages[..1] == [a] && pages[..2] == [a, b] && pages[..3] == [a, b, a];
    assert LastFresh(held, pages, 1) == a;
    assert Fresh(held, pages, 1) && !Fresh(held, pages, 2);
    assert LastFresh(held, pages, 2) == b;
    assert LastFresh(held, pages, 3) == b;
    assert !CacheSafeAt(held, pages, 3);
  }

  // ----- The loop of the driver ------------------------------------------------------------------------

  function WriteAddrs(ds: seq<Descriptor>): (a: seq<u64>)
    ensures |a| == |ds| && forall k | 0 <= k < |ds| :: a[k] == ds[k].WriteAddr()
  {
    seq(|ds|, k requires 0 <= k < |ds| => ds[k].WriteAddr() as u64)
  }

  /** A descriptor after its write address was relocated to a slot. */
  function Relocated(d: Descriptor, slot: int): Descriptor {
    d.(writeLow := SlotAddr(d.WriteAddr(), slot), writeHigh := 0)
  }

  datatype RwResult = NoSpace | NotSupported | InvalidDirection | Translated(used: nat)

  /** The first i descriptors are relocated to their slots, the others are as before. */
  ghost predicate RelocatedTo(now: seq<Descriptor>, was: seq<Descriptor>, slots: seq<int>, i: nat)
    requires i <= |slots|
  {
    && |now| == |was|
    && (forall k {:trigger now[k]} | 0 <= k < i && k < |now| :: now[k] == Relocated(was[k], slots[k]))
    && (forall k {:trigger now[k]} | i <= k < |now| :: now[k] == was[k])
  }

  lemma {:induction false} RelocateStep(now: seq<Descriptor>, was: seq<Descriptor>, slots: seq<int>, slot: int,
                                        d: Descriptor)
    requires RelocatedTo(now, was, slots, |slots|) && |slots| < |now|
    requires d == Relocated(was[|slots|], slot)
    ensures RelocatedTo(now[|slots| := d], was, slots + [slot], |slots| + 1)
  {
  }

  /** translate_descriptor_rw_addr: relocates the active descriptors as Run says, or frees the
      channel's slots when the table is full. */
  method TranslateRw(table: PageTable, descs: array<Descriptor>, active: nat, p: Params)
    returns (res: RwResult)
    requires table.Valid() && active <= descs.Length && p.channel < NUM_CHANNELS
    modifies table, table.pages, table.activeChannel, descs
    ensures table.Valid()
    ensures p.direction == TO_DEVICE ==> res == NotSupported
    ensures p.direction != FROM_DEVICE && p.direction != TO_DEVICE ==> res == InvalidDirection
    ensures p.direction != FROM_DEVICE ==> table.View() == old(table.View()) && descs[..] == old(descs[..])
    ensures p.direction == FROM_DEVICE ==>
      var s := Run(old(table.View()), p.channel, WriteAddrs(old(descs[..active])));
      if s.full then res == NoSpace && table.View() == FreeSlots(s.table, p.channel)
      else
        && res == Translated(s.used) && table.View() == s.table
        && RelocatedTo(descs[..], old(descs[..]), s.slots, active)
  {
    if p.direction == TO_DEVICE {
      return NotSupported;
    }
    if p.direction != FROM_DEVICE {
      return InvalidDirection;
    }
    ghost var t, was := table.View(), descs[..];
    ghost var addrs := WriteAddrs(descs[..active]);
    ghost var s := RunTo(t, p.channel, addrs, 0);
    var usedEntries: nat := 0;
    var currPage: u64 := 0;
    var slot := -1;
    var i: nat := 0;
    while i < active
      invariant i <= active && table.Valid() && -1 <= slot < SLOTS
      invariant s == RunTo(t, p.channel, addrs, i)
      invariant s == Trans(table.View(), currPage, slot, s.slots, usedEntries, false)
      invariant RelocatedTo(descs[..], was, s.slots, i)
    {
      assert descs[i].WriteAddr() == addrs[i];
      s := NextTrans(s, p.channel, addrs[i]);
      var full;
      slot, currPage, usedEntries, full :=
        TranslateOne(table, descs, i, p.channel, RunTo(t, p.channel, addrs, i), slot, currPage, usedEntries, was);
      if full {
        FullStays(t, p.channel, addrs, i + 1, |addrs|);
        table.FreeByChannel(p.channel);
        return NoSpace;
      }
      i := i + 1;
    }
    res := Translated(usedEntries);
  }

  /** One iteration: a slot for the address, or a full table; then the address is relocated. */
  method TranslateOne(table: PageTable, descs: array<Descriptor>, i: nat, channel: u8, ghost s: Trans,
                      slot0: int, currPage0: u64, used0: nat, ghost was: seq<Descriptor>)
    returns (slot: int, currPage: u64, used: nat, full: bool)
    requires table.Valid() && -1 <= slot0 < SLOTS && i == |s.slots| < descs.Length
    requires s == Trans(table.View(), currPage0, slot0, s.slots, used0, false)
    requires RelocatedTo(descs[..], was, s.slots, i)
    modifies table, table.pages, table.activeChannel, descs
    ensures table.Valid() && -1 <= slot < SLOTS
    ensures var s' := NextTrans(s, channel, old(descs[i]).WriteAddr());
      && table.View() == s'.table && (full <==> s'.full)
      && (!full ==> s' == Trans(table.View(), currPage, slot, s'.slots, used, false)
                    && RelocatedTo(descs[..], was, s'.slots, i + 1))
  {
    var combined: u64 := descs[i].WriteAddr();
    ghost var ds := descs[..];
    slot, currPage, used := NextSlot(table, channel, combined, s, slot0, currPage0, used0);
    full := slot == -1 && currPage != PageBase(combined);
    if !full {
      assert descs[..] == ds;
      Relocate(descs, i, combined, slot, was, s.slots);
    }
  }

  /** Sets the descriptor's address to the translated value. */
  method Relocate(descs: array<Descriptor>, i: nat, combined: u64, slot: int,
                  ghost was: seq<Descriptor>, ghost slots: seq<int>)
    requires i == |slots| < descs.Length && slot < SLOTS && combined == descs[i].WriteAddr()
    requires RelocatedTo(descs[..], was, slots, i)
    modifies descs
    ensures RelocatedTo(descs[..], was, slots + [slot], i + 1)
  {
    ghost var now := descs[..];
    descs[i] := descs[i].(writeLow := TranslateAddr(combined, slot), writeHigh := 0);
    assert descs[..] == now[i := descs[i]];
    RelocateStep(now, was, slots, slot, descs[i]);
  }

  /** The slot for one address: the shortcut, the search, or a new slot. A slot of -1 for a page
      that is not the cached one reports a full table. */
  method NextSlot(table: PageTable, channel: u8, combined: u64, ghost s: Trans,
                  slot0: int, currPage0: u64, used0: nat)
    returns (slot: int, currPage: u64, used: nat)
    requires table.Valid() && -1 <= slot0 < SLOTS
    requires s == Trans(table.View(), currPage0, slot0, s.slots, used0, false)
    modifies table, table.pages, table.activeChannel
    ensures table.Valid() && -1 <= slot < SLOTS
    ensures var s' := NextTrans(s, channel, combined);
      && table.View() == s'.table
      && (s'.full <==> slot == -1 && currPage != PageBase(combined))
      && (!s'.full ==> s' == Trans(table.View(), currPage, slot, s.slots + [slot], used, false))
  {
    slot, currPage, used := slot0, currPage0, used0;
    MaskedPage(combined);
    var page: u64 := And(combined, MASK64);
    if currPage != page {
      slot := table.Find(page, channel);
      if slot == -1 {
        slot := table.Alloc(page, channel);
        if slot == -1 {
          return;
        }
        currPage := page;
        used := used + 1;
      }
    }
  }

  lemma {:induction false} FullStays(t: Table, channel: u8, addrs: seq<u64>, k: nat, n: nat)
    requires k <= n <= |addrs| && RunTo(t, channel, addrs, k).full
    ensures RunTo(t, channel, addrs, n) == RunTo(t, channel, addrs, k)
    decreases n - k
  {
    if k < n {
      FullStays(t, channel, addrs, k, n - 1);
    }
  }
}
