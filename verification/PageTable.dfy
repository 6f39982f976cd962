/** The 16-entry address translation table that the three channels share, and the hardware
    registers that mirror it. */
module PageTable {
  import opened Words
  import opened Bits

  const SLOTS: nat := 16
  const WINDOW: nat := 0x4_0000 // bytes per page of the table, 256 KiB
  const ANY_CHANNEL: u8 := 0xFF
  const MASK64: u64 := 0xFFFF_FFFF_FFFC_0000 // ALTERA_ADDR_TRANSLATION_MASK_64
  const MASK32: u32 := 0xFFFC_0000           // ALTERA_ADDR_TRANSLATION_MASK

  // ----- Address arithmetic ------------------------------------------------------------------

  /** The page that an address lies in. */
  function PageBase(a: u64): u64 {
    a - a % 0x4_0000
  }

  /** bus_addr & ALTERA_ADDR_TRANSLATION_MASK_64 is the page of the address. */
  lemma {:induction false} MaskedPage(a: u64)
    ensures And(a, MASK64) == PageBase(a) && PageBase(a) % WINDOW == 0
  {
    Pow2Values();
    AndHighMask(a, 64, 18);
  }

  /** The address of a at the given slot, as seen by the device; 0 without a slot. */
  function SlotAddr(a: u64, slot: int): u32 {
    if 0 <= slot < SLOTS then slot * 0x4_0000 + a % 0x4_0000 else 0
  }

  /** pcie_translate_addr_64: the slot number above the 18-bit offset; 0 for an invalid slot. */
  function TranslateAddr(a: u64, slot: int): (r: u32)
    ensures slot != SLOTS ==> r == SlotAddr(a, slot)
    ensures slot < 0 || slot > SLOTS ==> r == 0
  {
    if slot < 0 || slot > SLOTS then 0
    else
      Pow2Values();
      AndLowMask(a, 18);
      OrShifted(slot, a % WINDOW, 18);
      Or(slot * WINDOW, And(a, 0x3_FFFF))
  }

  // ----- The table as a value ------------------------------------------------------------------

  datatype Slot = Free | Used(page: u64, channel: u8)
  type Table = t: seq<Slot> | |t| == SLOTS witness seq(SLOTS, _ => Free)

  predicate Matches(s: Slot, channel: u8) {
    s.Used? && (channel == ANY_CHANNEL || s.channel == channel)
  }

  predicate Holds(s: Slot, page: u64, channel: u8) {
    Matches(s, channel) && s.page == page
  }

  /** The first free slot from i on, or -1. */
  function FirstFree(t: Table, i: nat): (r: int)
    requires i <= SLOTS
    ensures -1 <= r < SLOTS
    decreases SLOTS - i
  {
    if i == SLOTS then -1 else if t[i].Free? then i else FirstFree(t, i + 1)
  }

  /** The first slot from i on that holds the page for the channel, or -1. */
  function FindValue(t: Table, page: u64, channel: u8, i: nat): (r: int)
    requires i <= SLOTS
    ensures -1 <= r < SLOTS
    decreases SLOTS - i
  {
    if i == SLOTS then -1 else if Holds(t[i], page, channel) then i
    else FindValue(t, page, channel, i + 1)
  }

  lemma {:induction false} FirstFreeExact(t: Table, i: nat)
    requires i <= SLOTS
    ensures var r := FirstFree(t, i);
      if r == -1 then forall j | i <= j < SLOTS :: t[j].Used?
      else i <= r && t[r].Free? && forall j | i <= j < r :: t[j].Used?
    decreases SLOTS - i
  {
    if i < SLOTS && t[i].Used? {
      FirstFreeExact(t, i + 1);
    }
  }

  lemma {:induction false} FindValueSlot(t: Table, page: u64, channel: u8, i: nat)
    requires i <= SLOTS
    ensures var r := FindValue(t, page, channel, i);
      if r == -1 then forall j | i <= j < SLOTS :: !Holds(t[j], page, channel)
      else i <= r && Holds(t[r], page, channel) && forall j | i <= j < r :: !Holds(t[j], page, channel)
    decreases SLOTS - i
  {
    if i < SLOTS && !Holds(t[i], page, channel) {
      FindValueSlot(t, page, channel, i + 1);
    }
  }

  function FreeSlots(t: Table, channel: u8): Table {
    seq(SLOTS, i requires 0 <= i < SLOTS => if Matches(t[i], channel) then Free else t[i])
  }

  /** What the table says about one channel: the pages it holds. */
  function PagesOf(t: Table, channel: u8): set<u64> {
    set i | 0 <= i < SLOTS && t[i].Used? && t[i].channel == channel :: t[i].page
  }

  /** No channel holds the same page in two slots. */
  ghost predicate NoDuplicates(t: Table) {
    forall i, j | 0 <= i < j < SLOTS && t[i].Used? && t[j].Used? && t[i].channel == t[j].channel ::
      t[i].page != t[j].page
  }

  ghost predicate PagesAligned(t: Table) {
    forall i | 0 <= i < SLOTS && t[i].Used? :: t[i].page % WINDOW == 0
  }

  /** The slots of all other channels are the same in both tables. */
  ghost predicate OthersUnchanged(t: Table, t': Table, channel: u8) {
    forall i | 0 <= i < SLOTS
      && ((t[i].Used? && t[i].channel != channel) || (t'[i].Used? && t'[i].channel != channel)) ::
      t'[i] == t[i]
  }

  // ----- The table as the driver keeps it ---------------------------------------------------------

  /** used_mask |= 1 << i changes bit i alone. */
  lemma {:induction false} SetBit(mask: u16, i: nat)
    requires i < SLOTS
    ensures Or(mask, Pow2(i)) < TWO16
    ensures forall j | 0 <= j < SLOTS :: BitOf(Or(mask, Pow2(i)), j) <==> i == j || BitOf(mask, j)
  {
    Pow2Values();
    Pow2Mono(i, 16);
    OrFits(mask, Pow2(i), 16);
    forall j | 0 <= j < SLOTS
      ensures BitOf(Or(mask, Pow2(i)), j) <==> i == j || BitOf(mask, j)
    {
      BitOfOr(mask, Pow2(i), j);
      BitOfPow2(i, j);
    }
  }

  /** used_mask &= ~(1 << i) changes bit i alone. */
  lemma {:induction false} ClearBit(mask: u16, i: nat)
    requires i < SLOTS
    ensures Pow2(i) < TWO16 && And(mask, Not16(Pow2(i))) < TWO16
    ensures forall j | 0 <= j < SLOTS ::
              BitOf(And(mask, Not16(Pow2(i))), j) <==> i != j && BitOf(mask, j)
  {
    Pow2Values();
    Pow2Mono(i, 16);
    AndFits(mask, Not16(Pow2(i)));
    forall j | 0 <= j < SLOTS
      ensures BitOf(And(mask, Not16(Pow2(i))), j) <==> i != j && BitOf(mask, j)
    {
      BitOfAnd(mask, Not16(Pow2(i)), j);
      BitOfComplement(Pow2(i), 16, j);
      BitOfPow2(i, j);
    }
  }

  /** find_first_zero_u16, the portable version: halves the word four times. Its result is never
      16 or more, so a full word is reported by -1 alone. */
  method FindFirstZero(mask: u16) returns (n: int)
    ensures n == -1 ==> forall j | 0 <= j < SLOTS :: BitOf(mask, j)
    ensures n != -1 ==> 0 <= n < SLOTS && !BitOf(mask, n) && forall j | 0 <= j < n :: BitOf(mask, j)
  {
    Pow2Values();
    var inverted: nat := Not16(mask);
    ghost var whole := inverted;
    if inverted == 0 {
      forall j | 0 <= j < SLOTS ensures BitOf(mask, j) {
        BitOfComplement(mask, 16, j);
        BitOfZero(j);
      }
      return -1;
    }
    SmallMod(inverted, TWO16);
    assert inverted == inverted * Pow2(0);
    n := 0;
    inverted, n := Narrow(whole, inverted, n, 8);
    inverted, n := Narrow(whole, inverted, n, 4);
    inverted, n := Narrow(whole, inverted, n, 2);
    inverted, n := Narrow(whole, inverted, n, 1);
    FirstZeroFound(mask, inverted, n);
  }

  /** One step of the search: shifts out the k low bits if they are all clear. */
  method Narrow(ghost whole: nat, inverted0: nat, n0: nat, k: nat) returns (inverted: nat, n: nat)
    requires whole == inverted0 * Pow2(n0) && inverted0 % Pow2(2 * k) != 0
    ensures whole == inverted * Pow2(n) && inverted % Pow2(k) != 0
  {
    inverted, n := inverted0, n0;
    AndLowMask(inverted, k);
    if And(inverted, Pow2(k) - 1) == 0 {
      inverted := inverted / Pow2(k);
      n := n + k;
      ShiftOut(whole, inverted0, n0, k);
    }
  }

  lemma {:induction false} ShiftOut(whole: nat, x: nat, n: nat, k: nat)
    requires whole == x * Pow2(n) && x % Pow2(k) == 0 && x % Pow2(2 * k) != 0
    ensures whole == (x / Pow2(k)) * Pow2(n + k) && (x / Pow2(k)) % Pow2(k) != 0
  {
    var m, y := Pow2(k), x / Pow2(k);
    assert x == y * m;
    Pow2Add(n, k);
    Pow2Add(k, k);
    Reassociate(y, m, Pow2(n));
    if y % m == 0 {
      var z := y / m;
      assert y == z * m;
      Reassociate(z, m, m);
      DivModUnique(x, z, 0, Pow2(2 * k));
    }
  }

  lemma {:induction false} Reassociate(x: nat, y: nat, z: nat)
    ensures (x * y) * z == x * (z * y)
  {
  }

  lemma {:induction false} FirstZeroFound(mask: u16, odd: nat, n: nat)
    requires odd % Pow2(1) != 0 && Not16(mask) == odd * Pow2(n)
    ensures n < SLOTS && !BitOf(mask, n) && forall j | 0 <= j < n :: BitOf(mask, j)
  {
    Pow2Values();
    MulMono(1, odd, Pow2(n));
    Pow2Mono(n, 16);
    forall j | 0 <= j <= n ensures BitOf(mask, j) <==> j != n {
      LowestSetBit(odd, n, j);
      BitOfComplement(mask, 16, j);
    }
  }

  /** altera_pcie_page_table */
  class PageTable {
    const pages: array<u64>
    const activeChannel: array<u8>
    var usedMask: u16

    predicate Valid()
      reads this
    {
      pages.Length == SLOTS && activeChannel.Length == SLOTS && activeChannel as object != pages
    }

    /** The table this object stands for. */
    function View(): Table
      requires Valid()
      reads this, pages, activeChannel
    {
      seq(SLOTS, i requires 0 <= i < SLOTS reads this, pages, activeChannel requires Valid() =>
        if BitOf(usedMask, i) then Used(pages[i], activeChannel[i]) else Free)
    }

    constructor ()
      ensures Valid() && fresh(pages) && fresh(activeChannel)
      ensures View() == seq(SLOTS, _ => Free)
    {
      pages := new u64[SLOTS](_ => 0);
      activeChannel := new u8[SLOTS](_ => 0);
      usedMask := 0;
      new;
      forall i: nat | i < SLOTS ensures !BitOf(usedMask, i) { BitOfZero(i); }
    }

    /** pcie_page_alloc, with the early return on a full table that its guard intends. */
    method Alloc(value: u64, channel: u8) returns (slot: int)
      requires Valid()
      modifies this, pages, activeChannel
      ensures Valid()
      ensures slot == FirstFree(old(View()), 0)
      ensures slot == -1 ==> View() == old(View())
      ensures slot != -1 ==> View() == old(View())[slot := Used(value, channel)]
    {
      ghost var t := View();
      FirstFreeExact(t, 0);
      slot := FindFirstZero(usedMask);
      assert forall j | 0 <= j < SLOTS :: t[j].Used? <==> BitOf(usedMask, j);
      if slot != -1 {
        Take(slot, value, channel);
      }
    }

    /** The second half of pcie_page_alloc. */
    method Take(slot: nat, value: u64, channel: u8)
      requires Valid() && slot < SLOTS
      modifies this, pages, activeChannel
      ensures Valid() && View() == old(View())[slot := Used(value, channel)]
    {
      ghost var mask := usedMask;
      ghost var t := View();
      pages[slot] := value;
      activeChannel[slot] := channel;
      SetBit(mask, slot);
      usedMask := Or(usedMask, Pow2(slot));
      assert forall j | 0 <= j < SLOTS :: View()[j] == t[slot := Used(value, channel)][j];
    }

    /** pcie_page_free: an invalid slot is ignored. */
    method FreeSlot(slot: int)
      requires Valid()
      modifies this, pages, activeChannel
      ensures Valid()
      ensures 0 <= slot < SLOTS ==> View() == old(View())[slot := Free]
      ensures !(0 <= slot < SLOTS) ==> View() == old(View())
    {
      if slot < 0 || slot >= SLOTS {
        return;
      }
      ghost var t := View();
      ClearBit(usedMask, slot);
      pages[slot] := 0;
      activeChannel[slot] := 0;
      usedMask := And(usedMask, Not16(Pow2(slot)));
      assert forall j | 0 <= j < SLOTS :: View()[j] == t[slot := Free][j];
    }

    /** pcie_page_free_by_channel_id */
    method FreeByChannel(channel: u8)
      requires Valid()
      modifies this, pages, activeChannel
      ensures Valid()
      ensures View() == FreeSlots(old(View()), channel)
    {
      ghost var t := View();
      var slot := 0;
      while slot < SLOTS
        invariant 0 <= slot <= SLOTS && Valid()
        invariant forall j | 0 <= j < slot :: View()[j] == FreeSlots(t, channel)[j]
        invariant forall j | slot <= j < SLOTS :: View()[j] == t[j]
      {
        assert View()[slot] == t[slot];
        TestBit(usedMask, slot);
        if And(usedMask, Pow2(slot)) != 0 && (channel == ANY_CHANNEL || activeChannel[slot] == channel) {
          FreeSlot(slot);
        }
        slot := slot + 1;
      }
    }

    /** pcie_page_find_value */
    method Find(value: u64, channel: u8) returns (slot: int)
      requires Valid()
      ensures slot == FindValue(View(), value, channel, 0)
    {
      slot := 0;
      while slot < SLOTS
        invariant 0 <= slot <= SLOTS
        invariant FindValue(View(), value, channel, 0) == FindValue(View(), value, channel, slot)
      {
        assert View()[slot].Used? <==> BitOf(usedMask, slot);
        TestBit(usedMask, slot);
        if And(usedMask, Pow2(slot)) != 0 && (channel == ANY_CHANNEL || activeChannel[slot] == channel) {
          if pages[slot] == value {
            return;
          }
        }
        slot := slot + 1;
      }
      slot := -1;
    }
  }

  // ----- What the operations keep ---------------------------------------------------------------------

  /** Freeing a channel's slots leaves it none and touches no other channel. */
  lemma {:induction false} FreeSlotsIsolation(t: Table, channel: u8)
    requires channel != ANY_CHANNEL
    ensures PagesOf(FreeSlots(t, channel), channel) == {}
    ensures OthersUnchanged(t, FreeSlots(t, channel), channel)
    ensures NoDuplicates(t) ==> NoDuplicates(FreeSlots(t, channel))
    ensures PagesAligned(t) ==> PagesAligned(FreeSlots(t, channel))
  {
  }

  /** Taking the first free slot for a page that the channel does not hold yet adds that page and
      touches no other channel. */
  lemma {:induction false} AllocIsolation(t: Table, slot: int, page: u64, channel: u8)
    requires slot == FirstFree(t, 0) != -1 && channel != ANY_CHANNEL
    requires page !in PagesOf(t, channel)
    ensures var t' := t[slot := Used(page, channel)];
      && OthersUnchanged(t, t', channel)
      && PagesOf(t', channel) == PagesOf(t, channel) + {page}
      && (NoDuplicates(t) ==> NoDuplicates(t'))
      && (PagesAligned(t) && page % WINDOW == 0 ==> PagesAligned(t'))
      && forall i | 0 <= i < SLOTS && t[i].Used? :: t'[i] == t[i]
  {
    FirstFreeExact(t, 0);
    var t' := t[slot := Used(page, channel)];
    assert t'[slot].page == page;
    forall q | q in PagesOf(t, channel) ensures q in PagesOf(t', channel) {
      var i :| 0 <= i < SLOTS && t[i].Used? && t[i].channel == channel && t[i].page == q;
      assert t'[i] == t[i];
    }
  }

  /** The search finds exactly the pages that the channel holds. */
  lemma {:induction false} FindValueExact(t: Table, page: u64, channel: u8)
    requires channel != ANY_CHANNEL
    ensures var r := FindValue(t, page, channel, 0);
      && (r != -1 <==> page in PagesOf(t, channel))
      && (r != -1 ==> t[r] == Used(page, channel))
  {
    FindValueSlot(t, page, channel, 0);
  }
}
