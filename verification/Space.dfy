/** When the translation table has room: the relocation of a list, and the start of a transfer,
    decided by a count made beforehand. */
module Space {
  import opened Words
  import opened Descriptors
  import opened PageTable
  import opened Translate
  import opened Publish

  function FreeOf(t: Table): set<nat> {
    set i: nat | i < SLOTS && t[i].Free?
  }

  /** How many slots are free. */
  function FreeCount(t: Table): nat {
    |FreeOf(t)|
  }

  /** The pages among the first k that need a slot of their own: neither held beforehand nor seen
      before. A page at address 0 in front of all of them needs none, as curr_page starts at 0. */
  function NewPages(held: set<u64>, pages: seq<u64>, k: nat): set<u64>
    requires k <= |pages|
  {
    if k == 0 then {}
    else
      var before := NewPages(held, pages, k - 1);
      if pages[k - 1] in held || (before == {} && pages[k - 1] == 0) then before else before + {pages[k - 1]}
  }

  function PageSet(pages: seq<u64>): set<u64> {
    set p | p in pages
  }

  /** Without a page at address 0 these are simply the distinct pages that are not held. */
  lemma {:induction false} NewPagesDistinct(held: set<u64>, pages: seq<u64>, k: nat)
    requires k <= |pages| && 0 !in pages
    ensures NewPages(held, pages, k) == PageSet(pages[..k]) - held
  {
    if k > 0 {
      NewPagesDistinct(held, pages, k - 1);
      assert pages[..k] == pages[..k - 1] + [pages[k - 1]];
    }
  }

  lemma {:induction false} NewPagesGrow(held: set<u64>, pages: seq<u64>, k: nat, n: nat)
    requires k <= n <= |pages|
    ensures NewPages(held, pages, k) <= NewPages(held, pages, n)
    ensures |NewPages(held, pages, k)| <= |NewPages(held, pages, n)|
    decreases n - k
  {
    if k < n {
      NewPagesGrow(held, pages, k, n - 1);
      var old', now' := NewPages(held, pages, n - 1), NewPages(held, pages, n);
      if now' != old' {
        assert now' == old' + {pages[n - 1]};
      }
    }
  }

  lemma {:induction false} NewPagesFew(held: set<u64>, pages: seq<u64>, k: nat)
    requires k <= |pages|
    ensures |NewPages(held, pages, k)| <= k
    ensures forall p | p in NewPages(held, pages, k) :: p in pages
  {
    if k > 0 {
      NewPagesFew(held, pages, k - 1);
    }
  }

  function Below(n: nat): (s: set<nat>)
    ensures |s| == n && forall i: nat :: i in s <==> i < n
  {
    if n == 0 then {} else Below(n - 1) + {n - 1}
  }

  lemma {:induction false} AllFree(t: Table, n: nat)
    requires n == SLOTS && forall i | 0 <= i < SLOTS :: t[i].Free?
    ensures FreeCount(t) == n
  {
    assert FreeOf(t) == Below(n);
  }

  lemma {:induction false} TakeSlot(t: Table, page: u64, channel: u8)
    ensures FirstFree(t, 0) == -1 <==> FreeCount(t) == 0
    ensures var slot := FirstFree(t, 0);
      slot != -1 ==> FreeCount(t[slot := Used(page, channel)]) == FreeCount(t) - 1
  {
    FirstFreeExact(t, 0);
    var slot := FirstFree(t, 0);
    if slot == -1 {
      assert FreeOf(t) == {};
    } else {
      assert slot in FreeOf(t);
      assert FreeOf(t[slot := Used(page, channel)]) == FreeOf(t) - {slot};
    }
  }

  /** The run so far: a slot for every new page as long as there are enough, and full since the
      first one without. */
  ghost predicate Counted(t: Table, channel: u8, addrs: seq<u64>, k: nat)
    requires k <= |addrs|
  {
    var s, new' := RunTo(t, channel, addrs, k), NewPages(PagesOf(t, channel), Pages(addrs), k);
    if |new'| > FreeCount(t) then s.full
    else
      && !s.full && FreeCount(s.table) == FreeCount(t) - |new'| && s.used == |new'|
      && PagesOf(s.table, channel) == PagesOf(t, channel) + new'
      && (if new' == {} then s.currPage == 0 else s.currPage in new')
  }

  lemma {:induction false} CountStep(t: Table, channel: u8, addrs: seq<u64>, k: nat)
    requires k < |addrs| && channel != ANY_CHANNEL && Counted(t, channel, addrs, k)
    ensures Counted(t, channel, addrs, k + 1)
  {
    var s, pages, held := RunTo(t, channel, addrs, k), Pages(addrs), PagesOf(t, channel);
    var new', page := NewPages(held, pages, k), pages[k];
    NewPagesGrow(held, pages, k, k + 1);
    if !s.full {
      FindValueExact(s.table, page, channel);
      TakeSlot(s.table, page, channel);
      if s.currPage != page && FindValue(s.table, page, channel, 0) == -1 {
        assert NewPages(held, pages, k + 1) == new' + {page} && page !in new';
        if FirstFree(s.table, 0) != -1 {
          AllocIsolation(s.table, FirstFree(s.table, 0), page, channel);
        }
      } else {
        assert NewPages(held, pages, k + 1) == new';
      }
    }
  }

  lemma {:induction false} CountAll(t: Table, channel: u8, addrs: seq<u64>, k: nat)
    requires k <= |addrs| && channel != ANY_CHANNEL
    ensures Counted(t, channel, addrs, k)
  {
    if k > 0 {
      CountAll(t, channel, addrs, k - 1);
      CountStep(t, channel, addrs, k - 1);
    }
  }

  /** A relocation finds the table full exactly if its new pages are more than the free slots. */
  lemma {:induction false} RunFullExact(t: Table, channel: u8, addrs: seq<u64>)
    requires channel != ANY_CHANNEL
    ensures Run(t, channel, addrs).full
            <==> |NewPages(PagesOf(t, channel), Pages(addrs), |addrs|)| > FreeCount(t)
  {
    CountAll(t, channel, addrs, |addrs|);
  }

  /** A relocation that succeeds uses as many entries of the table as there are new pages, and then the channel
      holds exactly these and the ones from before. */
  lemma {:induction false} RunUsesExact(t: Table, channel: u8, addrs: seq<u64>)
    requires channel != ANY_CHANNEL && !Run(t, channel, addrs).full
    ensures var s, new' := Run(t, channel, addrs), NewPages(PagesOf(t, channel), Pages(addrs), |addrs|);
      s.used == |new'| && PagesOf(s.table, channel) == PagesOf(t, channel) + new'
  {
    CountAll(t, channel, addrs, |addrs|);
  }

  /** The test on a start: a slot for the list, and one for every page of the data that the channel
      then does not have. */
  predicate HasRoom(t: Table, p: Params, bus: u64, addrs: seq<u64>) {
    1 + |NewPages(PagesOf(t, p.channel) + {PageBase(bus)}, Pages(addrs), |addrs|)| <= FreeCount(t)
  }

  lemma {:induction false} ListTableCounts(t: Table, channel: u8, bus: u64)
    requires FirstFree(t, 0) != -1 && channel != ANY_CHANNEL
    ensures FreeCount(ListTable(t, channel, bus)) == FreeCount(t) - 1
    ensures PagesOf(ListTable(t, channel, bus), channel) == PagesOf(t, channel) + {PageBase(bus)}
  {
    TakeSlot(t, PageBase(bus), channel);
    ListTablePages(t, channel, bus);
  }

  /** A transfer starts exactly if it is from the device and the table has room. Without any free
      slot nothing happens; every other failure leaves the channel in ERROR. */
  lemma {:induction false} StartExact(t: Table, p: Params, bus: u64, addrs: seq<u64>)
    requires p.channel < NUM_CHANNELS
    ensures var s := StartTable(t, p, bus, addrs).1;
      && (s == Running <==> p.direction == FROM_DEVICE && HasRoom(t, p, bus, addrs))
      && (s == Initialized <==> FreeCount(t) == 0)
      && (s == Running || s == Initialized || s == Error)
  {
    TakeSlot(t, PageBase(bus), p.channel);
    if FirstFree(t, 0) != -1 {
      ListTableCounts(t, p.channel, bus);
      RunFullExact(ListTable(t, p.channel, bus), p.channel, addrs);
    }
  }
}
