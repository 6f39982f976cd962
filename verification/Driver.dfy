/** The driver's code: the functions of request.c, dma.c and main.c that update the device, each
    proved to do what its step says. */
module Driver {
  import opened Words
  import opened Bits
  import opened Descriptors
  import opened PageTable
  import opened Translate
  import opened Publish
  import opened Lifecycle
  import Stream

  /** TPCE_IRQ_DMA0, TPCE_IRQ_DMA1, TPCE_IRQ_DMA2 */
  function IrqMask(c: ChannelId): u32 {
    if c == 0 then 0x001 else if c == 1 then 0x100 else 0x400
  }

  function IrqBit(c: ChannelId): nat {
    if c == 0 then 0 else if c == 1 then 8 else 10
  }

  lemma {:induction false} IrqMaskIsBit(c: ChannelId)
    ensures IrqMask(c) == Pow2(IrqBit(c)) && IrqMask(c) < Pow2(32)
  {
    Pow2Values();
    assert Pow2(8) == 0x100;
    assert Pow2(10) == 4 * Pow2(8);
  }

  predicate HasIrq(mask: u32, c: ChannelId) {
    BitOf(mask, IrqBit(c))
  }

  /** The channels whose interrupt is in the mask. */
  function Irqs(mask: u32): (s: set<ChannelId>)
    ensures forall c: ChannelId :: c in s <==> HasIrq(mask, c)
  {
    (if HasIrq(mask, 0) then {0} else {}) + (if HasIrq(mask, 1) then {1} else {})
    + (if HasIrq(mask, 2) then {2} else {})
  }

  /** In numbers: the interrupts of channels 0, 1 and 2 are bits 0, 8 and 10 of the register. */
  lemma {:induction false} IrqBits(x: u32)
    ensures 0 in Irqs(x) <==> x % 2 == 1
    ensures 1 in Irqs(x) <==> x / 256 % 2 == 1
    ensures 2 in Irqs(x) <==> x / 1024 % 2 == 1
  {
    Pow2Values();
    assert Pow2(0) == 1 && Pow2(8) == 256;
    assert Pow2(10) == 4 * Pow2(8);
    BitOfDiv(x, 0);
    BitOfDiv(x, 8);
    BitOfDiv(x, 10);
  }

  lemma {:induction false} OrIrq(mask: u32, more: u32)
    ensures Or(mask, more) < TWO32 && Irqs(Or(mask, more)) == Irqs(mask) + Irqs(more)
  {
    Pow2Values();
    OrFits(mask, more, 32);
    forall c: ChannelId ensures HasIrq(Or(mask, more), c) <==> HasIrq(mask, c) || HasIrq(more, c) {
      BitOfOr(mask, more, IrqBit(c));
    }
  }

  lemma {:induction false} OneIrq(c: ChannelId)
    ensures Irqs(IrqMask(c)) == {c}
  {
    IrqMaskIsBit(c);
    forall k: ChannelId ensures HasIrq(IrqMask(c), k) <==> k == c {
      BitOfPow2(IrqBit(c), IrqBit(k));
    }
  }

  lemma {:induction false} ClearIrq(mask: u32, gone: u32)
    ensures And(mask, Not32(gone)) < TWO32 && Irqs(And(mask, Not32(gone))) == Irqs(mask) - Irqs(gone)
  {
    Pow2Values();
    AndFits(mask, Not32(gone));
    forall c: ChannelId ensures HasIrq(And(mask, Not32(gone)), c) <==> HasIrq(mask, c) && !HasIrq(gone, c) {
      BitOfAnd(mask, Not32(gone), IrqBit(c));
      BitOfComplement(gone, 32, IrqBit(c));
    }
  }

  lemma {:induction false} TestIrq(mask: u32, c: ChannelId)
    ensures And(mask, IrqMask(c)) != 0 <==> HasIrq(mask, c)
  {
    IrqMaskIsBit(c);
    TestBit(mask, IrqBit(c));
  }

  /** tpce_dev. turn is where the ioctl that holds the mutex is, and engines are the running DMA controllers
      of the hardware; they are not fields of the source. */
  class Driver {
    const table: PageTable
    var ch: Channels
    var maps: map<nat, MapInfo>
    var files: map<nat, seq<nat>>
    var engines: set<ChannelId>
    var fastIrqMask: u32
    var irqsrc: u32
    var work: set<ChannelId>
    ghost var turn: Turn

    ghost predicate Valid()
      reads this, table
    {
      table.Valid()
    }

    ghost function View(): Device
      requires Valid()
      reads this, table, table.pages, table.activeChannel
    {
      Device(ch, maps, files, table.View(), engines, Irqs(fastIrqMask), Irqs(irqsrc), work, turn)
    }

    constructor ()
      ensures Valid() && fresh(table) && fresh(table.pages) && fresh(table.activeChannel)
      ensures View() == Start()
    {
      table := new PageTable();
      ch := [NEW_CHANNEL, NEW_CHANNEL, NEW_CHANNEL];
      maps := map[DRIVER_BUFFER_ID := MapInfo(None, BIDIRECTIONAL, -1)];
      files := map[];
      engines, fastIrqMask, irqsrc, work, turn := {}, 0, 0, {}, Ready;
      new;
      forall c: ChannelId ensures !HasIrq(0, c) {
        BitOfZero(IrqBit(c));
      }
    }

    // ----- Stopping ------------------------------------------------------------------------------

    /** reset_dma_controller resets the controller that the channel's params name. */
    method ResetController(c: ChannelId)
      modifies this`engines
      ensures engines == old(engines) - {ch[c].target}
    {
      engines := engines - {ch[c].target};
    }

    /** tpce_dma_abort, with disable_stream_irq */
    method Abort(c: ChannelId)
      requires Valid()
      modifies this`engines, this`fastIrqMask, this`ch
      ensures Valid() && View() == Lifecycle.Abort(old(View()), c)
    {
      OneIrq(c);
      ClearIrq(fastIrqMask, IrqMask(c));
      fastIrqMask := And(fastIrqMask, Not32(IrqMask(c)));
      ResetController(c);
      if ch[c].state != Running {
        return;
      }
      ch := ch[c := ch[c].(state := Error)];
    }

    /** tpce_free_stream_info */
    method FreeStreamInfo(c: ChannelId)
      requires Valid()
      modifies this`ch
      ensures Valid() && View() == SetChannel(old(View()), c, old(ch)[c].(page := FreePage(old(ch)[c].page)))
    {
      var page := ch[c].page.(refs := ch[c].page.refs - 1);
      if page.refs == 0 {
        page := page.(present := false);
      }
      ch := ch[c := ch[c].(page := page)];
    }

    /** reset_dma_info */
    method ResetDmaInfo(c: ChannelId)
      requires Valid()
      modifies this`engines, this`fastIrqMask, this`ch, this`maps, table, table.pages, table.activeChannel
      ensures Valid() && View() == Reset(old(View()), c)
    {
      if ch[c].state == Idle {
        return;
      }
      if ch[c].state == Running {
        Abort(c);
      }
      GiveUp(c);
    }

    /** The rest of reset_dma_info, once the channel has stopped. */
    method GiveUp(c: ChannelId)
      requires Valid() && ch[c].state != Idle && ch[c].state != Running
      modifies this`engines, this`fastIrqMask, this`ch, this`maps, table, table.pages, table.activeChannel
      ensures Valid() && View() == Reset(old(View()), c)
    {
      ghost var d := View();
      table.FreeByChannel(c as u8);
      if ch[c].mapping.Some? {
        if ch[c].mapping.value in maps {
          maps := maps[ch[c].mapping.value := maps[ch[c].mapping.value].(active := -1)];
        }
        ch := ch[c := ch[c].(mapping := None)];
      }
      if ch[c].IsStream() {
        FreeStreamInfo(c);
      }
      ch := ch[c := ch[c].(descSize := 0, state := Idle)];
      assert ch == Reset(d, c).ch;
    }

    /** tpce_safe_dma_unmap */
    method SafeUnmap(id: nat)
      requires Valid() && id in maps && -1 <= maps[id].active < 3
      modifies this`engines, this`fastIrqMask, this`ch, this`maps, table, table.pages, table.activeChannel
      ensures Valid() && View() == Unmap(old(View()), id)
    {
      if maps[id].active >= 0 {
        var c := maps[id].active as ChannelId;
        Abort(c);
        ResetDmaInfo(c);
      }
      maps := maps - {id};
    }

    /** ioc_dma_cancel */
    method Cancel(n: u32)
      requires Valid() && turn == Ready
      modifies this`engines, this`fastIrqMask, this`ch, this`maps, table, table.pages, table.activeChannel
      ensures Valid() && View() == Next(old(View()), Step.Cancel(n))
    {
      if n >= NUM_CHANNELS {
        return;
      }
      Abort(n);
      ResetDmaInfo(n);
    }

    /** tpce_release: the loop over the mappings of the file. */
    method ReleaseFile(f: nat)
      requires Valid() && turn == Ready && f in files
      requires forall id | id in maps :: -1 <= maps[id].active < 3
      modifies this`engines, this`fastIrqMask, this`ch, this`maps, this`files, table, table.pages, table.activeChannel
      ensures Valid() && View() == Next(old(View()), Release(f))
    {
      ghost var d := View();
      var ids := files[f];
      var i := 0;
      while i < |ids|
        invariant 0 <= i <= |ids| && Valid() && files == d.files
        invariant View() == UnmapAll(d, ids[..i])
        invariant forall id | id in maps :: -1 <= maps[id].active < 3
      {
        assert ids[..i + 1][..i] == ids[..i] && ids[..i + 1][i] == ids[i];
        UnmapIfThere(ids[i]);
        i := i + 1;
      }
      assert ids[..i] == ids;
      files := files - {f};
    }

    method UnmapIfThere(id: nat)
      requires Valid() && forall k | k in maps :: -1 <= maps[k].active < 3
      modifies this`engines, this`fastIrqMask, this`ch, this`maps, table, table.pages, table.activeChannel
      ensures Valid() && View() == if id in old(maps) then Unmap(old(View()), id) else old(View())
      ensures files == old(files) && forall k | k in maps :: -1 <= maps[k].active < 3
    {
      if id in maps {
        SafeUnmap(id);
      }
    }

    /** ioc_lock_dma_buffer, once the pages are pinned and mapped. */
    method LockBuffer(f: nat, id: nat, direction: u8)
      requires Valid() && turn == Ready && f in files && id !in maps
      modifies this`maps, this`files
      ensures Valid() && View() == Next(old(View()), Lock(f, id, direction))
    {
      maps := maps[id := MapInfo(Some(f), direction, -1)];
      files := files[f := files[f] + [id]];
    }

    /** ioc_unlock_dma_buffer */
    method UnlockBuffer(f: nat, id: nat) returns (done: bool)
      requires Valid() && turn == Ready && f in files
      requires forall id | id in maps :: -1 <= maps[id].active < 3
      modifies this`engines, this`fastIrqMask, this`ch, this`maps, this`files, table, table.pages, table.activeChannel
      ensures Valid() && View() == Next(old(View()), Unlock(f, id))
      ensures done <==> id in old(maps) && old(maps)[id].owner == Some(f)
    {
      if id !in maps || maps[id].owner != Some(f) {
        return false;
      }
      files := files[f := Without(files[f], id)];
      SafeUnmap(id);
      done := true;
    }

    // ----- Executing ---------------------------------------------------------------------------------

    /** tpce_dma_alloc_descriptors_mem */
    method AllocDescriptorsMem(c: ChannelId, size: u32, memory: bool) returns (ok: bool)
      requires Valid()
      modifies this`ch
      ensures Valid()
      ensures var (ok', ch') := AllocList(old(ch)[c], size, memory);
        ok == ok' && View() == SetChannel(old(View()), c, ch')
    {
      ghost var was := ch;
      assert was[c := was[c]] == was;
      if size == 0 || size > 0x7FFF_FFFF {
        return false;
      }
      if size <= ch[c].descCapacity {
        ch := ch[c := ch[c].(descSize := size)];
        return true;
      }
      if ch[c].buffer {
        ch := ch[c := ch[c].(buffer := false, descSize := 0, descCapacity := 0)];
      }
      if !memory {
        return false;
      }
      ch := ch[c := ch[c].(buffer := true, descSize := size, descCapacity := size)];
      assert ch == was[c := ch[c]];
      ok := true;
    }

    /** tpce_init_stream_info */
    method InitStreamInfo(c: ChannelId, memory: bool) returns (ok: bool)
      requires Valid() && ch[c].Descs() < TWO32
      modifies this`ch
      ensures Valid()
      ensures var page := InitPage(old(ch)[c].page, W32(old(ch)[c].Descs()), memory);
        && (ok <==> page.Some?)
        && View() == if ok then SetChannel(old(View()), c, old(ch)[c].(page := page.value)) else old(View())
    {
      var page := ch[c].page;
      if !page.present {
        if !memory {
          return false;
        }
        page := page.(present := true, refs := 1);
      } else {
        page := page.(refs := page.refs + 1);
      }
      page := page.(counters := Stream.START, mask := 0);
      var n := ch[c].Descs();
      W32Fits(n);
      if IsPowerOf2(n) {
        page := page.(mask := n - 1);
      }
      ch := ch[c := ch[c].(page := page)];
      ok := true;
    }

    /** The descriptor list of init_dma_info: its buffer, its content, and its sizes. */
    method PrepareList(r: Request, e: Env) returns (ok: bool)
      requires Valid() && r.params.channel < NUM_CHANNELS
      requires r.user == None ==> ListFits(r, e.generated)
      modifies this`ch
      ensures Valid()
      ensures var c := r.params.channel as ChannelId;
        var (ok', ch') := MakeList(old(ch)[c], r, e);
        ok == ok' && View() == SetChannel(old(View()), c, ch')
    {
      var c := r.params.channel as ChannelId;
      var stream := r.params.transferMode == MODE_STREAM;
      var bytes := ListBytes(r);
      ok := AllocDescriptorsMem(c, if stream then bytes else W32(bytes + DESC_BYTES), e.bufferOk);
      W32Fits(bytes);
      if !ok || !e.listOk {
        return false;
      }
      if r.user.Some? {
        ch := ch[c := ch[c].(descActive := bytes)];
      } else {
        var size := if stream then e.generated * DESC_BYTES else (e.generated + 1) * DESC_BYTES;
        ch := ch[c := ch[c].(descSize := size, descActive := e.generated * DESC_BYTES)];
      }
    }

    /** init_dma_info, after its look-up of the mapping. */
    method InitDmaInfo(r: Request, e: Env) returns (ok: bool)
      requires Valid() && r.params.channel < NUM_CHANNELS && r.id in maps
      requires r.user == None ==> ListFits(r, e.generated)
      requires MakeList(ch[r.params.channel], r, e).1.Descs() < TWO32
      modifies this`ch, this`maps
      ensures Valid()
      ensures var (ok', d') := Init(old(View()), r, e);
        ok == ok' && View() == d'
    {
      var c := r.params.channel as ChannelId;
      ok := PrepareList(r, e);
      if !ok {
        return;
      }
      if r.params.transferMode == MODE_STREAM {
        ok := InitStreamInfo(c, e.pageOk);
        if !ok {
          return;
        }
      }
      ch := ch[c := ch[c].(target := c, mode := r.params.transferMode, bytesPerDesc := r.params.bytesPerDescriptor,
                           mapping := Some(r.id), state := Initialized)];
      maps := maps[r.id := maps[r.id].(active := c)];
    }

    /** dma_start: the list gets a slot, the addresses of its active descriptors are translated, the
        controller of the channel is started. */
    method StartDma(p: Params, e: Env, descs: array<Descriptor>, active: nat) returns (started: bool)
      requires Valid() && p.channel < NUM_CHANNELS && active <= descs.Length
      requires e.addrs == WriteAddrs(descs[..active]) && ch[p.channel].state == Initialized
      requires descs as object != table.pages && descs as object != table.activeChannel
      modifies this`ch, this`engines, table, table.pages, table.activeChannel, descs
      ensures Valid()
      ensures var (t, s) := StartTable(old(View()).table, p, e.busAddr, e.addrs);
        var d := Dispatched(old(View()), p.channel as ChannelId, false, t, if s == Running then Initialized else s);
        && (started <==> s == Running)
        && View() == d.(engines := if started then d.engines + {p.channel as ChannelId} else d.engines)
    {
      var c := p.channel as ChannelId;
      ghost var was := ch;
      var res, _ := StartOnTable(table, p, e.busAddr, descs, active);
      started := res == Started;
      if started {
        engines := engines + {c};
      }
      if res.RwFailed? {
        ch := ch[c := ch[c].(state := Error)];
      }
      assert ch == was[c := ch[c]];
    }

    /** enable_stream_irq */
    method EnableStreamIrq(c: ChannelId)
      requires Valid()
      modifies this`fastIrqMask
      ensures Valid() && View() == old(View()).(fastIrq := old(View()).fastIrq + {c})
    {
      OneIrq(c);
      OrIrq(fastIrqMask, IrqMask(c));
      fastIrqMask := Or(fastIrqMask, IrqMask(c));
    }

    /** dma_dispatch, with tpce_dma_start and tpce_dma_stream_start */
    method Dispatch(p: Params, e: Env, descs: array<Descriptor>, active: nat) returns (ok: bool)
      requires Valid() && p.channel < NUM_CHANNELS && active <= descs.Length
      requires e.addrs == WriteAddrs(descs[..active]) && ch[p.channel].state == Initialized
      requires descs as object != table.pages && descs as object != table.activeChannel
      modifies this`ch, this`engines, this`fastIrqMask, table, table.pages, table.activeChannel, descs
      ensures Valid() && View() == Lifecycle.Dispatch(old(View()), p, e)
      ensures ok <==> ch[p.channel].state == Running
    {
      if p.transferMode != MODE_DEFAULT && p.transferMode != MODE_STREAM {
        return false;
      }
      var c := p.channel as ChannelId;
      ghost var was := ch;
      if p.transferMode == MODE_STREAM {
        EnableStreamIrq(c);
      }
      ok := StartDma(p, e, descs, active);
      if ok {
        ch := ch[c := ch[c].(state := Running)];
      }
      assert ch == was[c := ch[c]];
    }

    /** ioc_dma_execute, until it waits, goes on to clean up, or returns. */
    method Execute(file: Option<nat>, r: Request, e: Env, descs: array<Descriptor>, active: nat)
      requires Valid() && active <= descs.Length && e.addrs == WriteAddrs(descs[..active])
      requires Enabled(View(), DoExecute(file, r, e))
      requires r.params.channel < NUM_CHANNELS ==> MakeList(ch[r.params.channel], r, e).1.Descs() < TWO32
      requires descs as object != table.pages && descs as object != table.activeChannel
      modifies this`ch, this`maps, this`engines, this`fastIrqMask, this`turn
      modifies table, table.pages, table.activeChannel, descs
      ensures Valid() && View() == Next(old(View()), DoExecute(file, r, e))
    {
      var verdict := ValidateRequest(file, r);
      if verdict != Ok {
        return;
      }
      var c := r.params.channel as ChannelId;
      var ok := InitDmaInfo(r, e);
      if !ok {
        return;
      }
      ok := Dispatch(r.params, e, descs, active);
      if !ok {
        turn := Cleaning(c);
      } else if r.params.transferMode != MODE_STREAM {
        turn := Waiting(c);
      }
    }

    /** validate_dma_request */
    method ValidateRequest(file: Option<nat>, r: Request) returns (v: Verdict)
      requires Valid()
      ensures v == Validate(View(), file, r)
    {
      var p := r.params;
      if p.channel >= NUM_CHANNELS || r.id !in maps {
        return Invalid;
      }
      var m := maps[r.id];
      if m.owner.Some? && m.owner != file {
        return Invalid;
      }
      if m.direction != BIDIRECTIONAL && p.direction != m.direction {
        return Invalid;
      }
      if ch[p.channel].state != Idle {
        return Busy;
      }
      if p.direction != TO_DEVICE && p.direction != FROM_DEVICE {
        return Invalid;
      }
      if r.user.Some? {
        if r.user.value.size > 256 * DESC_BYTES {
          return TooLarge;
        }
        if !r.user.value.typeOk || r.user.value.size % DESC_BYTES != 0 {
          return Invalid;
        }
      }
      v := Ok;
    }

    /** The last part of dma_execute. */
    method CleanUp(c: ChannelId)
      requires Valid() && turn == Cleaning(c)
      modifies this`engines, this`fastIrqMask, this`ch, this`maps, this`turn, table, table.pages, table.activeChannel
      ensures Valid() && View() == Next(old(View()), Cleanup)
    {
      ResetDmaInfo(c);
      turn := Ready;
    }

    // ----- Interrupts --------------------------------------------------------------------------------

    /** tpce_dma_work, with tpce_dma_completion */
    method DmaWork(c: ChannelId)
      requires Valid() && c in work
      modifies this`ch, this`work
      ensures Valid() && View() == Next(old(View()), Work(c))
    {
      work := work - {c};
      assert ch[c := ch[c]] == ch;
      if !ch[c].IsStream() && ch[c].state == Running {
        ch := ch[c := ch[c].(state := Complete)];
      }
    }

    /** tpce_tasklet: the queued work of each channel. */
    method Tasklet()
      requires Valid()
      modifies this`irqsrc, this`work
      ensures Valid() && View() == Next(old(View()), Step.Tasklet)
    {
      var src := irqsrc;
      irqsrc := 0;
      NoIrqs();
      QueueWork(src, 0);
      QueueWork(src, 1);
      QueueWork(src, 2);
      assert work == old(work) + Irqs(src);
    }

    method QueueWork(src: u32, c: ChannelId)
      modifies this`work
      ensures work == old(work) + Irqs(src) * {c}
    {
      TestIrq(src, c);
      if And(src, IrqMask(c)) != 0 {
        work := work + {c};
      }
    }

    /** tpce_isr: a fast interrupt is handled, every other one is left to the tasklet. */
    method Isr(irqreg: u32, hi: seq<u16>) returns (handled: bool)
      requires Valid() && |hi| == 3
      modifies this`ch, this`irqsrc
      ensures Valid() && View() == DoIrqs(old(View()), Irqs(irqreg), hi)
      ensures handled <==> irqreg != 0
    {
      ghost var d := View();
      IrqsTogether(d, Irqs(irqreg), hi);
      assert FastPages(ch, {}, hi) == ch;
      if irqreg == 0 {
        NoIrqs();
        return false;
      }
      AndIrq(irqreg, fastIrqMask);
      HandleFast(And(irqreg, fastIrqMask), hi);
      ClearIrq(irqreg, fastIrqMask);
      var rest: u32 := And(irqreg, Not32(fastIrqMask));
      OrIrq(irqsrc, rest);
      irqsrc := Or(irqsrc, rest);
      handled := true;
    }

    /** The fast part of tpce_isr. */
    method HandleFast(fast: u32, hi: seq<u16>)
      requires |hi| == 3
      modifies this`ch
      ensures ch == FastPages(old(ch), Irqs(fast), hi)
    {
      HandleIfSet(fast, 0, hi[0]);
      HandleIfSet(fast, 1, hi[1]);
      HandleIfSet(fast, 2, hi[2]);
    }

    method HandleIfSet(fast: u32, c: ChannelId, hi: u16)
      modifies this`ch
      ensures ch == if HasIrq(fast, c) then old(ch)[c := Handled(old(ch)[c], hi)] else old(ch)
    {
      TestIrq(fast, c);
      if And(fast, IrqMask(c)) != 0 {
        HandleStream(c, hi);
      }
    }

    /** dma_stream_irq_handler on the record of the channel. */
    method HandleStream(c: ChannelId, hi: u16)
      modifies this`ch
      ensures ch == old(ch)[c := Handled(old(ch)[c], hi)]
    {
      ch := ch[c := ch[c].(page := StreamIrq(ch[c], hi))];
    }

    // ----- User mappings of the state page -------------------------------------------------------------

    /** tpce_mmap, the stream part, until it has the page. */
    method MmapStream(c: ChannelId, memory: bool) returns (ok: bool)
      requires Valid() && turn == Ready && ch[c].Descs() < TWO32
      modifies this`ch, this`turn
      ensures Valid() && View() == Next(old(View()), Mmap(c, memory))
      ensures ok <==> turn == Ready
    {
      ghost var was := ch;
      if !ch[c].page.present {
        ok := InitStreamInfo(c, memory);
        if !ok {
          turn := Leaked;
          return;
        }
      } else {
        ch := ch[c := ch[c].(page := ch[c].page.(refs := ch[c].page.refs + 1))];
      }
      ok := true;
      ch := ch[c := ch[c].(vmas := ch[c].vmas + 1)];
      assert ch == was[c := ch[c]];
    }

    /** vma_stream_info_open */
    method OpenVma(c: ChannelId)
      requires Valid() && ch[c].vmas > 0
      modifies this`ch
      ensures Valid() && View() == Next(old(View()), VmaOpen(c))
    {
      ch := ch[c := ch[c].(page := ch[c].page.(refs := ch[c].page.refs + 1), vmas := ch[c].vmas + 1)];
    }

    /** vma_stream_info_close */
    method CloseVma(c: ChannelId)
      requires Valid() && ch[c].vmas > 0
      modifies this`ch
      ensures Valid() && View() == Next(old(View()), VmaClose(c))
    {
      ghost var was := ch;
      FreeStreamInfo(c);
      ch := ch[c := ch[c].(vmas := ch[c].vmas - 1)];
      assert ch == was[c := ch[c]];
    }
  }

  lemma {:induction false} NoIrqs()
    ensures Irqs(0) == {}
  {
    forall c: ChannelId ensures !HasIrq(0, c) {
      BitOfZero(IrqBit(c));
    }
  }

  lemma {:induction false} AndIrq(mask: u32, other: u32)
    ensures And(mask, other) < TWO32 && Irqs(And(mask, other)) == Irqs(mask) * Irqs(other)
  {
    AndFits(mask, other);
    forall c: ChannelId ensures HasIrq(And(mask, other), c) <==> HasIrq(mask, c) && HasIrq(other, c) {
      BitOfAnd(mask, other, IrqBit(c));
    }
  }

  function Handled(ch: Channel, hi: u16): Channel {
    ch.(page := StreamIrq(ch, hi))
  }

  function FastPages(ch: Channels, cs: set<ChannelId>, hi: seq<u16>): (s: Channels)
    requires |hi| == 3
  {
    [if 0 in cs then Handled(ch[0], hi[0]) else ch[0], if 1 in cs then Handled(ch[1], hi[1]) else ch[1],
     if 2 in cs then Handled(ch[2], hi[2]) else ch[2]]
  }

  /** One interrupt of several channels is one interrupt of each. */
  function DoIrqs(d: Device, cs: set<ChannelId>, hi: seq<u16>): Device
    requires |hi| == 3
  {
    var d0 := if 0 in cs then DoIrq(d, 0, hi[0]) else d;
    var d1 := if 1 in cs then DoIrq(d0, 1, hi[1]) else d0;
    if 2 in cs then DoIrq(d1, 2, hi[2]) else d1
  }

  /** ... and, as the handler of one channel does not see the others, all at once. */
  lemma {:induction false} IrqsTogether(d: Device, cs: set<ChannelId>, hi: seq<u16>)
    requires |hi| == 3
    ensures DoIrqs(d, cs, hi) == d.(ch := FastPages(d.ch, cs * d.fastIrq, hi), irqsrc := d.irqsrc + (cs - d.fastIrq))
  {
    var d0 := if 0 in cs then DoIrq(d, 0, hi[0]) else d;
    var d1 := if 1 in cs then DoIrq(d0, 1, hi[1]) else d0;
    assert d1.ch[2] == d.ch[2] && d0.ch[1] == d.ch[1];
  }
}
