/** What every run of the driver keeps. */
module Reachable {
  import opened Words
  import opened Descriptors
  import opened PageTable
  import opened Translate
  import opened Publish
  import opened Lifecycle
  import opened Window
  import opened Generator
  import Stream

  // ----- The invariant ---------------------------------------------------------------------------

  /** The state page is there exactly while it is referenced: by its user mappings, and by a STREAM
      transfer. */
  predicate PageCounted(ch: Channel) {
    && ch.page.refs == ch.vmas + (if ch.Streams() then 1 else 0)
    && (ch.page.present <==> ch.page.refs > 0)
  }

  /** What the interrupt handler needs of the page of a STREAM transfer: an index in the ring and
      the reduction that belongs to the ring. */
  predicate HandlerReady(ch: Channel) {
    && 0 < ch.Descs() < 0x8000_0000 && ch.page.mask == Stream.RingMask(ch.Descs())
    && 0 <= ch.page.counters.writeSeq < ch.Descs()
  }

  /** The sizes of a list agree with each other and with its buffer. */
  predicate SizesAgree(ch: Channel) {
    && ch.descSize <= ch.descCapacity <= 0x7FFF_FFFF && (ch.buffer <==> ch.descCapacity > 0)
    && (ch.state != Idle ==>
          ch.descSize == ch.descActive + (if ch.IsStream() then 0 else DESC_BYTES) && ch.descActive % DESC_BYTES == 0)
  }

  predicate ChannelOk(ch: Channel, fast: bool) {
    && PageCounted(ch) && SizesAgree(ch)
    && (ch.state == Idle <==> ch.mapping == None)
    && (ch.Streams() ==> HandlerReady(ch))
    && (ch.RunningStream() ==> fast)
  }

  /** Between ioctls a channel is idle or streams; the execute in progress owns the only other one,
      which is not a stream while it is waited for. */
  predicate Settled(ch: Channel, turn: Turn, c: ChannelId) {
    match turn
    case Waiting(w) => if w == c then !ch.IsStream() && (ch.state == Running || ch.state == Complete)
                       else ch.state == Idle || ch.RunningStream()
    case Cleaning(w) => if w == c then ch.state != Idle else ch.state == Idle || ch.RunningStream()
    case _ => ch.state == Idle || ch.RunningStream()
  }

  /** Every used slot belongs to a channel that is not idle. */
  ghost predicate SlotsHeld(t: Table, ch: Channels) {
    forall i {:trigger t[i]} | 0 <= i < SLOTS && t[i].Used? :: t[i].channel < 3 && ch[t[i].channel].state != Idle
  }

  ghost predicate TableOk(d: Device) {
    SlotsHeld(d.table, d.ch) && NoDuplicates(d.table) && PagesAligned(d.table)
  }

  ghost predicate ActiveInRange(maps: map<nat, MapInfo>) {
    forall id | id in maps :: -1 <= maps[id].active < 3
  }

  ghost predicate Inv(d: Device) {
    && (forall c: ChannelId :: ChannelOk(d.ch[c], c in d.fastIrq) && Settled(d.ch[c], d.turn, c))
    && TableOk(d) && ActiveInRange(d.maps)
  }

  lemma {:induction false} StartOk()
    ensures Inv(Start())
  {
  }

  // ----- Every step keeps it -----------------------------------------------------------------------

  /** The invariant, but for channel c settled. */
  ghost predicate InvBut(d: Device, c: ChannelId) {
    && (forall k: ChannelId :: ChannelOk(d.ch[k], k in d.fastIrq) && (k != c ==> Settled(d.ch[k], d.turn, k)))
    && TableOk(d) && ActiveInRange(d.maps)
  }

  /** The slots of a channel in a table. */
  ghost predicate NoSlots(t: Table, c: ChannelId) {
    forall i {:trigger t[i]} | 0 <= i < SLOTS && t[i].Used? :: t[i].channel != c
  }

  /** Channels other than c are the same, with their interrupts and slots. */
  ghost predicate OnlyChannel(d: Device, d': Device, c: ChannelId) {
    && (forall k: ChannelId | k != c :: d'.ch[k] == d.ch[k] && (k in d'.fastIrq <==> k in d.fastIrq))
    && OthersUnchanged(d.table, d'.table, c as u8)
  }

  lemma {:induction false} AbortOk(d: Device, c: ChannelId)
    requires InvBut(d, c)
    ensures InvBut(Abort(d, c), c) && Abort(d, c).ch[c].state != Running
    ensures OnlyChannel(d, Abort(d, c), c) && c !in Abort(d, c).fastIrq
  {
  }

  /** A reset channel is idle, holds nothing, and is no stream any more. */
  lemma {:induction false} ResetOk(d: Device, c: ChannelId)
    requires InvBut(d, c)
    ensures var d' := Reset(d, c);
      && InvBut(d', c) && OnlyChannel(d, d', c)
      && d'.ch[c].state == Idle && NoSlots(d'.table, c)
      && d'.turn == d.turn && d'.files == d.files && d'.maps.Keys == d.maps.Keys
  {
    if d.ch[c].state != Idle {
      AbortOk(d, c);
      var d1 := if d.ch[c].state == Running then Abort(d, c) else d;
      FreeSlotsIsolation(d1.table, c as u8);
      ResetStopped(d1, c);
    }
  }

  lemma {:induction false} ResetStopped(d: Device, c: ChannelId)
    requires InvBut(d, c) && d.ch[c].state != Idle && d.ch[c].state != Running
    requires OthersUnchanged(d.table, FreeSlots(d.table, c as u8), c as u8)
    requires NoDuplicates(FreeSlots(d.table, c as u8)) && PagesAligned(FreeSlots(d.table, c as u8))
    ensures var d' := Reset(d, c);
      && InvBut(d', c) && OnlyChannel(d, d', c)
      && d'.ch[c].state == Idle && NoSlots(d'.table, c)
      && d'.maps.Keys == d.maps.Keys
  {
    var d' := Reset(d, c);
    assert SlotsHeld(d'.table, d'.ch);
  }

  // Sizes of a list

  lemma {:induction false} ListBytesAligned(r: Request)
    requires r.user.Some? ==> r.user.value.size % DESC_BYTES == 0
    ensures ListBytes(r) % DESC_BYTES == 0
  {
    if r.user == None {
      WrappedAligned(MaxDescriptorsNeeded(r.params));
    }
  }

  lemma {:induction false} WrappedAligned(x: nat)
    ensures W32(x * 64) % 64 == 0
  {
  }

  /** Wrapping at 32 bits cannot hide a list that is too large: the sum wraps to 0 or not at all. */
  lemma {:induction false} TotalFits(bytes: u32, t: nat)
    requires bytes % 64 == 0 && t <= 64 && t % 64 == 0 && W32(bytes + t) != 0
    ensures W32(bytes + t) == bytes + t
  {
  }

  /** The request is one that passes validation, with a count that fits. */
  predicate Sound(r: Request, e: Env) {
    && (r.user == None ==> ListFits(r, e.generated))
    && (r.user.Some? ==> r.user.value.size % DESC_BYTES == 0)
  }

  /** What the preparation of an idle channel leaves in its record. */
  lemma {:induction false} PrepareOk(ch: Channel, r: Request, e: Env)
    requires ch.state == Idle && ChannelOk(ch, false) && Sound(r, e)
    ensures var (ok, ch') := Prepare(ch, r, e);
      && ch'.state == Idle && ch'.mapping == None && ch'.mode == ch.mode && ch'.vmas == ch.vmas
      && (!ok ==> ChannelOk(ch', false) && ch'.page == ch.page)
      && (ok ==> Prepared(ch', r.params))
  {
    MakeListOk(ch, r, e);
    var (ok, ch1) := MakeList(ch, r, e);
    InitPageOk(ch1, e.pageOk);
  }

  /** The list changes the sizes alone, and they agree. */
  lemma {:induction false} MakeListOk(ch: Channel, r: Request, e: Env)
    requires SizesAgree(ch) && ch.state == Idle && Sound(r, e)
    ensures var (ok, ch') := MakeList(ch, r, e);
      && ch' == ch.(buffer := ch'.buffer, descSize := ch'.descSize, descActive := ch'.descActive,
                    descCapacity := ch'.descCapacity)
      && ch'.descSize <= ch'.descCapacity <= 0x7FFF_FFFF && (ch'.buffer <==> ch'.descCapacity > 0)
      && (ok ==>
            && ch'.descSize == ch'.descActive + Terminator(r.params) && ch'.descActive % DESC_BYTES == 0
            && (r.params.transferMode == MODE_STREAM ==> 0 < ch'.Descs() < 0x8000_0000))
  {
    ListBytesAligned(r);
    var total := W32(ListBytes(r) + Terminator(r.params));
    if total != 0 {
      TotalFits(ListBytes(r), Terminator(r.params));
    }
    AllocListOk(ch, total, e.bufferOk);
    var (ok, ch1) := AllocList(ch, total, e.bufferOk);
    if ok && e.listOk {
      WithListOk(ch1, r, e);
    }
  }

  /** After an allocation the buffer holds what was asked for; if it failed it may be gone. */
  lemma {:induction false} AllocListOk(ch: Channel, size: u32, memory: bool)
    requires ch.descSize <= ch.descCapacity <= 0x7FFF_FFFF && (ch.buffer <==> ch.descCapacity > 0)
    ensures var (ok, ch') := AllocList(ch, size, memory);
      && ch' == ch.(buffer := ch'.buffer, descSize := ch'.descSize, descCapacity := ch'.descCapacity)
      && ch'.descSize <= ch'.descCapacity <= 0x7FFF_FFFF && (ch'.buffer <==> ch'.descCapacity > 0)
      && (ok ==> 0 < size == ch'.descSize)
  {
  }

  /** A state page that is set up for a list serves the handler on its ring. */
  lemma {:induction false} InitPageOk(ch: Channel, memory: bool)
    requires ch.state == Idle && PageCounted(ch)
    ensures var page := InitPage(ch.page, W32(ch.Descs()), memory);
      page.Some? ==>
        && page.value.present && page.value.refs == ch.vmas + 1
        && (0 < ch.Descs() < 0x8000_0000 ==> HandlerReady(ch.(page := page.value)))
  {
    if 0 < ch.Descs() < 0x8000_0000 {
      W32Fits(ch.Descs());
    }
  }

  /** init_dma_info succeeds exactly if the request passes the test. */
  lemma {:induction false} InitExact(d: Device, r: Request, e: Env)
    requires r.params.channel < NUM_CHANNELS && r.id in d.maps
    ensures Init(d, r, e).0 <==> Initialises(d.ch[r.params.channel], r, e)
  {
    var ch := d.ch[r.params.channel];
    var (ok, ch1) := MakeList(ch, r, e);
    assert ch1.page == ch.page;
    assert Prepare(ch, r, e).0 <==> Initialises(ch, r, e);
  }

  /** A record that becomes a proper one when the channel takes the mode of the request. */
  predicate Prepared(ch: Channel, p: Params) {
    var stream := p.transferMode == MODE_STREAM;
    && ch.descSize <= ch.descCapacity <= 0x7FFF_FFFF && (ch.buffer <==> ch.descCapacity > 0)
    && ch.descSize == ch.descActive + Terminator(p) && ch.descActive % DESC_BYTES == 0
    && ch.page.refs == ch.vmas + (if stream then 1 else 0)
    && (ch.page.present <==> ch.page.refs > 0)
    && (stream ==> HandlerReady(ch))
  }

  lemma {:induction false} WithListOk(ch: Channel, r: Request, e: Env)
    requires ListBytes(r) % DESC_BYTES == 0 && Sound(r, e)
    requires 0 < ch.descSize == ListBytes(r) + Terminator(r.params) <= ch.descCapacity <= 0x7FFF_FFFF
    ensures var ch' := WithList(ch, r, e);
      && ch' == ch.(descSize := ch'.descSize, descActive := ch'.descActive)
      && ch'.descSize <= ch'.descCapacity && ch'.descSize == ch'.descActive + Terminator(r.params)
      && ch'.descActive % DESC_BYTES == 0
      && (r.params.transferMode == MODE_STREAM ==> 0 < ch'.Descs() < 0x8000_0000)
  {
    if r.user == None {
      CountedBytes(e.generated, ListBytes(r));
    }
    WholeDescs(WithList(ch, r, e).descSize);
  }

  lemma {:induction false} CountedBytes(n: nat, bytes: nat)
    requires n <= bytes / 64
    ensures n * 64 <= bytes && (n * 64) % 64 == 0
  {
  }

  lemma {:induction false} WholeDescs(size: nat)
    ensures size / 64 <= size && (size >= 64 ==> size / 64 > 0)
  {
  }

  // The execute step

  lemma {:induction false} StopOk(d: Device, c: ChannelId)
    requires InvBut(d, c) && (d.turn.Waiting? ==> d.turn.c != c) && (d.turn.Cleaning? ==> d.turn.c != c)
    ensures Inv(Reset(d, c)) && Inv(Reset(Abort(d, c), c))
    ensures OnlyChannel(d, Reset(Abort(d, c), c), c) && Reset(Abort(d, c), c).ch[c].state == Idle
    ensures NoSlots(Reset(Abort(d, c), c).table, c)
  {
    ResetOk(d, c);
    AbortOk(d, c);
    ResetOk(Abort(d, c), c);
  }

  /** Starting: slots for this channel only, no page twice, and none left after a failure. */
  lemma {:induction false} StartTableOk(t: Table, p: Params, e: Env)
    requires p.channel < NUM_CHANNELS && NoSlots(t, p.channel as ChannelId) && NoDuplicates(t) && PagesAligned(t)
    ensures var (t', s) := StartTable(t, p, e.busAddr, e.addrs);
      && Extends(t, t', p.channel) && NoDuplicates(t') && PagesAligned(t')
      && (s != Running ==> NoSlots(t', p.channel as ChannelId))
      && (s == Running || s == Initialized || s == Error)
  {
    var slot := FirstFree(t, 0);
    FirstFreeExact(t, 0);
    FreeSlotsIsolation(t, p.channel);
    if slot != -1 {
      MaskedPage(e.busAddr);
      AllocIsolation(t, slot, PageBase(e.busAddr), p.channel);
      var t1 := t[slot := Used(PageBase(e.busAddr), p.channel)];
      RunIsolation(t1, p.channel, e.addrs, |e.addrs|);
      ExtendsTrans(t, t1, Run(t1, p.channel, e.addrs).table, p.channel);
    }
  }

  lemma {:induction false} ExtendsTrans(t: Table, t1: Table, t2: Table, channel: u8)
    requires Extends(t, t1, channel) && Extends(t1, t2, channel)
    ensures Extends(t, t2, channel)
  {
  }

  /** Init: the channel takes the request, or only its buffer may have changed. */
  lemma {:induction false} InitOk(d: Device, r: Request, e: Env)
    requires Inv(d) && r.params.channel < NUM_CHANNELS && r.id in d.maps && Sound(r, e)
    requires d.ch[r.params.channel].state == Idle
    ensures var (ok, d') := Init(d, r, e);
      && d'.turn == d.turn && d'.fastIrq == d.fastIrq && d'.table == d.table
      && OnlyChannel(d, d', r.params.channel as ChannelId)
      && (!ok ==> Inv(d') && d'.maps == d.maps)
      && (ok ==> ActiveInRange(d'.maps) && Taken(d'.ch[r.params.channel], r))
  {
    var c := r.params.channel as ChannelId;
    PrepareOk(d.ch[c], r, e);
  }

  /** The record of a channel that has taken a request and is to be started. */
  predicate Taken(ch: Channel, r: Request) {
    && ch.state == Initialized && ch.mapping == Some(r.id) && ch.mode == r.params.transferMode
    && ch.bytesPerDesc == r.params.bytesPerDescriptor && ChannelOk(ch, false)
  }

  /** Dispatch: the channel runs with slots of its own, or has none. */
  lemma {:induction false} DispatchOk(d0: Device, d: Device, r: Request, e: Env)
    requires Inv(d0) && r.params.channel < NUM_CHANNELS && d0.ch[r.params.channel].state == Idle
    requires OnlyChannel(d0, d, r.params.channel as ChannelId) && d.table == d0.table && d.turn == d0.turn == Ready
    requires d.fastIrq == d0.fastIrq && ActiveInRange(d.maps) && Taken(d.ch[r.params.channel], r)
    ensures var c := r.params.channel as ChannelId;
      var d' := Dispatch(d, r.params, e);
      && InvBut(d', c) && OnlyChannel(d, d', c) && d'.turn == d.turn && d'.maps == d.maps
      && d'.ch[c].mode == r.params.transferMode && d'.ch[c].state in {Initialized, Running, Error}
  {
    var p, c := r.params, r.params.channel as ChannelId;
    assert NoSlots(d.table, c);
    if p.transferMode != MODE_DEFAULT && p.transferMode != MODE_STREAM {
      Assembled(d0, d, c);
    } else {
      StartTableOk(d.table, p, e);
      var (t, s) := StartTable(d.table, p, e.busAddr, e.addrs);
      DispatchedOk(d0, d, r, t, s);
    }
  }

  lemma {:induction false} DispatchedOk(d0: Device, d: Device, r: Request, t: Table, s: ChannelState)
    requires Inv(d0) && r.params.channel < NUM_CHANNELS && d0.ch[r.params.channel].state == Idle
    requires OnlyChannel(d0, d, r.params.channel as ChannelId) && d.table == d0.table && d.turn == d0.turn == Ready
    requires d.fastIrq == d0.fastIrq && ActiveInRange(d.maps) && Taken(d.ch[r.params.channel], r)
    requires Extends(d.table, t, r.params.channel) && NoDuplicates(t) && PagesAligned(t)
    requires s in {Initialized, Running, Error}
    ensures var c := r.params.channel as ChannelId;
      var d' := Dispatched(d, c, r.params.transferMode == MODE_STREAM, t, s);
      InvBut(d', c) && OnlyChannel(d, d', c)
  {
    var c := r.params.channel as ChannelId;
    var d' := Dispatched(d, c, r.params.transferMode == MODE_STREAM, t, s);
    StartedOk(d.ch[c], r, s);
    ExtendedHeld(d0, d.table, t, d'.ch, c);
    Assembled(d0, d', c);
  }

  /** Another channel's part of the invariant depends on its own record and interrupt. */
  lemma {:induction false} Assembled(d0: Device, d: Device, c: ChannelId)
    requires Inv(d0) && d.turn == d0.turn
    requires forall k: ChannelId | k != c :: d.ch[k] == d0.ch[k] && (k in d.fastIrq <==> k in d0.fastIrq)
    requires ChannelOk(d.ch[c], c in d.fastIrq) && TableOk(d) && ActiveInRange(d.maps)
    ensures InvBut(d, c)
  {
    forall k: ChannelId
      ensures ChannelOk(d.ch[k], k in d.fastIrq) && (k != c ==> Settled(d.ch[k], d.turn, k))
    {
      assert ChannelOk(d0.ch[k], k in d0.fastIrq) && Settled(d0.ch[k], d0.turn, k);
    }
  }

  lemma {:induction false} StartedOk(ch: Channel, r: Request, s: ChannelState)
    requires Taken(ch, r) && s in {Initialized, Running, Error}
    ensures ChannelOk(ch.(state := s), true) && (!ch.IsStream() ==> ChannelOk(ch.(state := s), false))
  {
  }

  /** New slots of a channel that is not idle keep the table's ownership. */
  lemma {:induction false} ExtendedHeld(d0: Device, t: Table, t': Table, ch: Channels, c: ChannelId)
    requires SlotsHeld(t, d0.ch) && Extends(t, t', c as u8) && ch[c].state != Idle
    requires forall k: ChannelId | k != c :: ch[k] == d0.ch[k]
    ensures SlotsHeld(t', ch) && OthersUnchanged(t, t', c as u8)
  {
  }

  lemma {:induction false} ProceedOk(d0: Device, d: Device, c: ChannelId, stream: bool)
    requires InvBut(d, c) && OnlyChannel(d0, d, c) && d.turn == Ready
    requires d.ch[c].state in {Initialized, Running, Error} && (stream <==> d.ch[c].IsStream())
    ensures Inv(Proceed(d, c, stream)) && OnlyChannel(d0, Proceed(d, c, stream), c)
  {
  }

  lemma {:induction false} OnlyTrans(d0: Device, d1: Device, d2: Device, c: ChannelId)
    requires OnlyChannel(d0, d1, c) && OnlyChannel(d1, d2, c)
    ensures OnlyChannel(d0, d2, c)
  {
  }

  lemma {:induction false} ExecuteOk(d: Device, file: Option<nat>, r: Request, e: Env)
    requires Inv(d) && Enabled(d, DoExecute(file, r, e))
    ensures Inv(Execute(d, file, r, e))
    ensures r.params.channel < NUM_CHANNELS ==> OnlyChannel(d, Execute(d, file, r, e), r.params.channel as ChannelId)
    ensures Validate(d, file, r) != Ok ==> Execute(d, file, r, e) == d
  {
    if Validate(d, file, r) == Ok {
      var c := r.params.channel as ChannelId;
      InitOk(d, r, e);
      var (ok, d1) := Init(d, r, e);
      if ok {
        DispatchOk(d, d1, r, e);
        var d2 := Dispatch(d1, r.params, e);
        OnlyTrans(d, d1, d2, c);
        ProceedOk(d, d2, c, r.params.transferMode == MODE_STREAM);
      }
    }
  }

  // The other steps

  /** Channel k is as before, with its interrupt and its slots. */
  ghost predicate Untouched(d: Device, d': Device, k: ChannelId) {
    && d'.ch[k] == d.ch[k] && (k in d'.fastIrq <==> k in d.fastIrq)
    && forall i {:trigger d.table[i]} {:trigger d'.table[i]} | 0 <= i < SLOTS
         && ((d.table[i].Used? && d.table[i].channel == k) || (d'.table[i].Used? && d'.table[i].channel == k)) ::
         d'.table[i] == d.table[i]
  }

  /** Mappings are dropped or given up, not taken. */
  ghost predicate MapsShrink(maps: map<nat, MapInfo>, maps': map<nat, MapInfo>) {
    forall id | id in maps' :: id in maps && (maps'[id] == maps[id] || maps'[id] == maps[id].(active := -1))
  }

  lemma {:induction false} UnmapOk(d: Device, id: nat)
    requires Inv(d) && id in d.maps && !d.turn.Waiting? && !d.turn.Cleaning?
    ensures var d' := Unmap(d, id);
      && Inv(d') && d'.turn == d.turn && d'.files == d.files
      && MapsShrink(d.maps, d'.maps) && d'.maps.Keys == d.maps.Keys - {id}
  {
    var a := d.maps[id].active;
    if a >= 0 {
      StopOk(d, a);
      AbortOk(d, a);
      ResetOk(Abort(d, a), a);
      ResetMaps(Abort(d, a), a);
    }
  }

  lemma {:induction false} ResetMaps(d: Device, c: ChannelId)
    ensures MapsShrink(d.maps, Reset(d, c).maps)
  {
  }

  lemma {:induction false} UnmapSpares(d: Device, id: nat, k: ChannelId)
    requires Inv(d) && id in d.maps && !d.turn.Waiting? && !d.turn.Cleaning? && k != d.maps[id].active
    ensures Untouched(d, Unmap(d, id), k)
  {
    var a := d.maps[id].active;
    if a >= 0 {
      StopOk(d, a);
      OnlySpares(d, Reset(Abort(d, a), a), a, k);
    }
  }

  lemma {:induction false} OnlySpares(d: Device, d': Device, c: ChannelId, k: ChannelId)
    requires OnlyChannel(d, d', c) && k != c
    ensures Untouched(d, d', k)
  {
  }

  lemma {:induction false} UnmapAllOk(d: Device, ids: seq<nat>)
    requires Inv(d) && !d.turn.Waiting? && !d.turn.Cleaning?
    ensures var d' := UnmapAll(d, ids);
      && Inv(d') && d'.turn == d.turn && d'.files == d.files
      && MapsShrink(d.maps, d'.maps) && d'.maps.Keys == d.maps.Keys - (set id | id in ids)
  {
    if ids != [] {
      var rest, id := ids[..|ids| - 1], ids[|ids| - 1];
      UnmapAllOk(d, rest);
      assert ids == rest + [id];
      if id in UnmapAll(d, rest).maps {
        UnmapOk(UnmapAll(d, rest), id);
      }
    }
  }

  /** Channel k uses one of the mappings. */
  predicate Uses(d: Device, ids: seq<nat>, k: ChannelId) {
    exists i | 0 <= i < |ids| :: ids[i] in d.maps && d.maps[ids[i]].active == k
  }

  lemma {:induction false} UnmapAllSpares(d: Device, ids: seq<nat>, k: ChannelId)
    requires Inv(d) && !d.turn.Waiting? && !d.turn.Cleaning? && !Uses(d, ids, k)
    ensures Untouched(d, UnmapAll(d, ids), k)
  {
    if ids != [] {
      var rest, id := ids[..|ids| - 1], ids[|ids| - 1];
      UnmapAllOk(d, rest);
      assert forall i | 0 <= i < |rest| :: rest[i] == ids[i];
      UnmapAllSpares(d, rest, k);
      var d1 := UnmapAll(d, rest);
      if id in d1.maps {
        UnmapSpares(d1, id, k);
        UntouchedTrans(d, d1, Unmap(d1, id), k);
      }
    }
  }

  lemma {:induction false} UntouchedTrans(d0: Device, d1: Device, d2: Device, k: ChannelId)
    requires Untouched(d0, d1, k) && Untouched(d1, d2, k)
    ensures Untouched(d0, d2, k)
  {
  }

  /** The handler keeps a page ready that is ready, and never changes what it counts. */
  lemma {:induction false} StreamIrqOk(ch: Channel, hi: u16)
    ensures var page := StreamIrq(ch, hi);
      && page == ch.page.(counters := page.counters)
      && (HandlerReady(ch) ==> HandlerReady(ch.(page := page)))
  {
    if HandlerReady(ch) {
      Stream.DecodeIsModulo(hi, ch.Descs());
    }
  }

  /** A change of one record, with its invariant. */
  lemma {:induction false} RecordOk(d: Device, c: ChannelId, ch: Channel)
    requires Inv(d) && ChannelOk(ch, c in d.fastIrq) && Settled(ch, d.turn, c)
    requires ch.state == Idle <==> d.ch[c].state == Idle
    ensures Inv(SetChannel(d, c, ch)) && OnlyChannel(d, SetChannel(d, c, ch), c)
  {
    assert SlotsHeld(d.table, SetChannel(d, c, ch).ch);
  }

  lemma {:induction false} IrqOk(d: Device, c: ChannelId, hi: u16)
    requires Inv(d)
    ensures Inv(DoIrq(d, c, hi)) && OnlyChannel(d, DoIrq(d, c, hi), c)
  {
    var ch := d.ch[c];
    if c in d.fastIrq {
      StreamIrqOk(ch, hi);
      RecordOk(d, c, ch.(page := StreamIrq(ch, hi)));
    }
  }

  lemma {:induction false} MmapOk(d: Device, c: ChannelId, memory: bool)
    requires Inv(d) && d.turn == Ready
    ensures Inv(DoMmap(d, c, memory)) && OnlyChannel(d, DoMmap(d, c, memory), c)
  {
    if d.ch[c].page.present || memory {
      RecordOk(d, c, DoMmap(d, c, memory).ch[c]);
    }
  }

  lemma {:induction false} VmaOk(d: Device, c: ChannelId)
    requires Inv(d) && d.ch[c].vmas > 0
    ensures Inv(Next(d, VmaOpen(c))) && OnlyChannel(d, Next(d, VmaOpen(c)), c)
    ensures Inv(Next(d, VmaClose(c))) && OnlyChannel(d, Next(d, VmaClose(c)), c)
  {
    RecordOk(d, c, Next(d, VmaOpen(c)).ch[c]);
    RecordOk(d, c, Next(d, VmaClose(c)).ch[c]);
  }

  lemma {:induction false} WorkOk(d: Device, c: ChannelId)
    requires Inv(d) && c in d.work
    ensures Inv(Next(d, Work(c))) && OnlyChannel(d, Next(d, Work(c)), c)
  {
    var d1 := d.(work := d.work - {c});
    RecordOk(d1, c, Completion(d.ch[c]));
  }

  /** What a step is about: the channels that it can affect. */
  predicate Touches(d: Device, s: Step, k: ChannelId)
    requires Enabled(d, s)
  {
    match s
    case DoExecute(_, r, _) => r.params.channel == k
    case Cleanup => d.turn.c == k
    case Cancel(n) => n == k
    case Unlock(_, id) => Uses(d, [id], k)
    case Release(f) => Uses(d, d.files[f], k)
    case Mmap(c, _) => c == k
    case VmaOpen(c) => c == k
    case VmaClose(c) => c == k
    case Irq(c, _) => c == k
    case Work(c) => c == k
    case _ => false
  }

  /** Every step keeps the invariant. */
  lemma {:induction false} StepKeeps(d: Device, s: Step)
    requires Inv(d) && Enabled(d, s)
    ensures Inv(Next(d, s))
  {
    match s {
      case DoExecute(file, r, e) => ExecuteOk(d, file, r, e);
      case Cleanup => ResetOk(d, d.turn.c);
      case Cancel(n) =>
        if n < 3 {
          StopOk(d, n);
        }
      case Unlock(f, id) =>
        if id in d.maps {
          UnmapOk(d, id);
        }
      case Release(f) => UnmapAllOk(d, d.files[f]);
      case Mmap(c, memory) => MmapOk(d, c, memory);
      case VmaOpen(c) => VmaOk(d, c);
      case VmaClose(c) => VmaOk(d, c);
      case Irq(c, hi) => IrqOk(d, c, hi);
      case Work(c) => WorkOk(d, c);
      case _ =>
    }
  }

  /** Every step leaves alone the channels that it is not about: record, interrupt and slots. */
  lemma {:induction false} ChannelIsolation(d: Device, s: Step, k: ChannelId)
    requires Inv(d) && Enabled(d, s) && !Touches(d, s, k)
    ensures Untouched(d, Next(d, s), k)
  {
    match s {
      case DoExecute(file, r, e) => ExecuteSpares(d, file, r, e, k);
      case Cleanup => ResetOk(d, d.turn.c); OnlySpares(d, Reset(d, d.turn.c), d.turn.c, k);
      case Cancel(n) =>
        if n < 3 {
          StopOk(d, n);
          OnlySpares(d, Next(d, s), n, k);
        }
      case Unlock(f, id) =>
        if id in d.maps {
          assert [id][0] == id;
          UnmapSpares(d, id, k);
        }
      case Release(f) => UnmapAllSpares(d, d.files[f], k);
      case Mmap(c, memory) => MmapOk(d, c, memory); OnlySpares(d, Next(d, s), c, k);
      case VmaOpen(c) => VmaOk(d, c); OnlySpares(d, Next(d, s), c, k);
      case VmaClose(c) => VmaOk(d, c); OnlySpares(d, Next(d, s), c, k);
      case Irq(c, hi) => IrqOk(d, c, hi); OnlySpares(d, Next(d, s), c, k);
      case Work(c) => WorkOk(d, c); OnlySpares(d, Next(d, s), c, k);
      case _ =>
    }
  }

  lemma {:induction false} ExecuteSpares(d: Device, file: Option<nat>, r: Request, e: Env, k: ChannelId)
    requires Inv(d) && Enabled(d, DoExecute(file, r, e)) && r.params.channel != k
    ensures Untouched(d, Execute(d, file, r, e), k)
  {
    ExecuteOk(d, file, r, e);
    if r.params.channel < NUM_CHANNELS {
      OnlySpares(d, Execute(d, file, r, e), r.params.channel as ChannelId, k);
    }
  }

  /** The invariant holds in every reachable state. */
  lemma {:induction false} Always(ss: seq<Step>)
    requires IsRun(Start(), ss)
    ensures Inv(After(Start(), ss))
  {
    if ss == [] {
      StartOk();
    } else {
      Always(ss[..|ss| - 1]);
      StepKeeps(After(Start(), ss[..|ss| - 1]), ss[|ss| - 1]);
    }
  }

  // ----- The descriptor buffer across requests -----------------------------------------------------------

  /** Whatever requests came before: when init_dma_info succeeds in a reachable state, the list is
      exactly its active part, with a terminator unless it streams, and fits the buffer. */
  lemma {:induction false} SizesAtStart(ss: seq<Step>, r: Request, e: Env)
    requires IsRun(Start(), ss)
    requires r.params.channel < NUM_CHANNELS && r.id in After(Start(), ss).maps && Sound(r, e)
    requires After(Start(), ss).ch[r.params.channel].state == Idle && Init(After(Start(), ss), r, e).0
    ensures var ch := Init(After(Start(), ss), r, e).1.ch[r.params.channel];
      && ch.descSize == ch.descActive + Terminator(r.params) && ch.descSize <= ch.descCapacity
      && ch.descActive == (if r.user.Some? then r.user.value.size else e.generated * DESC_BYTES)
      && ch.descSize > 0
  {
    Always(ss);
    var d := After(Start(), ss);
    InitOk(d, r, e);
    InitSizes(d.ch[r.params.channel], r, e);
  }

  lemma {:induction false} InitSizes(ch: Channel, r: Request, e: Env)
    requires ch.state == Idle && ChannelOk(ch, false) && Sound(r, e) && Prepare(ch, r, e).0
    ensures Prepare(ch, r, e).1.descActive == (if r.user.Some? then r.user.value.size else e.generated * DESC_BYTES)
    ensures Prepare(ch, r, e).1.descSize > 0
  {
    PrepareOk(ch, r, e);
  }

  /** A list that the descriptor compiler generates into the buffer is one that fits. */
  lemma {:induction false} CompiledListFits(r: Request, m: Mapping)
    requires r.user == None && WellFormed(m) && Accepted(r.params, m) && Compilable(r.params, m)
    requires PlannedCount(r.params, m) <= ListBytes(r) / DESC_BYTES
    ensures ListFits(r, PlannedCount(r.params, m))
  {
    var p := r.params;
    CompilableChunks(p, m);
    if p.transferMode == MODE_STREAM && PlannedCount(p, m) == 0 {
      assert p.bytesTotal == 0;
      assert MaxDescriptorsNeeded(p) == 0;
    }
  }
}
