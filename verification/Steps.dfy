/** What each step of the driver comes to, field by field, in every state that keeps the invariant. */
module Steps {
  import opened Words
  import opened Descriptors
  import opened PageTable
  import opened Translate
  import opened Publish
  import opened Space
  import opened Lifecycle
  import opened Reachable
  import opened Protocol
  import opened Mappings
  import Stream

  // ----- A channel that gives everything up --------------------------------------------------------------

  /** The record is idle, without mapping and list. Its buffer, its user mappings and the counters that
      they show are kept, and the state page is there exactly for them. */
  predicate RecordGiven(ch: Channel, ch': Channel) {
    if ch.state == Idle then ch' == ch
    else
      && ch'.state == Idle && ch'.mapping == None && ch'.descSize == 0
      && ch'.target == ch.target && ch'.mode == ch.mode && ch'.bytesPerDesc == ch.bytesPerDesc
      && ch'.vmas == ch.vmas && ch'.buffer == ch.buffer
      && ch'.descActive == ch.descActive && ch'.descCapacity == ch.descCapacity
      && ch'.page == StreamPage(ch.vmas > 0, ch.vmas, ch.page.counters, ch.page.mask)
  }

  /** Its slots are free, and no others. */
  ghost predicate SlotsGiven(t: Table, t': Table, c: ChannelId) {
    forall i | 0 <= i < SLOTS :: t'[i] == if t[i].Used? && t[i].channel == c then Free else t[i]
  }

  /** Its mapping is marked as unused, and no other mapping changes. */
  ghost predicate MarkGiven(d: Device, d': Device, c: ChannelId) {
    && d'.maps.Keys == d.maps.Keys
    && forall id | id in d.maps ::
         d'.maps[id] == if d.ch[c].mapping == Some(id) then d.maps[id].(active := -1) else d.maps[id]
  }

  /** All of that, and nothing of other channels, files or interrupts. */
  ghost predicate GivenUp(d: Device, d': Device, c: ChannelId) {
    && RecordGiven(d.ch[c], d'.ch[c]) && (forall k: ChannelId | k != c :: d'.ch[k] == d.ch[k])
    && SlotsGiven(d.table, d'.table, c) && MarkGiven(d, d', c)
    && d'.files == d.files && d'.irqsrc == d.irqsrc && d'.work == d.work
  }

  lemma {:induction false} ResetGives(d: Device, c: ChannelId)
    requires Inv(d)
    ensures GivenUp(d, Reset(d, c), c) && Reset(d, c).turn == d.turn
    ensures var running := d.ch[c].state == Running;
      && Reset(d, c).fastIrq == (if running then d.fastIrq - {c} else d.fastIrq)
      && Reset(d, c).engines == (if running then d.engines - {d.ch[c].target} else d.engines)
  {
    assert ChannelOk(d.ch[c], c in d.fastIrq);
    FreedSlots(d.table, d.ch, c);
  }

  /** An idle channel has no slot to give back. */
  lemma {:induction false} FreedSlots(t: Table, ch: Channels, c: ChannelId)
    requires SlotsHeld(t, ch)
    ensures SlotsGiven(t, FreeSlots(t, c as u8), c) && (ch[c].state == Idle ==> SlotsGiven(t, t, c))
  {
  }

  lemma {:induction false} StopGives(d: Device, c: ChannelId)
    requires Inv(d)
    ensures var d' := Reset(Abort(d, c), c);
      && GivenUp(d, d', c) && d'.turn == d.turn
      && d'.fastIrq == d.fastIrq - {c} && d'.engines == d.engines - {d.ch[c].target}
  {
    assert ChannelOk(d.ch[c], c in d.fastIrq);
    FreedSlots(d.table, d.ch, c);
  }

  /** A cancel stops the channel, whatever it does: it gives everything up, its fast interrupt is off, and the
      controller that its record names is reset. For a channel that does not exist it does nothing. */
  lemma {:induction false} CancelDoes(d: Device, n: u32)
    requires Inv(d) && Enabled(d, Cancel(n))
    ensures n >= 3 ==> Next(d, Cancel(n)) == d
    ensures n < 3 ==>
      var d' := Next(d, Cancel(n));
      && d'.ch[n].state == Idle && d'.ch[n].mapping == None && NoSlots(d'.table, n)
      && GivenUp(d, d', n) && d'.turn == d.turn
      && d'.fastIrq == d.fastIrq - {n} && d'.engines == d.engines - {d.ch[n].target}
  {
    if n < 3 {
      StopGives(d, n);
      StopOk(d, n);
      assert ChannelOk(d.ch[n], n in d.fastIrq);
    }
  }

  /** The cleanup of an execute: its channel gives everything up. If the transfer still ran, its controller
      is reset and its fast interrupt turned off; otherwise both are left. */
  lemma {:induction false} CleanupDoes(d: Device)
    requires Inv(d) && Enabled(d, Cleanup)
    ensures var d', c := Next(d, Cleanup), d.turn.c;
      && d'.turn == Ready && d'.ch[c].state == Idle && GivenUp(d, d', c)
      && d'.fastIrq == (if d.ch[c].state == Running then d.fastIrq - {c} else d.fastIrq)
      && d'.engines == (if d.ch[c].state == Running then d.engines - {d.ch[c].target} else d.engines)
  {
    ResetGives(d, d.turn.c);
    ResetOk(d, d.turn.c);
  }

  // ----- Dropping mappings --------------------------------------------------------------------------------

  /** Unlocking a mapping that a channel is marked in is a cancel of that channel first; then the mapping is
      gone, for the device and for its file. A mapping of another file, or none, changes nothing. */
  lemma {:induction false} UnlockDoes(d: Device, f: nat, id: nat)
    requires Inv(d) && Enabled(d, Unlock(f, id))
    ensures var d' := Next(d, Unlock(f, id));
      if id in d.maps && d.maps[id].owner == Some(f) then
        var a := d.maps[id].active;
        var d1 := if a == -1 then d else Next(d, Cancel(a));
        && d' == d1.(maps := d1.maps - {id}, files := d'.files)
        && d'.files.Keys == d.files.Keys && (forall g | g in d.files && g != f :: d'.files[g] == d.files[g])
        && forall x :: x in d'.files[f] <==> x in d.files[f] && x != id
      else d' == d
  {
    assert ActiveInRange(d.maps);
    forall x ensures x in Without(d.files[f], id) <==> x in d.files[f] && x != id {
      WithoutExact(d.files[f], id, x);
    }
  }

  /** The steps that unlock the first k mappings of a list. */
  function Unlocks(f: nat, ids: seq<nat>): (ss: seq<Step>)
    ensures |ss| == |ids|
  {
    seq(|ids|, k requires 0 <= k < |ids| => Unlock(f, ids[k]))
  }

  /** The mappings of a list that are there belong to the file. */
  ghost predicate AllOwned(d: Device, f: nat, ids: seq<nat>) {
    forall id | id in ids && id in d.maps :: d.maps[id].owner == Some(f)
  }

  /** Releasing a file is unlocking its mappings one after the other, and then it is closed. */
  lemma {:induction false} ReleaseDoes(ss: seq<Step>, f: nat)
    requires IsRun(Start(), ss) && Enabled(After(Start(), ss), Release(f))
    ensures var d := After(Start(), ss);
      var us := Unlocks(f, d.files[f]);
      IsRun(d, us) && Next(d, Release(f)) == After(d, us).(files := d.files - {f})
  {
    Always(ss);
    ListsAlways(ss);
    UnlocksInTurn(After(Start(), ss), f, After(Start(), ss).files[f]);
  }

  lemma {:induction false} UnlocksInTurn(d: Device, f: nat, ids: seq<nat>)
    requires Inv(d) && d.turn == Ready && f in d.files && AllOwned(d, f, ids)
    ensures var us := Unlocks(f, ids);
      && IsRun(d, us) && After(d, us).turn == Ready && f in After(d, us).files
      && After(d, us).(files := d.files) == UnmapAll(d, ids)
  {
    var us := Unlocks(f, ids);
    if ids != [] {
      var rest, id := ids[..|ids| - 1], ids[|ids| - 1];
      assert AllOwned(d, f, rest);
      UnlocksInTurn(d, f, rest);
      assert us[..|us| - 1] == Unlocks(f, rest);
      var e, d1 := After(d, Unlocks(f, rest)), UnmapAll(d, rest);
      UnmapAllOk(d, rest);
      assert id in d1.maps ==> d1.maps[id].owner == Some(f);
      assert e.maps == d1.maps && us[|us| - 1] == Unlock(f, id);
      if id in e.maps {
        UnmapFiles(e, d.files, id);
      }
    }
  }

  /** Dropping a mapping does not look at the files. */
  lemma {:induction false} UnmapFiles(d: Device, files: map<nat, seq<nat>>, id: nat)
    requires id in d.maps
    ensures Unmap(d.(files := files), id) == Unmap(d, id).(files := files)
  {
  }

  // ----- Executing -----------------------------------------------------------------------------------------

  /** The buffer after tpce_dma_alloc_descriptors_mem. A success leaves a buffer of at least the size, which
      only grows. An illegal size changes nothing. Without memory for a larger buffer there is none left. */
  lemma {:induction false} AllocDoes(ch: Channel, size: u32, memory: bool)
    requires SizesAgree(ch) && ch.state == Idle
    ensures var (ok, ch') := AllocList(ch, size, memory);
      && (ok <==> 0 < size <= 0x7FFF_FFFF && (size <= ch.descCapacity || memory))
      && (ok ==> ch' == ch.(buffer := true, descSize := size,
                            descCapacity := if size > ch.descCapacity then size else ch.descCapacity))
      && (!ok ==> ch' == if 0 < size <= 0x7FFF_FFFF then ch.(buffer := false, descSize := 0, descCapacity := 0)
                         else ch)
  {
  }

  /** A request that is not acceptable changes nothing. One that is, but does not initialise, changes the
      descriptor buffer and its sizes alone. */
  lemma {:induction false} ExecuteRefused(d: Device, file: Option<nat>, r: Request, e: Env)
    requires Inv(d) && Enabled(d, DoExecute(file, r, e))
    ensures !Acceptable(d, file, r) ==> Execute(d, file, r, e) == d
    ensures Acceptable(d, file, r) && !Initialises(d.ch[r.params.channel], r, e) ==>
      var d', c := Execute(d, file, r, e), r.params.channel;
      d' == d.(ch := d.ch[c := d.ch[c].(buffer := d'.ch[c].buffer, descSize := d'.ch[c].descSize,
                                        descActive := d'.ch[c].descActive, descCapacity := d'.ch[c].descCapacity)])
  {
    ValidateExact(d, file, r);
    if Acceptable(d, file, r) {
      InitExact(d, r, e);
      FailedPrepare(d.ch[r.params.channel], r, e);
    }
  }

  lemma {:induction false} FailedPrepare(ch: Channel, r: Request, e: Env)
    ensures var (ok, ch') := Prepare(ch, r, e);
      !ok ==> ch' == ch.(buffer := ch'.buffer, descSize := ch'.descSize, descActive := ch'.descActive,
                         descCapacity := ch'.descCapacity)
  {
  }

  /** The bytes of the list with its terminator, once it is there. */
  function ListSize(r: Request, e: Env): nat {
    (if r.user.Some? then r.user.value.size else 64 * e.generated) + (if r.params.transferMode == 1 then 0 else 64)
  }

  /** The record of a channel that has taken a request: all of it is of the request, but for what the user
      mappings of the state page count. */
  predicate RecordTaken(ch: Channel, ch': Channel, r: Request, e: Env) {
    && ch'.target == r.params.channel && ch'.mode == r.params.transferMode
    && ch'.bytesPerDesc == r.params.bytesPerDescriptor && ch'.mapping == Some(r.id)
    && ch'.buffer && ch'.vmas == ch.vmas
    && ch'.descSize == ListSize(r, e) <= ch'.descCapacity <= 0x7FFF_FFFF
    && ch'.descActive == ch'.descSize - (if r.params.transferMode == 1 then 0 else 64)
    && ch'.page == if r.params.transferMode == 1
                   then StreamPage(true, ch.vmas + 1, Stream.START, Stream.RingMask(ListSize(r, e) / 64))
                   else ch.page
  }

  /** The state that a request that initialises leaves its channel in. */
  function Outcome(d: Device, r: Request, e: Env): ChannelState {
    if r.params.transferMode >= 2 || FreeCount(d.table) == 0 then Initialized
    else if r.params.direction == 2 && HasRoom(d.table, r.params, e.busAddr, e.addrs) then Running
    else Error
  }

  /** An acceptable request that initialises is taken by its channel. It is waited for if it runs in DEFAULT
      mode; it is left to run, and the device is ready, if it streams; and it is cleaned up at once if it does
      not run. Only a transfer that runs keeps slots and has its controller started. */
  lemma {:induction false} ExecuteDoes(d: Device, file: Option<nat>, r: Request, e: Env)
    requires Inv(d) && Enabled(d, DoExecute(file, r, e))
    requires Acceptable(d, file, r) && Initialises(d.ch[r.params.channel], r, e)
    ensures var d', c, s := Execute(d, file, r, e), r.params.channel as ChannelId, Outcome(d, r, e);
      && d'.ch[c].state == s && RecordTaken(d.ch[c], d'.ch[c], r, e)
      && (forall k: ChannelId | k != c :: d'.ch[k] == d.ch[k])
      && d'.turn == (if s != Running then Cleaning(c) else if r.params.transferMode == 1 then Ready else Waiting(c))
      && d'.maps == d.maps[r.id := d.maps[r.id].(active := c)] && d'.files == d.files
      && (s != Running ==> d'.table == d.table)
      && d'.engines == (if s == Running then d.engines + {c} else d.engines)
      && d'.fastIrq == (if r.params.transferMode == 1 then d.fastIrq + {c} else d.fastIrq)
      && d'.irqsrc == d.irqsrc && d'.work == d.work
  {
    ValidateExact(d, file, r);
    InitExact(d, r, e);
    var c := r.params.channel as ChannelId;
    InitTakes(d, r, e);
    var d1 := Init(d, r, e).1;
    StartExact(d.table, r.params, e.busAddr, e.addrs);
    NothingFreed(d, c);
    DispatchDoes(d, d1, r, e);
  }

  lemma {:induction false} NothingFreed(d: Device, c: ChannelId)
    requires Inv(d) && d.ch[c].state == Idle
    ensures FreeSlots(d.table, c as u8) == d.table
  {
    assert NoSlots(d.table, c);
  }

  lemma {:induction false} InitTakes(d: Device, r: Request, e: Env)
    requires Inv(d) && r.params.channel < NUM_CHANNELS && r.id in d.maps && Sound(r, e)
    requires d.ch[r.params.channel].state == Idle && Init(d, r, e).0
    ensures var d1, c := Init(d, r, e).1, r.params.channel;
      && d1 == d.(ch := d.ch[c := d1.ch[c]], maps := d.maps[r.id := d.maps[r.id].(active := c)])
      && d1.ch[c].state == Initialized && RecordTaken(d.ch[c], d1.ch[c], r, e)
  {
    var ch := d.ch[r.params.channel];
    assert ChannelOk(ch, r.params.channel as ChannelId in d.fastIrq);
    PreparedSizes(ch, r, e);
    PreparedPage(ch, r, e);
  }

  lemma {:induction false} PreparedSizes(ch: Channel, r: Request, e: Env)
    requires SizesAgree(ch) && ch.state == Idle && Sound(r, e) && Prepare(ch, r, e).0
    ensures var ch' := Prepare(ch, r, e).1;
      && ch' == ch.(buffer := ch'.buffer, descSize := ch'.descSize, descActive := ch'.descActive,
                    descCapacity := ch'.descCapacity, page := ch'.page)
      && ch'.buffer && ch'.descSize == ListSize(r, e) <= ch'.descCapacity <= 0x7FFF_FFFF
      && ch'.descActive == ch'.descSize - (if r.params.transferMode == 1 then 0 else 64)
  {
    MakeListOk(ch, r, e);
    PageKeepsList(ch, r, e);
    ListMade(ch, r, e);
  }

  /** The state page is prepared without touching the list. */
  lemma {:induction false} PageKeepsList(ch: Channel, r: Request, e: Env)
    requires Prepare(ch, r, e).0
    ensures var ch', ch1 := Prepare(ch, r, e).1, MakeList(ch, r, e).1;
      MakeList(ch, r, e).0 && ch' == ch1.(page := ch'.page)
  {
  }

  lemma {:induction false} ListMade(ch: Channel, r: Request, e: Env)
    requires SizesAgree(ch) && ch.state == Idle && Sound(r, e) && Prepare(ch, r, e).0
    ensures var ch' := Prepare(ch, r, e).1;
      && ch'.buffer && ch'.descSize == ListSize(r, e)
      && ch'.descActive == ch'.descSize - (if r.params.transferMode == 1 then 0 else 64)
  {
    var total := W32(ListBytes(r) + Terminator(r.params));
    ListBytesAligned(r);
    TotalFits(ListBytes(r), Terminator(r.params));
    AllocDoes(ch, total, e.bufferOk);
    MadeSizes(ch, r, e, total);
  }

  lemma {:induction false} MadeSizes(ch: Channel, r: Request, e: Env, total: u32)
    requires total == W32(ListBytes(r) + Terminator(r.params)) == ListBytes(r) + Terminator(r.params)
    requires Prepare(ch, r, e).0
    requires AllocList(ch, total, e.bufferOk).0 && AllocList(ch, total, e.bufferOk).1.descSize == total
    requires AllocList(ch, total, e.bufferOk).1.buffer
    ensures Prepare(ch, r, e).1.descSize == ListSize(r, e) && Prepare(ch, r, e).1.buffer
    ensures Prepare(ch, r, e).1.descActive == ListSize(r, e) - (if r.params.transferMode == 1 then 0 else 64)
  {
    assert MakeList(ch, r, e).1 == WithList(AllocList(ch, total, e.bufferOk).1, r, e);
  }

  lemma {:induction false} PreparedPage(ch: Channel, r: Request, e: Env)
    requires PageCounted(ch) && ch.state == Idle && Prepare(ch, r, e).0
    requires Prepare(ch, r, e).1.descSize == ListSize(r, e) < TWO32
    ensures Prepare(ch, r, e).1.page
            == if r.params.transferMode == 1
               then StreamPage(true, ch.vmas + 1, Stream.START, Stream.RingMask(ListSize(r, e) / 64))
               else ch.page
  {
    W32Fits(ListSize(r, e) / 64);
  }

  lemma {:induction false} DispatchDoes(d: Device, d1: Device, r: Request, e: Env)
    requires r.params.channel < NUM_CHANNELS && d1.ch[r.params.channel].state == Initialized && d.turn == Ready
    requires d1.table == d.table && d1.turn == d.turn && FreeSlots(d.table, r.params.channel) == d.table
    requires d1.engines == d.engines && d1.fastIrq == d.fastIrq
    requires var s := StartTable(d.table, r.params, e.busAddr, e.addrs).1;
      && (s == Running <==> r.params.direction == 2 && HasRoom(d.table, r.params, e.busAddr, e.addrs))
      && (s == Initialized <==> FreeCount(d.table) == 0) && s in {Running, Initialized, Error}
    ensures var c, s := r.params.channel as ChannelId, Outcome(d, r, e);
      var d' := Proceed(Dispatch(d1, r.params, e), c, r.params.transferMode == MODE_STREAM);
      && d' == d1.(ch := d1.ch[c := d1.ch[c].(state := s)], table := d'.table, turn := d'.turn,
                   engines := d'.engines, fastIrq := d'.fastIrq)
      && d'.turn == (if s != Running then Cleaning(c) else if r.params.transferMode == 1 then Ready else Waiting(c))
      && (s != Running ==> d'.table == d.table)
      && d'.engines == (if s == Running then d.engines + {c} else d.engines)
      && d'.fastIrq == (if r.params.transferMode == 1 then d.fastIrq + {c} else d.fastIrq)
  {
  }

  /** So a DEFAULT transfer that starts is waited for, and a stream that starts leaves the device ready. */
  lemma {:induction false} StartedWaits(d: Device, file: Option<nat>, r: Request, e: Env)
    requires Inv(d) && Enabled(d, DoExecute(file, r, e))
    requires r.params.channel < NUM_CHANNELS && d.ch[r.params.channel].state == Idle
    requires Execute(d, file, r, e).ch[r.params.channel].state == Running
    ensures Execute(d, file, r, e).turn
            == if r.params.transferMode == 0 then Waiting(r.params.channel as ChannelId) else Ready
  {
    ExecuteStartsExact(d, file, r, e);
    ExecuteDoes(d, file, r, e);
  }

  /** The execute on channel c was last seen waiting, and then its wait ended without a completion. */
  predicate GaveUpWaiting(ss: seq<Step>, c: ChannelId)
    requires IsRun(Start(), ss)
    decreases |ss|
  {
    ss != [] &&
    (var d, s := After(Start(), ss[..|ss| - 1]), ss[|ss| - 1];
     (d.turn == Waiting(c) && s == WaitEnds(false))
     || (d.turn == Cleaning(c) && s != Cleanup && GaveUpWaiting(ss[..|ss| - 1], c)))
  }

  /** In every run, an execute goes on to clean up a transfer that still runs only if its wait has ended
      without a completion, that is by a timeout or a signal. */
  lemma {:induction false} CleansAfterWait(ss: seq<Step>, c: ChannelId)
    requires IsRun(Start(), ss) && After(Start(), ss).turn == Cleaning(c) && After(Start(), ss).ch[c].state == Running
    ensures GaveUpWaiting(ss, c)
  {
    assert ss != [];
    var rest, s := ss[..|ss| - 1], ss[|ss| - 1];
    var d := After(Start(), rest);
    Always(rest);
    TurnStep(d, s);
    StateGraph(d, s, c);
    if d.turn == Cleaning(c) {
      CleansAfterWait(rest, c);
    } else if s.DoExecute? {
      var k := s.req.params.channel;
      if k < NUM_CHANNELS && d.ch[k].state == Idle && Next(d, s).ch[k].state == Running {
        StartedWaits(d, s.asked, s.req, s.env);
      }
    }
  }

  /** Which steps change whose turn it is. */
  lemma {:induction false} TurnStep(d: Device, s: Step)
    requires Inv(d) && Enabled(d, s)
    ensures var t := Next(d, s).turn;
      t != d.turn ==>
        || (s.DoExecute? && s.req.params.channel < NUM_CHANNELS
            && (t == Waiting(s.req.params.channel as ChannelId) || t == Cleaning(s.req.params.channel as ChannelId)))
        || (s.WaitEnds? && t == Cleaning(d.turn.c))
        || (s.Cleanup? && t == Ready)
        || (s.Mmap? && t == Leaked)
  {
    match s {
      case DoExecute(file, r, e) => ExecuteTurn(d, file, r, e);
      case Cancel(n) => CancelDoes(d, n);
      case Unlock(f, id) =>
        if id in d.maps {
          UnmapOk(d, id);
        }
      case Release(f) => UnmapAllOk(d, d.files[f]);
      case _ =>
    }
  }

  lemma {:induction false} ExecuteTurn(d: Device, file: Option<nat>, r: Request, e: Env)
    requires Inv(d) && Enabled(d, DoExecute(file, r, e))
    ensures var t := Execute(d, file, r, e).turn;
      t != d.turn ==> r.params.channel < NUM_CHANNELS
                      && (t == Waiting(r.params.channel as ChannelId) || t == Cleaning(r.params.channel as ChannelId))
  {
    ExecuteRefused(d, file, r, e);
    if Acceptable(d, file, r) && Initialises(d.ch[r.params.channel], r, e) {
      ExecuteDoes(d, file, r, e);
    }
  }

  // ----- The state page and its user mappings -----------------------------------------------------------------

  /** Mapping the state page: a page that is there gets one more reference; else there is a new one with
      fresh counters for this mapping alone; and without memory nothing happens but that the mutex is lost. */
  lemma {:induction false} MmapDoes(d: Device, c: ChannelId, memory: bool)
    requires Inv(d) && Enabled(d, Mmap(c, memory))
    ensures var ch, page := d.ch[c], d.ch[c].page;
      Next(d, Mmap(c, memory))
      == if page.present then
           SetChannel(d, c, ch.(vmas := ch.vmas + 1, page := page.(refs := page.refs + 1)))
         else if memory then
           SetChannel(d, c, ch.(vmas := 1,
                                page := StreamPage(true, 1, Stream.START, Stream.RingMask(W32(ch.descSize / 64)))))
         else d.(turn := Leaked)
  {
    assert ChannelOk(d.ch[c], c in d.fastIrq);
  }

  /** The fork and the end of a user mapping count it, and its reference, up and down; the page goes with the
      last one. */
  lemma {:induction false} VmaDoes(d: Device, c: ChannelId)
    requires Inv(d) && d.ch[c].vmas > 0
    ensures var ch, page := d.ch[c], d.ch[c].page;
      && page.present
      && Next(d, VmaOpen(c)) == SetChannel(d, c, ch.(vmas := ch.vmas + 1, page := page.(refs := page.refs + 1)))
      && Next(d, VmaClose(c))
         == SetChannel(d, c, ch.(vmas := ch.vmas - 1,
                                 page := page.(refs := page.refs - 1, present := ch.vmas > 1 || ch.Streams())))
  {
    assert ChannelOk(d.ch[c], c in d.fastIrq);
  }

  // ----- Files, and the end of a wait --------------------------------------------------------------------------

  /** Opening a file gives it an empty list. Locking a buffer adds a mapping of the file in that direction, used
      by no channel. The end of a wait is followed by the cleanup of its channel. None of them does more. */
  lemma {:induction false} FilesDo(d: Device, f: nat, id: nat, dir: u8, completed: bool)
    ensures Enabled(d, Open(f)) ==>
      f !in d.files && Next(d, Open(f)) == d.(files := d.files[f := []])
    ensures Enabled(d, Lock(f, id, dir)) ==>
      && f in d.files && id !in d.maps
      && Next(d, Lock(f, id, dir))
         == d.(maps := d.maps[id := MapInfo(Some(f), dir, -1)], files := d.files[f := d.files[f] + [id]])
    ensures Enabled(d, WaitEnds(completed)) ==>
      d.turn.Waiting? && Next(d, WaitEnds(completed)) == d.(turn := Cleaning(d.turn.c))
  {
  }

  // ----- Interrupts ----------------------------------------------------------------------------------------

  /** An interrupt that is not fast is collected. A fast one changes the counters alone, and only where there
      is a state page. */
  lemma {:induction false} IrqDoes(d: Device, c: ChannelId, hi: u16)
    ensures c !in d.fastIrq ==> Next(d, Irq(c, hi)) == d.(irqsrc := d.irqsrc + {c})
    ensures c in d.fastIrq && !d.ch[c].page.present ==> Next(d, Irq(c, hi)) == d
    ensures var d' := Next(d, Irq(c, hi));
      c in d.fastIrq ==>
        d' == d.(ch := d.ch[c := d.ch[c].(page := d.ch[c].page.(counters := d'.ch[c].page.counters))])
  {
  }

  /** A record on which the handler can work, whatever its state: a state page, with an index and a reduction
      that belong to a ring inside the buffer, and a mapping to synchronise. */
  predicate Workable(ch: Channel) {
    && ch.page.present && 0 < ch.Descs() < TWO32 && ch.page.mask == Stream.RingMask(ch.Descs())
    && 0 <= ch.page.counters.writeSeq < ch.Descs() <= ch.descCapacity / DESC_BYTES && ch.mapping.Some?
  }

  /** On such a record a fast interrupt is one step of the producer, also if it is left over from a stream that
      has not started. */
  lemma {:induction false} FastIrqDoes(d: Device, c: ChannelId, hi: u16)
    requires c in d.fastIrq && Workable(d.ch[c])
    ensures Next(d, Irq(c, hi)).ch[c].page.counters
            == Stream.Interrupt(d.ch[c].page.counters, hi % d.ch[c].Descs(), d.ch[c].Descs(), d.ch[c].bytesPerDesc)
  {
    var ch := d.ch[c];
    Stream.DecodeIsModulo(hi, ch.Descs());
    forall k: nat ensures 0 <= SyncAt(ch.page.counters.writeSeq, k, ch.Descs()) < ch.Descs() {
      SyncInRing(ch.page.counters.writeSeq, k, ch.Descs());
    }
  }

  /** The tasklet hands every collected interrupt to the work queue, once; the work of a channel is done
      once, and completes a transfer that runs and is no stream. */
  lemma {:induction false} WorkDoes(d: Device, c: ChannelId)
    ensures Next(d, Tasklet) == d.(work := d.work + d.irqsrc, irqsrc := {})
    ensures c in d.work ==>
      var ch := d.ch[c];
      Next(d, Work(c))
      == d.(work := d.work - {c},
            ch := d.ch[c := if ch.state == Running && ch.mode != 1 then ch.(state := Complete) else ch])
  {
  }

  /** Interrupts of the channel that were collected along the run, and completions. */
  function Collected(ss: seq<Step>, c: ChannelId): nat
    requires IsRun(Start(), ss)
    decreases |ss|
  {
    if ss == [] then 0
    else
      var d, s := After(Start(), ss[..|ss| - 1]), ss[|ss| - 1];
      Collected(ss[..|ss| - 1], c) + if s.Irq? && s.c == c && c !in d.fastIrq then 1 else 0
  }

  function Completions(ss: seq<Step>, c: ChannelId): nat
    requires IsRun(Start(), ss)
    decreases |ss|
  {
    if ss == [] then 0
    else
      var d, d' := After(Start(), ss[..|ss| - 1]), After(Start(), ss);
      Completions(ss[..|ss| - 1], c) + if d.ch[c].state != Complete && d'.ch[c].state == Complete then 1 else 0
  }

  /** Interrupts on their way. */
  function OnTheWay(d: Device, c: ChannelId): nat {
    (if c in d.irqsrc then 1 else 0) + (if c in d.work then 1 else 0)
  }

  /** In every run no interrupt completes more than one transfer. */
  lemma {:induction false} CompletionsPaid(ss: seq<Step>, c: ChannelId)
    requires IsRun(Start(), ss)
    ensures Completions(ss, c) + OnTheWay(After(Start(), ss), c) <= Collected(ss, c)
    decreases |ss|
  {
    if ss != [] {
      var rest, s := ss[..|ss| - 1], ss[|ss| - 1];
      CompletionsPaid(rest, c);
      Always(rest);
      StateGraph(After(Start(), rest), s, c);
      QueueStep(After(Start(), rest), s, c);
    }
  }

  lemma {:induction false} QueueStep(d: Device, s: Step, c: ChannelId)
    requires Inv(d) && Enabled(d, s)
    ensures OnTheWay(Next(d, s), c) + (if s == Work(c) then 1 else 0)
            <= OnTheWay(d, c) + (if s.Irq? && s.c == c && c !in d.fastIrq then 1 else 0)
  {
    match s {
      case Release(f) => UnmapAllQueues(d, d.files[f]);
      case _ =>
    }
  }
}
