/** The life of the three channels: execute, completion, wait and timeout, cancel, unmap, mmap and
    release as atomic steps on the state that they share. */
module Lifecycle {
  import opened Words
  import opened Descriptors
  import opened PageTable
  import opened Translate
  import opened Publish
  import Stream
  import Bits

  type ChannelId = c: int | 0 <= c < 3

  datatype Option<T> = None | Some(value: T)

  /** The shared state page of a stream: present is state != NULL, refs is state_refs. */
  datatype StreamPage = StreamPage(present: bool, refs: int, counters: Stream.Counters, mask: u32)

  /** tpce_dma_info. target is params.channel, which is 0 until the first request is taken. vmas counts
      the user mappings of the state page, buffer is desc_dma != NULL. */
  datatype Channel = Channel(
    state: ChannelState, target: ChannelId, mode: u8, bytesPerDesc: u32, mapping: Option<nat>,
    page: StreamPage, vmas: nat, buffer: bool, descSize: nat, descActive: nat, descCapacity: nat)
  {
    predicate IsStream() {
      mode == MODE_STREAM
    }

    /** The channel holds a STREAM transfer, and with it a reference on the state page. */
    predicate Streams() {
      state != Idle && IsStream()
    }

    predicate RunningStream() {
      state == Running && IsStream()
    }

    function Descs(): nat {
      descSize / DESC_BYTES
    }
  }

  const NEW_CHANNEL: Channel :=
    Channel(Idle, 0, 0, 0, None, StreamPage(false, 0, Stream.START, 0), 0, false, 0, 0, 0)

  type Channels = s: seq<Channel> | |s| == 3 witness [NEW_CHANNEL, NEW_CHANNEL, NEW_CHANNEL]

  /** tpce_dma_map_info; active is -1 for a mapping that no channel uses. The owner is the open
      file, None for the driver's own buffer. */
  datatype MapInfo = MapInfo(owner: Option<nat>, direction: u8, active: int)

  /** Where the one ioctl that holds the device mutex is: none, in the wait of dma_execute, before
      its cleanup, or gone without having released the mutex. */
  datatype Turn = Ready | Waiting(c: ChannelId) | Cleaning(c: ChannelId) | Leaked

  /** engines are the DMA controllers that were started and not reset since. */
  datatype Device = Device(
    ch: Channels, maps: map<nat, MapInfo>, files: map<nat, seq<nat>>, table: Table,
    engines: set<ChannelId>, fastIrq: set<ChannelId>, irqsrc: set<ChannelId>, work: set<ChannelId>, turn: Turn)

  /** The device after probe; the driver's buffer has id 1. */
  const DRIVER_BUFFER_ID: nat := 1

  function Start(): Device {
    Device([NEW_CHANNEL, NEW_CHANNEL, NEW_CHANNEL], map[DRIVER_BUFFER_ID := MapInfo(None, BIDIRECTIONAL, -1)],
           map[], seq(SLOTS, _ => Free), {}, {}, {}, {}, Ready)
  }

  // ----- The stream page -----------------------------------------------------------------------

  /** tpce_init_stream_info for a list of n descriptors; None without memory. */
  function InitPage(s: StreamPage, n: u32, memory: bool): Option<StreamPage> {
    if !s.present && !memory then None
    else Some(StreamPage(true, if s.present then s.refs + 1 else 1, Stream.START, Stream.RingMask(n)))
  }

  /** tpce_free_stream_info */
  function FreePage(s: StreamPage): StreamPage {
    s.(refs := s.refs - 1, present := s.present && s.refs != 1)
  }

  /** The ring index that dma_stream_irq_handler decodes from a register whose upper half is hi, and
      how far it is from the last one. */
  function Decoded(ch: Channel, hi: u16): nat
    requires ch.page.mask != 0 || ch.Descs() > 0
  {
    Stream.Decode(hi, if ch.Descs() > 0 then ch.Descs() else 1, ch.page.mask)
  }

  function Processed(ch: Channel, hi: u16): int
    requires ch.page.mask != 0 || ch.Descs() > 0
  {
    Stream.Advance(ch.page.counters.writeSeq, Decoded(ch, hi), ch.Descs())
  }

  /** The descriptor that round k of its loop synchronises. */
  function SyncAt(from: int, k: nat, n: nat): int {
    if k == 0 then from
    else
      var i := SyncAt(from, k - 1, n) + 1;
      if i == n then 0 else i
  }

  /** The loop has no mapping to synchronise, or goes to a descriptor outside the buffer. */
  predicate SyncFaults(ch: Channel, count: nat) {
    count > 0
    && (ch.mapping == None
        || exists k | 0 <= k < count ::
             !(0 <= SyncAt(ch.page.counters.writeSeq, k, ch.Descs()) < ch.descCapacity / DESC_BYTES))
  }

  /** The handler faults on the channel's record: it divides by zero, or its loop does. */
  predicate HandlerFaults(ch: Channel, hi: u16) {
    ch.page.present
    && ((ch.page.mask == 0 && ch.Descs() == 0)
        || (0 <= Processed(ch, hi) <= ch.Descs() && SyncFaults(ch, Processed(ch, hi))))
  }

  /** What the handler does to the state page. After a fault nothing is stored. */
  function StreamIrq(ch: Channel, hi: u16): StreamPage {
    if !ch.page.present || HandlerFaults(ch, hi) || !(0 <= Processed(ch, hi) <= ch.Descs()) then ch.page
    else ch.page.(counters := Stream.Interrupt(ch.page.counters, Decoded(ch, hi), ch.Descs(), ch.bytesPerDesc))
  }

  // ----- Stopping a channel ----------------------------------------------------------------------

  /** tpce_dma_abort: the controller that it resets is the one of params.channel. */
  function Abort(d: Device, c: ChannelId): Device {
    var ch := d.ch[c];
    d.(fastIrq := d.fastIrq - {c}, engines := d.engines - {ch.target},
       ch := d.ch[c := if ch.state == Running then ch.(state := Error) else ch])
  }

  function Released(maps: map<nat, MapInfo>, m: Option<nat>): map<nat, MapInfo> {
    if m.Some? && m.value in maps then maps[m.value := maps[m.value].(active := -1)] else maps
  }

  /** reset_dma_info */
  function Reset(d0: Device, c: ChannelId): Device {
    if d0.ch[c].state == Idle then d0
    else
      var d := if d0.ch[c].state == Running then Abort(d0, c) else d0;
      var ch := d.ch[c];
      d.(table := FreeSlots(d.table, c as u8), maps := Released(d.maps, ch.mapping),
         ch := d.ch[c := ch.(state := Idle, mapping := None, descSize := 0,
                             page := if ch.IsStream() then FreePage(ch.page) else ch.page)])
  }

  /** tpce_dma_completion */
  function Completion(ch: Channel): Channel {
    if ch.IsStream() || ch.state != Running then ch else ch.(state := Complete)
  }

  /** tpce_safe_dma_unmap */
  function Unmap(d0: Device, id: nat): Device
    requires id in d0.maps
  {
    var a := d0.maps[id].active;
    var d := if 0 <= a < 3 then Reset(Abort(d0, a), a) else d0;
    d.(maps := d.maps - {id})
  }

  /** The loop of tpce_release. */
  function UnmapAll(d: Device, ids: seq<nat>): Device {
    if ids == [] then d
    else
      var d' := UnmapAll(d, ids[..|ids| - 1]);
      var id := ids[|ids| - 1];
      if id in d'.maps then Unmap(d', id) else d'
  }

  // ----- Executing a request -----------------------------------------------------------------------

  /** A list of descriptors handed in by the user. */
  datatype UserList = UserList(size: u32, typeOk: bool)

  datatype Request = Request(id: nat, params: Params, user: Option<UserList>)

  /** What the rest of the kernel and the descriptor compiler contribute: memory for the descriptor
      buffer, a list that is copied and valid or compiled, its number of descriptors when it is
      compiled, memory for the state page, and the addresses that are to be translated. */
  datatype Env = Env(bufferOk: bool, listOk: bool, generated: nat, pageOk: bool, busAddr: u64, addrs: seq<u64>)

  datatype Verdict = Ok | Invalid | Busy | TooLarge

  /** validate_dma_request */
  function Validate(d: Device, file: Option<nat>, r: Request): Verdict {
    var p := r.params;
    if p.channel >= NUM_CHANNELS then Invalid
    else if r.id !in d.maps then Invalid
    else if d.maps[r.id].owner.Some? && d.maps[r.id].owner != file then Invalid
    else if d.maps[r.id].direction != BIDIRECTIONAL && p.direction != d.maps[r.id].direction then Invalid
    else if d.ch[p.channel].state != Idle then Busy
    else if p.direction != TO_DEVICE && p.direction != FROM_DEVICE then Invalid
    else if r.user == None then Ok
    else if r.user.value.size > 256 * DESC_BYTES then TooLarge
    else if !r.user.value.typeOk || r.user.value.size % DESC_BYTES != 0 then Invalid
    else Ok
  }

  /** tpce_dma_alloc_descriptors_mem: the buffer is kept if it is large enough. */
  function AllocList(ch: Channel, size: u32, memory: bool): (bool, Channel) {
    if size == 0 || size > 0x7FFF_FFFF then (false, ch)
    else if size <= ch.descCapacity then (true, ch.(descSize := size))
    else if memory then (true, ch.(buffer := true, descSize := size, descCapacity := size))
    else if ch.buffer then (false, ch.(buffer := false, descSize := 0, descCapacity := 0))
    else (false, ch)
  }

  /** desc_alloc_size, truncated to 32 bits. */
  function ListBytes(r: Request): u32 {
    if r.user.Some? then r.user.value.size else AllocBytes(r.params)
  }

  /** Descriptor sizes once the list is there. */
  function WithList(ch: Channel, r: Request, e: Env): Channel {
    if r.user.Some? then ch.(descActive := ListBytes(r))
    else
      ch.(descActive := e.generated * DESC_BYTES,
          descSize := e.generated * DESC_BYTES + Terminator(r.params))
  }

  /** The list in its buffer, allocated, filled and measured. */
  function MakeList(ch: Channel, r: Request, e: Env): (bool, Channel) {
    var (ok, ch1) := AllocList(ch, W32(ListBytes(r) + Terminator(r.params)), e.bufferOk);
    if !ok || !e.listOk then (false, ch1) else (true, WithList(ch1, r, e))
  }

  /** init_dma_info up to the point where the channel changes state: what it does to the channel's
      record, and whether it succeeds. */
  function Prepare(ch: Channel, r: Request, e: Env): (bool, Channel) {
    var (ok, ch1) := MakeList(ch, r, e);
    if !ok || r.params.transferMode != MODE_STREAM then (ok, ch1)
    else
      var page := InitPage(ch1.page, W32(ch1.Descs()), e.pageOk);
      if page == None then (false, ch1) else (true, ch1.(page := page.value))
  }

  /** The test on a request that passed validation: its list has a size that is neither 0 nor too
      large, there is memory for it if the old buffer is too small, it is valid, and for a stream
      there is a state page or memory for one. */
  predicate Initialises(ch: Channel, r: Request, e: Env) {
    var total := W32(ListBytes(r) + Terminator(r.params));
    && 0 < total <= 0x7FFF_FFFF && (total <= ch.descCapacity || e.bufferOk) && e.listOk
    && (r.params.transferMode == MODE_STREAM ==> ch.page.present || e.pageOk)
  }

  /** init_dma_info */
  function Init(d: Device, r: Request, e: Env): (bool, Device)
    requires r.params.channel < NUM_CHANNELS && r.id in d.maps
  {
    var c := r.params.channel;
    var (ok, ch) := Prepare(d.ch[c], r, e);
    if !ok then (false, d.(ch := d.ch[c := ch]))
    else
      (true, d.(ch := d.ch[c := ch.(state := Initialized, target := c, mode := r.params.transferMode,
                                    mapping := Some(r.id), bytesPerDesc := r.params.bytesPerDescriptor)],
                maps := d.maps[r.id := d.maps[r.id].(active := c)]))
  }

  /** dma_dispatch: an unknown mode is refused here, and the fast interrupt of a stream is enabled
      before the start, whatever becomes of it. */
  function Dispatch(d: Device, p: Params, e: Env): Device
    requires p.channel < NUM_CHANNELS
  {
    if p.transferMode != MODE_DEFAULT && p.transferMode != MODE_STREAM then d
    else
      var (t, s) := StartTable(d.table, p, e.busAddr, e.addrs);
      Dispatched(d, p.channel as ChannelId, p.transferMode == MODE_STREAM, t, s)
  }

  function Dispatched(d: Device, c: ChannelId, stream: bool, t: Table, s: ChannelState): Device {
    d.(table := t, ch := d.ch[c := d.ch[c].(state := s)],
       engines := if s == Running then d.engines + {c} else d.engines,
       fastIrq := if stream then d.fastIrq + {c} else d.fastIrq)
  }

  /** What dma_execute does next: wait, clean up, or leave a stream running. */
  function Proceed(d: Device, c: ChannelId, stream: bool): Device {
    if d.ch[c].state != Running then d.(turn := Cleaning(c))
    else if stream then d
    else d.(turn := Waiting(c))
  }

  /** ioc_dma_execute up to the wait or the cleanup. */
  function Execute(d: Device, file: Option<nat>, r: Request, e: Env): Device {
    if Validate(d, file, r) != Ok then d
    else
      var (ok, d1) := Init(d, r, e);
      if !ok then d1
      else Proceed(Dispatch(d1, r.params, e), r.params.channel as ChannelId, r.params.transferMode == MODE_STREAM)
  }

  // ----- Steps -----------------------------------------------------------------------------------------

  datatype Step =
    | DoExecute(asked: Option<nat>, req: Request, env: Env)
    | WaitEnds(completed: bool)
    | Cleanup
    | Cancel(ch: u32)
    | Open(file: nat)
    | Lock(file: nat, id: nat, direction: u8)
    | Unlock(file: nat, id: nat)
    | Release(file: nat)
    | Mmap(c: ChannelId, memory: bool)
    | VmaOpen(c: ChannelId)
    | VmaClose(c: ChannelId)
    | Irq(c: ChannelId, hi: u16)
    | Tasklet
    | Work(c: ChannelId)

  /** What the descriptor compiler ensures of its count: it fits the buffer, and a stream for which
      there is a buffer has a descriptor. */
  predicate ListFits(r: Request, n: nat) {
    && n <= ListBytes(r) / DESC_BYTES
    && (r.params.transferMode == MODE_STREAM && ListBytes(r) > 0 ==> n > 0)
  }

  /** When a step can happen. Ioctls, mmap and release need the device mutex, which an execute keeps
      through its wait; interrupts, the tasklet, the work queue and the fork of a mapping do not.
      VmaClose is the end of a user mapping, or the undoing of one that could not be set up, which
      takes place without the mutex. */
  predicate Enabled(d: Device, s: Step) {
    match s
    case DoExecute(_, r, e) =>
      d.turn == Ready && (r.user == None ==> ListFits(r, e.generated))
    case WaitEnds(completed) => d.turn.Waiting? && (completed ==> d.ch[d.turn.c].state != Running)
    case Cleanup => d.turn.Cleaning?
    case Cancel(_) => d.turn == Ready
    case Open(f) => f !in d.files
    case Lock(f, id, _) => d.turn == Ready && f in d.files && id !in d.maps
    case Unlock(f, id) => d.turn == Ready && f in d.files
    case Release(f) => d.turn == Ready && f in d.files
    case Mmap(_, _) => d.turn == Ready
    case VmaOpen(c) => d.ch[c].vmas > 0
    case VmaClose(c) => d.ch[c].vmas > 0
    case Irq(_, _) => true
    case Tasklet => true
    case Work(c) => c in d.work
  }

  function Without(ids: seq<nat>, id: nat): seq<nat> {
    if ids == [] then []
    else if ids[|ids| - 1] == id then Without(ids[..|ids| - 1], id)
    else Without(ids[..|ids| - 1], id) + [ids[|ids| - 1]]
  }

  function SetChannel(d: Device, c: ChannelId, ch: Channel): Device {
    d.(ch := d.ch[c := ch])
  }

  /** ioc_unlock_dma_buffer */
  function DoUnlock(d: Device, f: nat, id: nat): Device {
    if id !in d.maps || d.maps[id].owner != Some(f) || f !in d.files then d
    else Unmap(d, id).(files := d.files[f := Without(d.files[f], id)])
  }

  /** The stream part of tpce_mmap. Without memory for the page it returns with the mutex held. */
  function DoMmap(d: Device, c: ChannelId, memory: bool): Device {
    var ch := d.ch[c];
    if ch.page.present then SetChannel(d, c, ch.(page := ch.page.(refs := ch.page.refs + 1), vmas := ch.vmas + 1))
    else
      var page := InitPage(ch.page, W32(ch.Descs()), memory);
      if page == None then d.(turn := Leaked)
      else SetChannel(d, c, ch.(page := page.value, vmas := ch.vmas + 1))
  }

  /** tpce_isr for the interrupt of one channel: a fast one is handled at once and not passed on. */
  function DoIrq(d: Device, c: ChannelId, hi: u16): Device {
    var ch := d.ch[c];
    if c in d.fastIrq then SetChannel(d, c, ch.(page := StreamIrq(ch, hi)))
    else d.(irqsrc := d.irqsrc + {c})
  }

  function Next(d: Device, s: Step): Device
    requires Enabled(d, s)
  {
    match s
    case DoExecute(file, r, e) => Execute(d, file, r, e)
    case WaitEnds(_) => d.(turn := Cleaning(d.turn.c))
    case Cleanup => Reset(d, d.turn.c).(turn := Ready)
    case Cancel(n) => if n < 3 then Reset(Abort(d, n), n) else d
    case Open(f) => d.(files := d.files[f := []])
    case Lock(f, id, dir) =>
      d.(maps := d.maps[id := MapInfo(Some(f), dir, -1)], files := d.files[f := d.files[f] + [id]])
    case Unlock(f, id) => DoUnlock(d, f, id)
    case Release(f) => UnmapAll(d, d.files[f]).(files := d.files - {f})
    case Mmap(c, memory) => DoMmap(d, c, memory)
    case VmaOpen(c) =>
      var ch := d.ch[c];
      SetChannel(d, c, ch.(page := ch.page.(refs := ch.page.refs + 1), vmas := ch.vmas + 1))
    case VmaClose(c) =>
      SetChannel(d, c, d.ch[c].(page := FreePage(d.ch[c].page), vmas := d.ch[c].vmas - 1))
    case Irq(c, hi) => DoIrq(d, c, hi)
    case Tasklet => d.(work := d.work + d.irqsrc, irqsrc := {})
    case Work(c) => SetChannel(d.(work := d.work - {c}), c, Completion(d.ch[c]))
  }

  // ----- Runs ----------------------------------------------------------------------------------------------

  /** Each step of the run is enabled where it happens. */
  predicate IsRun(d: Device, ss: seq<Step>)
    decreases |ss|, 0
  {
    ss == [] || (IsRun(d, ss[..|ss| - 1]) && Enabled(After(d, ss[..|ss| - 1]), ss[|ss| - 1]))
  }

  function After(d: Device, ss: seq<Step>): Device
    requires IsRun(d, ss)
    decreases |ss|, 1
  {
    if ss == [] then d else Next(After(d, ss[..|ss| - 1]), ss[|ss| - 1])
  }
}
