/** Runs that show where the conditions of the other modules bite. */
module Witnesses {
  import opened Words
  import opened Descriptors
  import opened PageTable
  import opened Translate
  import opened Publish
  import opened Lifecycle
  import opened Reachable
  import opened Protocol
  import opened Mappings
  import Stream

  /** One descriptor of the user for a mapping with id 7. */
  function OneDescriptor(channel: u8, mode: u8, direction: u8): Request {
    Request(7, Params(0, 0, 64, 64, 0, 0, channel, mode, direction, 0, 0), Some(UserList(64, true)))
  }

  const ALL_WELL := Env(true, true, 0, true, 0x10_0000, [0x20_0000])

  /** File 1 is open and owns mapping 7. */
  function Opened(): seq<Step> {
    [Open(1), Lock(1, 7, BIDIRECTIONAL)]
  }

  function WithMapping(): Device {
    Start().(maps := Start().maps[7 := MapInfo(Some(1), BIDIRECTIONAL, -1)], files := map[1 := [7]])
  }

  lemma {:induction false} OpenedRun()
    ensures IsRun(Start(), Opened()) && After(Start(), Opened()) == WithMapping()
  {
    var d1 := Start().(files := map[1 := []]);
    assert IsRun(Start(), []) && After(Start(), []) == Start();
    Continue(Start(), [], Open(1));
    assert [] + [Open(1)] == [Open(1)];
    assert After(Start(), [Open(1)]) == d1 by { assert Start().files[1 := []] == map[1 := []]; }
    Continue(Start(), [Open(1)], Lock(1, 7, BIDIRECTIONAL));
    assert [Open(1)] + [Lock(1, 7, BIDIRECTIONAL)] == Opened();
    assert d1.files[1] + [7] == [7];
    assert d1.files[1 := [7]] == map[1 := [7]];
  }

  function Exec(channel: u8, mode: u8, direction: u8): Step {
    DoExecute(Some(1), OneDescriptor(channel, mode, direction), ALL_WELL)
  }

  /** The slots from k on are free. */
  ghost predicate RoomFrom(t: Table, k: nat) {
    forall i | k <= i < SLOTS :: t[i].Free?
  }

  lemma {:induction false} Taking(t: Table, k: nat, page: u64, channel: u8)
    requires RoomFrom(t, k) && k < SLOTS
    ensures var slot := FirstFree(t, 0);
      0 <= slot <= k && RoomFrom(t[slot := Used(page, channel)], k + 1)
  {
    FirstFreeExact(t, 0);
    assert t[k].Free?;
  }

  /** A start to the device fails. */
  lemma {:induction false} StartFails(t: Table, p: Params, k: nat)
    requires RoomFrom(t, k) && k < SLOTS && p.direction != FROM_DEVICE
    ensures StartTable(t, p, ALL_WELL.busAddr, ALL_WELL.addrs) == (FreeSlots(t, p.channel), Error)
    ensures RoomFrom(FreeSlots(t, p.channel), k)
  {
    FirstFreeExact(t, 0);
    assert t[k].Free?;
  }

  /** A start with one address takes at most two slots. */
  lemma {:induction false} Starts(t: Table, p: Params, k: nat)
    requires RoomFrom(t, k) && k + 2 <= SLOTS && p.direction == FROM_DEVICE
    ensures StartTable(t, p, ALL_WELL.busAddr, ALL_WELL.addrs).1 == Running
    ensures RoomFrom(StartTable(t, p, ALL_WELL.busAddr, ALL_WELL.addrs).0, k + 2)
  {
    Taking(t, k, PageBase(0x10_0000), p.channel);
    var t1 := t[FirstFree(t, 0) := Used(PageBase(0x10_0000), p.channel)];
    Taking(t1, k + 1, PageBase(0x20_0000), p.channel);
    var s0 := RunTo(t1, p.channel, ALL_WELL.addrs, 0);
    assert Run(t1, p.channel, ALL_WELL.addrs) == NextTrans(s0, p.channel, 0x20_0000);
  }

  /** The list of one descriptor, with its terminator if it does not stream. */
  lemma {:induction false} MakesList(ch: Channel, channel: u8, mode: u8, direction: u8)
    requires mode == MODE_DEFAULT || mode == MODE_STREAM
    ensures var (ok, ch') := MakeList(ch, OneDescriptor(channel, mode, direction), ALL_WELL);
      ok && ch'.vmas == ch.vmas && ch'.page == ch.page && ch'.descSize == (if mode == MODE_STREAM then 64 else 128)
  {
  }

  /** The record of a channel that has taken the request. */
  lemma {:induction false} Prepares(ch: Channel, channel: u8, mode: u8, direction: u8)
    requires mode == MODE_DEFAULT || mode == MODE_STREAM
    ensures var (ok, ch') := Prepare(ch, OneDescriptor(channel, mode, direction), ALL_WELL);
      ok && ch'.vmas == ch.vmas && (mode == MODE_STREAM ==> ch'.page.mask == 0 && ch'.page.counters == Stream.START)
  {
    MakesList(ch, channel, mode, direction);
    if mode == MODE_STREAM {
      assert MakeList(ch, OneDescriptor(channel, mode, direction), ALL_WELL).1.Descs() == 1;
      assert Stream.RingMask(1) == 0;
    }
  }

  /** What an execute on an idle channel with room in the table comes to. */
  lemma {:induction false} Executed(d: Device, c: ChannelId, mode: u8, k: nat)
    requires Inv(d) && d.turn == Ready && d.ch[c].state == Idle && 7 in d.maps
    requires d.maps[7].owner == Some(1) && d.maps[7].direction == BIDIRECTIONAL
    requires mode == MODE_DEFAULT || mode == MODE_STREAM
    requires RoomFrom(d.table, k) && k + 2 <= SLOTS
    ensures var s := Exec(c as u8, mode, FROM_DEVICE);
      Enabled(d, s) && Running1(d, Next(d, s), c, mode) && RoomFrom(Next(d, s).table, k + 2)
  {
    var r := OneDescriptor(c as u8, mode, FROM_DEVICE);
    Prepares(d.ch[c], c as u8, mode, FROM_DEVICE);
    Starts(d.table, r.params, k);
    assert Validate(d, Some(1), r) == Ok;
  }

  /** The channel runs a transfer on mapping 7, started from d. */
  predicate Running1(d: Device, e: Device, c: ChannelId, mode: u8)
    requires 7 in d.maps
  {
    && e.ch[c].state == Running && e.ch[c].mode == mode && e.ch[c].mapping == Some(7) && e.ch[c].vmas == d.ch[c].vmas
    && e.maps == d.maps[7 := d.maps[7].(active := c)] && e.files == d.files
    && (forall j: ChannelId | j != c :: e.ch[j] == d.ch[j])
    && e.fastIrq == (if mode == MODE_STREAM then d.fastIrq + {c} else d.fastIrq)
    && e.irqsrc == d.irqsrc && e.work == d.work
    && e.turn == (if mode == MODE_STREAM then Ready else Waiting(c))
  }

  /** A stream to the device cannot be started; its channel is to be cleaned up. */
  lemma {:induction false} ExecuteFails(d: Device, c: ChannelId, k: nat)
    requires Inv(d) && d.turn == Ready && d.ch[c].state == Idle && 7 in d.maps
    requires d.maps[7].owner == Some(1) && d.maps[7].direction == BIDIRECTIONAL
    requires RoomFrom(d.table, k) && k < SLOTS
    ensures var s := Exec(c as u8, MODE_STREAM, TO_DEVICE);
      Enabled(d, s) && Failed1(d, Next(d, s), c) && RoomFrom(Next(d, s).table, k)
  {
    var r := OneDescriptor(c as u8, MODE_STREAM, TO_DEVICE);
    Prepares(d.ch[c], c as u8, MODE_STREAM, TO_DEVICE);
    StartFails(d.table, r.params, k);
    assert Validate(d, Some(1), r) == Ok;
  }

  predicate Failed1(d: Device, e: Device, c: ChannelId)
    requires 7 in d.maps
  {
    && e.ch[c].state == Error && e.ch[c].mode == MODE_STREAM && e.ch[c].mapping == Some(7)
    && e.ch[c].vmas == d.ch[c].vmas && e.ch[c].page.mask == 0 && e.ch[c].page.counters == Stream.START
    && e.maps == d.maps[7 := d.maps[7].(active := c)] && e.files == d.files
    && (forall j: ChannelId | j != c :: e.ch[j] == d.ch[j])
    && e.fastIrq == d.fastIrq + {c} && e.irqsrc == d.irqsrc && e.work == d.work
    && e.turn == Cleaning(c)
  }

  /** The cleanup of channel c, which holds mapping 7. */
  lemma {:induction false} CleanedUp(d: Device, c: ChannelId, k: nat)
    requires d.turn == Cleaning(c) && d.ch[c].state != Idle && d.ch[c].mapping == Some(7) && 7 in d.maps
    requires RoomFrom(d.table, k)
    ensures var e := Next(d, Cleanup);
      && e.turn == Ready && e.ch[c].state == Idle
      && e.ch[c].vmas == d.ch[c].vmas && e.ch[c].page.mask == d.ch[c].page.mask
      && e.ch[c].page.counters == d.ch[c].page.counters && e.ch[c].descSize == 0
      && e.maps == d.maps[7 := d.maps[7].(active := -1)] && e.irqsrc == d.irqsrc && e.work == d.work
      && (d.ch[c].state != Running ==> e.fastIrq == d.fastIrq)
      && (d.ch[c].state == Running ==> e.fastIrq == d.fastIrq - {c})
      && (forall j: ChannelId | j != c :: e.ch[j] == d.ch[j]) && RoomFrom(e.table, k)
  {
  }

  /** After a stream that could not be started, a transfer runs and is waited for that no interrupt
      can complete. */
  lemma {:induction false} LeakedInterrupt() returns (ss: seq<Step>)
    ensures IsRun(Start(), ss)
    ensures var d := After(Start(), ss);
      d.turn == Waiting(0) && d.ch[0].state == Running && 0 in d.fastIrq && !CanComplete(d, 0, false)
  {
    OpenedRun();
    var s0 := Opened();
    Always(s0);
    ExecuteFails(WithMapping(), 0, 0);
    var s1 := s0 + [Exec(0, MODE_STREAM, TO_DEVICE)];
    Continue(Start(), s0, Exec(0, MODE_STREAM, TO_DEVICE));
    CleanedUp(After(Start(), s1), 0, 0);
    Continue(Start(), s1, Cleanup);
    var s2 := s1 + [Cleanup];
    Always(s2);
    Executed(After(Start(), s2), 0, MODE_DEFAULT, 0);
    Continue(Start(), s2, Exec(0, MODE_DEFAULT, FROM_DEVICE));
    ss := s2 + [Exec(0, MODE_DEFAULT, FROM_DEVICE)];
    Always(ss);
    CompletionExact(After(Start(), ss), 0);
  }

  /** The state page of channel 0 is mapped by a user, and a stream on it could not be started. */
  lemma {:induction false} StreamFailed() returns (ss: seq<Step>)
    ensures IsRun(Start(), ss)
    ensures var d := After(Start(), ss);
      && d.turn == Cleaning(0) && d.ch[0].state == Error && d.ch[0].mapping == Some(7) && d.ch[0].vmas == 1
      && d.ch[0].page.mask == 0 && d.ch[0].page.counters == Stream.START && 0 in d.fastIrq
      && 7 in d.maps && d.maps[7] == MapInfo(Some(1), BIDIRECTIONAL, 0) && RoomFrom(d.table, 0)
  {
    OpenedRun();
    var s0 := Opened();
    Continue(Start(), s0, Mmap(0, true));
    var s1 := s0 + [Mmap(0, true)];
    Always(s1);
    var d1 := After(Start(), s1);
    assert d1.ch[0].vmas == 1 && d1.maps == WithMapping().maps && RoomFrom(d1.table, 0);
    ExecuteFails(d1, 0, 0);
    Continue(Start(), s1, Exec(0, MODE_STREAM, TO_DEVICE));
    ss := s1 + [Exec(0, MODE_STREAM, TO_DEVICE)];
  }

  /** ... and if its state page is mapped by a user, the handler divides by zero on any register. */
  lemma {:induction false} DivisorLost() returns (ss: seq<Step>)
    ensures IsRun(Start(), ss)
    ensures var d := After(Start(), ss);
      && 0 in d.fastIrq && d.turn == Ready && d.ch[0].page.mask == 0 && d.ch[0].Descs() == 0 && d.ch[0].page.present
      && d.ch[0].state == Idle && d.ch[0].page.counters == Stream.START
      && 7 in d.maps && d.maps[7] == MapInfo(Some(1), BIDIRECTIONAL, -1)
    ensures forall hi :: HandlerFaults(After(Start(), ss).ch[0], hi)
  {
    var s2 := StreamFailed();
    CleanedUp(After(Start(), s2), 0, 0);
    Continue(Start(), s2, Cleanup);
    ss := s2 + [Cleanup];
    Always(ss);
  }

  /** A transfer of two descriptors whose list is not valid. */
  function BadList(): Step {
    DoExecute(Some(1),
              Request(7, Params(0, 0, 128, 64, 0, 0, 0, MODE_DEFAULT, FROM_DEVICE, 0, 0), Some(UserList(128, true))),
              ALL_WELL.(listOk := false))
  }

  lemma {:induction false} BadListFails(d: Device)
    requires Inv(d) && d.turn == Ready && d.ch[0].state == Idle
    requires 7 in d.maps && d.maps[7] == MapInfo(Some(1), BIDIRECTIONAL, -1)
    ensures Enabled(d, BadList())
    ensures var e := Next(d, BadList());
      e.ch[0].page == d.ch[0].page && e.ch[0].mapping == None && e.ch[0].descSize == 192 && e.fastIrq == d.fastIrq
  {
    var r, e := BadList().req, BadList().env;
    assert W32(ListBytes(r) + Terminator(r.params)) == 192;
    assert Validate(d, Some(1), r) == Ok;
  }

  /** ... and after an execute that fails on its list, its loop has no mapping to synchronise. */
  lemma {:induction false} LoopLost() returns (ss: seq<Step>)
    ensures IsRun(Start(), ss)
    ensures var d := After(Start(), ss);
      0 in d.fastIrq && d.ch[0].mapping == None && d.ch[0].Descs() == 3 && HandlerFaults(d.ch[0], 1)
  {
    var s0 := DivisorLost();
    Always(s0);
    var d0 := After(Start(), s0);
    BadListFails(d0);
    Continue(Start(), s0, BadList());
    ss := s0 + [BadList()];
    var ch := After(Start(), ss).ch[0];
    Always(ss);
    assert ch.Descs() == 3 && Decoded(ch, 1) == 1 && Processed(ch, 1) == 1;
    assert SyncFaults(ch, 1);
  }

  /** Mapping a state page without memory for it leaves the device locked for good. */
  lemma {:induction false} MutexLost() returns (ss: seq<Step>)
    ensures IsRun(Start(), ss) && After(Start(), ss).turn == Leaked
    ensures forall tt | IsRun(After(Start(), ss), tt) :: After(After(Start(), ss), tt).turn == Leaked
  {
    ss := [Mmap(0, false)];
    assert IsRun(Start(), []) && [] + [Mmap(0, false)] == ss;
    Continue(Start(), [], Mmap(0, false));
    forall tt | IsRun(After(Start(), ss), tt) ensures After(After(Start(), ss), tt).turn == Leaked {
      LockedForever(After(Start(), ss), tt);
    }
  }

  /** Two streams on one mapping. */
  lemma {:induction false} TwoStreams() returns (ss: seq<Step>)
    ensures IsRun(Start(), ss)
    ensures var d := After(Start(), ss);
      && d.turn == Ready && d.ch[0].RunningStream() && d.ch[0].mapping == Some(7)
      && d.ch[2].RunningStream() && d.ch[2].mapping == Some(7)
      && 7 in d.maps && d.maps[7].owner == Some(1) && d.maps[7].active == 2 && 1 in d.files
  {
    OpenedRun();
    var s0 := Opened();
    Always(s0);
    Executed(WithMapping(), 0, MODE_STREAM, 0);
    Continue(Start(), s0, Exec(0, MODE_STREAM, FROM_DEVICE));
    var s1 := s0 + [Exec(0, MODE_STREAM, FROM_DEVICE)];
    Always(s1);
    Executed(After(Start(), s1), 2, MODE_STREAM, 2);
    Continue(Start(), s1, Exec(2, MODE_STREAM, FROM_DEVICE));
    ss := s1 + [Exec(2, MODE_STREAM, FROM_DEVICE)];
  }

  /** Cancelling one clears the mark, and unmapping then leaves the other one running on a mapping
      that is gone. */
  lemma {:induction false} MappingLost() returns (ss: seq<Step>)
    ensures IsRun(Start(), ss)
    ensures var d := After(Start(), ss);
      d.ch[0].RunningStream() && d.ch[0].mapping == Some(7) && 7 !in d.maps
  {
    var s2 := TwoStreams();
    Always(s2);
    Continue(Start(), s2, Cancel(2));
    var s3 := s2 + [Cancel(2)];
    var d3 := After(Start(), s3);
    assert d3.maps[7].active == -1 && d3.ch[0] == After(Start(), s2).ch[0];
    Continue(Start(), s3, Unlock(1, 7));
    ss := s3 + [Unlock(1, 7)];
  }

  /** A late interrupt of a transfer that timed out completes the next one. */
  lemma {:induction false} StaleInterrupt() returns (ss: seq<Step>)
    ensures IsRun(Start(), ss)
    ensures var d := After(Start(), ss);
      d.turn == Waiting(0) && d.ch[0].state == Running && CanComplete(d, 0, true)
  {
    OpenedRun();
    var s0 := Opened();
    Always(s0);
    Executed(WithMapping(), 0, MODE_DEFAULT, 0);
    Continue(Start(), s0, Exec(0, MODE_DEFAULT, FROM_DEVICE));
    var s1 := s0 + [Exec(0, MODE_DEFAULT, FROM_DEVICE)];
    Continue(Start(), s1, Irq(0, 0));
    var s2 := s1 + [Irq(0, 0)];
    Continue(Start(), s2, WaitEnds(false));
    var s3 := s2 + [WaitEnds(false)];
    CleanedUp(After(Start(), s3), 0, 2);
    Continue(Start(), s3, Cleanup);
    var s4 := s3 + [Cleanup];
    Always(s4);
    Executed(After(Start(), s4), 0, MODE_DEFAULT, 2);
    Continue(Start(), s4, Exec(0, MODE_DEFAULT, FROM_DEVICE));
    ss := s4 + [Exec(0, MODE_DEFAULT, FROM_DEVICE)];
    Always(ss);
    StaleCompletionExact(After(Start(), ss), 0);
  }
}
