/** What users of the driver can rely on in every run, and exactly when. */
module Protocol {
  import opened Words
  import opened Descriptors
  import opened PageTable
  import opened Translate
  import opened Publish
  import opened Lifecycle
  import opened Reachable
  import opened Space
  import Stream

  // ----- The state graph ---------------------------------------------------------------------------

  /** Idle channels leave their state only by an execute, a transfer completes only in the work of
      its channel and only if it is no stream, and only a cleanup, a cancel or the end of a mapping
      makes a channel idle again. */
  lemma {:induction false} StateGraph(d: Device, s: Step, k: ChannelId)
    requires Inv(d) && Enabled(d, s)
    ensures var ch, next := d.ch[k], Next(d, s).ch[k].state;
      ch.state != next ==>
        && Touches(d, s, k)
        && (ch.state == Idle ==> s.DoExecute? && next in {Initialized, Running, Error})
        && (next == Idle ==> s.Cleanup? || s.Cancel? || s.Unlock? || s.Release?)
        && (ch.state != Idle && next != Idle ==>
              s == Work(k) && !ch.IsStream() && ch.state == Running && next == Complete)
  {
    if !Touches(d, s, k) {
      ChannelIsolation(d, s, k);
    } else {
      match s {
        case DoExecute(file, r, e) => ExecuteStates(d, file, r, e);
        case Cleanup => ResetOk(d, k);
        case Cancel(n) => StopOk(d, k);
        case Unlock(f, id) =>
          if id in d.maps {
            UnmapStates(d, [id], k);
            assert UnmapAll(d, []) == d && [id][..0] == [];
          }
        case Release(f) => UnmapStates(d, d.files[f], k);
        case _ =>
      }
    }
  }

  lemma {:induction false} ExecuteStates(d: Device, file: Option<nat>, r: Request, e: Env)
    requires Inv(d) && Enabled(d, DoExecute(file, r, e)) && r.params.channel < 3
    ensures var c := r.params.channel;
      var next := Execute(d, file, r, e).ch[c].state;
      d.ch[c].state == next || (d.ch[c].state == Idle && next in {Initialized, Running, Error})
  {
    if Validate(d, file, r) == Ok {
      InitOk(d, r, e);
      var (ok, d1) := Init(d, r, e);
      if ok {
        DispatchOk(d, d1, r, e);
      } else {
        PrepareOk(d.ch[r.params.channel], r, e);
      }
    }
  }

  /** Unmapping leaves a channel as it was or makes it idle. */
  lemma {:induction false} UnmapStates(d: Device, ids: seq<nat>, k: ChannelId)
    requires Inv(d) && !d.turn.Waiting? && !d.turn.Cleaning?
    ensures var next := UnmapAll(d, ids).ch[k]; next == d.ch[k] || next.state == Idle
  {
    if ids != [] {
      var rest, id := ids[..|ids| - 1], ids[|ids| - 1];
      UnmapAllOk(d, rest);
      UnmapStates(d, rest, k);
      var d1 := UnmapAll(d, rest);
      if id in d1.maps && d1.maps[id].active != k {
        UnmapSpares(d1, id, k);
      } else if id in d1.maps {
        StopOk(d1, k);
      }
    }
  }

  /** An execute that changes anything was asked for by the owner of the mapping, or for the driver's
      own one, in a direction that the mapping allows, on an idle channel, with a list of at most
      256 descriptors if the user made it. */
  lemma {:induction false} ExecuteAllowed(d: Device, file: Option<nat>, r: Request, e: Env)
    requires Inv(d) && Enabled(d, DoExecute(file, r, e)) && Execute(d, file, r, e) != d
    ensures r.params.channel < NUM_CHANNELS && d.ch[r.params.channel].state == Idle && r.id in d.maps
    ensures d.maps[r.id].owner == None || d.maps[r.id].owner == file
    ensures d.maps[r.id].direction == BIDIRECTIONAL || d.maps[r.id].direction == r.params.direction
    ensures r.params.direction == TO_DEVICE || r.params.direction == FROM_DEVICE
    ensures r.user.Some? ==> r.user.value.size <= 256 * DESC_BYTES && r.user.value.size % DESC_BYTES == 0
  {
    ExecuteOk(d, file, r, e);
  }

  // ----- What a request must be ----------------------------------------------------------------------

  /** The mapping of the request is the driver's or the file's own, and it admits the direction. */
  predicate MayUse(d: Device, file: Option<nat>, r: Request) {
    && r.id in d.maps
    && (d.maps[r.id].owner == None || d.maps[r.id].owner == file)
    && (d.maps[r.id].direction == 0 || d.maps[r.id].direction == r.params.direction)
  }

  /** A list of the user is one of 256 descriptors at most. */
  predicate ShortList(r: Request) {
    r.user == None || r.user.value.size <= 16384
  }

  /** It is of the known type and has no partial descriptor. */
  predicate WholeList(r: Request) {
    r.user == None || (r.user.value.typeOk && r.user.value.size % 64 == 0)
  }

  /** The requests that an execute goes on with: for an idle channel that exists, on a mapping that may be
      used, to the device or from it, and with a short and whole list if the user made it. */
  predicate Acceptable(d: Device, file: Option<nat>, r: Request) {
    && 0 <= r.params.channel < 3 && d.ch[r.params.channel].state == Idle && MayUse(d, file, r)
    && (r.params.direction == 1 || r.params.direction == 2) && ShortList(r) && WholeList(r)
  }

  /** The verdict on every request: it goes on exactly if it is acceptable. It is busy exactly if nothing but
      the channel stands against it so far, and too large exactly if only its list is left to judge. */
  lemma {:induction false} ValidateExact(d: Device, file: Option<nat>, r: Request)
    ensures Validate(d, file, r) == Ok <==> Acceptable(d, file, r)
    ensures Validate(d, file, r) == Busy
            <==> 0 <= r.params.channel < 3 && MayUse(d, file, r) && d.ch[r.params.channel].state != Idle
    ensures Validate(d, file, r) == TooLarge
            <==> 0 <= r.params.channel < 3 && MayUse(d, file, r) && d.ch[r.params.channel].state == Idle
                 && (r.params.direction == 1 || r.params.direction == 2) && !ShortList(r)
  {
  }

  // ----- When a transfer starts --------------------------------------------------------------------

  /** The test on a request, before it is executed, that decides whether its transfer starts. */
  predicate CanStart(d: Device, file: Option<nat>, r: Request, e: Env) {
    && Acceptable(d, file, r) && Initialises(d.ch[r.params.channel], r, e)
    && (r.params.transferMode == MODE_DEFAULT || r.params.transferMode == MODE_STREAM)
    && r.params.direction == FROM_DEVICE && HasRoom(d.table, r.params, e.busAddr, e.addrs)
  }

  /** An execute on an idle channel starts its transfer exactly if it passes that test. */
  lemma {:induction false} ExecuteStartsExact(d: Device, file: Option<nat>, r: Request, e: Env)
    requires Inv(d) && Enabled(d, DoExecute(file, r, e))
    requires r.params.channel < NUM_CHANNELS && d.ch[r.params.channel].state == Idle
    ensures Execute(d, file, r, e).ch[r.params.channel].state == Running <==> CanStart(d, file, r, e)
  {
    ValidateExact(d, file, r);
    if Validate(d, file, r) == Ok {
      InitOk(d, r, e);
      InitExact(d, r, e);
      PrepareOk(d.ch[r.params.channel], r, e);
      StartExact(d.table, r.params, e.busAddr, e.addrs);
    }
  }

  /** On an idle channel, and without a page at address 0, room is a slot for the page of the list
      and one for every other page of the data. */
  lemma {:induction false} RoomWhenIdle(d: Device, p: Params, bus: u64, addrs: seq<u64>)
    requires Inv(d) && p.channel < NUM_CHANNELS && d.ch[p.channel].state == Idle && 0 !in Pages(addrs)
    ensures HasRoom(d.table, p, bus, addrs)
            <==> 1 + |PageSet(Pages(addrs)) - {PageBase(bus)}| <= FreeCount(d.table)
  {
    assert PagesOf(d.table, p.channel) == {};
    assert {} + {PageBase(bus)} == {PageBase(bus)};
    NewPagesDistinct({PageBase(bus)}, Pages(addrs), |addrs|);
    assert Pages(addrs)[..|addrs|] == Pages(addrs);
  }

  // ----- Between ioctls, and after an execute ------------------------------------------------------------

  /** In every reachable state with no ioctl in progress every channel is idle, and then holds no
      mapping, no slot and no reference on its state page, or runs a stream whose interrupts are
      handled at once and whose handler can divide by the size of its ring. */
  lemma {:induction false} BetweenIoctls(ss: seq<Step>, c: ChannelId)
    requires IsRun(Start(), ss) && After(Start(), ss).turn == Ready
    ensures var d := After(Start(), ss);
      || (d.ch[c].state == Idle && d.ch[c].mapping == None && NoSlots(d.table, c) && d.ch[c].page.refs == d.ch[c].vmas)
      || (d.ch[c].RunningStream() && c in d.fastIrq && d.ch[c].page.present && HandlerReady(d.ch[c]))
  {
    Always(ss);
  }

  /** The execute on channel c is in progress. */
  predicate InProgress(d: Device, c: ChannelId) {
    d.turn == Waiting(c) || d.turn == Cleaning(c)
  }

  /** ... in every state of the run but the last. */
  predicate ProgressUntilEnd(d: Device, ss: seq<Step>, c: ChannelId)
    requires IsRun(d, ss)
    decreases |ss|
  {
    ss == [] || (InProgress(After(d, ss[..|ss| - 1]), c) && ProgressUntilEnd(d, ss[..|ss| - 1], c))
  }

  /** Whatever interleaves with an execute, its channel stays its own until the end, and then is
      idle and holds nothing. */
  lemma {:induction false} ExecuteEndsIdle(d: Device, ss: seq<Step>, c: ChannelId)
    requires Inv(d) && InProgress(d, c) && IsRun(d, ss) && ProgressUntilEnd(d, ss, c)
    ensures var e := After(d, ss);
      && Inv(e)
      && (InProgress(e, c)
          || (e.turn == Ready && e.ch[c].state == Idle && e.ch[c].mapping == None && NoSlots(e.table, c)))
  {
    if ss != [] {
      var rest, s := ss[..|ss| - 1], ss[|ss| - 1];
      ExecuteEndsIdle(d, rest, c);
      var e := After(d, rest);
      StepKeeps(e, s);
      if s.Cleanup? {
        ResetOk(e, c);
      }
    }
  }

  // ----- Completion ------------------------------------------------------------------------------------------

  predicate NoIrq(ss: seq<Step>, c: ChannelId) {
    forall i | 0 <= i < |ss| :: !(ss[i].Irq? && ss[i].c == c)
  }

  predicate Pending(d: Device, c: ChannelId) {
    c in d.irqsrc || c in d.work
  }

  /** Without an interrupt, now or pending, nothing completes. */
  lemma {:induction false} NothingCompletes(d: Device, ss: seq<Step>, c: ChannelId)
    requires Inv(d) && IsRun(d, ss) && NoIrq(ss, c) && !Pending(d, c) && d.ch[c].state != Complete
    ensures Inv(After(d, ss)) && !Pending(After(d, ss), c) && After(d, ss).ch[c].state != Complete
  {
    if ss != [] {
      var rest, s := ss[..|ss| - 1], ss[|ss| - 1];
      NothingCompletes(d, rest, c);
      StepKeeps(After(d, rest), s);
      StateGraph(After(d, rest), s, c);
      StillNotPending(After(d, rest), s, c);
    }
  }

  lemma {:induction false} StillNotPending(d: Device, s: Step, c: ChannelId)
    requires Inv(d) && Enabled(d, s) && !(s.Irq? && s.c == c) && !Pending(d, c)
    ensures !Pending(Next(d, s), c)
  {
    match s {
      case DoExecute(file, r, e) =>
      case Cancel(n) =>
      case Unlock(f, id) =>
      case Release(f) => UnmapAllQueues(d, d.files[f]);
      case _ =>
    }
  }

  lemma {:induction false} UnmapAllQueues(d: Device, ids: seq<nat>)
    ensures UnmapAll(d, ids).irqsrc == d.irqsrc && UnmapAll(d, ids).work == d.work
  {
    if ids != [] {
      UnmapAllQueues(d, ids[..|ids| - 1]);
    }
  }

  /** An execute that reports success does so because its transfer was marked complete. */
  lemma {:induction false} SuccessIsCompletion(ss: seq<Step>)
    requires IsRun(Start(), ss) && Enabled(After(Start(), ss), WaitEnds(true))
    ensures var d := After(Start(), ss);
      d.ch[d.turn.c].state == Complete && !d.ch[d.turn.c].IsStream()
  {
    Always(ss);
  }

  /** Some run of the kind completes the transfer. */
  ghost predicate CanComplete(d: Device, c: ChannelId, quiet: bool) {
    exists ss ::
      IsRun(d, ss) && (quiet ==> NoIrq(ss, c)) && AllWaiting(d, ss, c) && After(d, ss).ch[c].state == Complete
  }

  /** The execute waits in every state of the run. */
  predicate AllWaiting(d: Device, ss: seq<Step>, c: ChannelId)
    requires IsRun(d, ss)
    decreases |ss|
  {
    After(d, ss).turn == Waiting(c) && (ss == [] || AllWaiting(d, ss[..|ss| - 1], c))
  }

  /** A transfer can be completed without an interrupt of its own, exactly when one from before it
      started is still on its way through the tasklet or the work queue. */
  lemma {:induction false} StaleCompletionExact(d: Device, c: ChannelId)
    requires Inv(d) && d.turn == Waiting(c) && d.ch[c].state == Running
    ensures CanComplete(d, c, true) <==> Pending(d, c)
  {
    if !Pending(d, c) {
      forall ss | IsRun(d, ss) && NoIrq(ss, c)
        ensures After(d, ss).ch[c].state != Complete
      {
        NothingCompletes(d, ss, c);
      }
    } else {
      var ss := [Tasklet, Work(c)];
      TaskletWork(d, [], c);
      assert [] + [Tasklet, Work(c)] == ss;
      assert CanComplete(d, c, true);
    }
  }

  /** A run can be continued by an enabled step. */
  lemma {:induction false} Continue(d: Device, ss: seq<Step>, s: Step)
    requires IsRun(d, ss) && Enabled(After(d, ss), s)
    ensures IsRun(d, ss + [s]) && After(d, ss + [s]) == Next(After(d, ss), s)
    ensures (ss + [s])[..|ss|] == ss
  {
    var tt := ss + [s];
    assert tt[..|tt| - 1] == ss && tt[|tt| - 1] == s;
  }

  /** Interrupt, tasklet and work do not end the wait. */
  lemma {:induction false} WaitsOn(d: Device, ss: seq<Step>, s: Step, c: ChannelId)
    requires IsRun(d, ss) && AllWaiting(d, ss, c) && (s == Tasklet || s == Work(c) || s == Irq(c, 0))
    requires Enabled(After(d, ss), s)
    ensures IsRun(d, ss + [s]) && AllWaiting(d, ss + [s], c)
    ensures After(d, ss + [s]) == Next(After(d, ss), s)
  {
    Continue(d, ss, s);
  }

  /** From a run that leaves the interrupt pending, tasklet and work complete the transfer. */
  lemma {:induction false} TaskletWork(d: Device, ss: seq<Step>, c: ChannelId)
    requires IsRun(d, ss) && AllWaiting(d, ss, c) && Pending(After(d, ss), c)
    requires After(d, ss).ch[c].state == Running && !After(d, ss).ch[c].IsStream()
    ensures var tt := ss + [Tasklet, Work(c)];
      IsRun(d, tt) && AllWaiting(d, tt, c) && After(d, tt).ch[c].state == Complete
  {
    var t1 := ss + [Tasklet];
    WaitsOn(d, ss, Tasklet, c);
    WaitsOn(d, t1, Work(c), c);
    assert t1 + [Work(c)] == ss + [Tasklet, Work(c)];
  }

  /** While the execute waits, the fast interrupts stay as they are; a fast one goes to the stream
      handler and never becomes pending. */
  lemma {:induction false} FastNeverCompletes(d: Device, ss: seq<Step>, c: ChannelId)
    requires Inv(d) && d.ch[c].state == Running && c in d.fastIrq && !Pending(d, c)
    requires IsRun(d, ss) && AllWaiting(d, ss, c)
    ensures var e := After(d, ss);
      Inv(e) && e.ch[c].state == Running && c in e.fastIrq && !Pending(e, c)
  {
    if ss != [] {
      var rest, s := ss[..|ss| - 1], ss[|ss| - 1];
      FastNeverCompletes(d, rest, c);
      StepKeeps(After(d, rest), s);
    }
  }

  /** A transfer that is waited for can be completed exactly when the fast interrupt of its channel
      is off, or an earlier interrupt is still on its way. */
  lemma {:induction false} CompletionExact(d: Device, c: ChannelId)
    requires Inv(d) && d.turn == Waiting(c) && d.ch[c].state == Running
    ensures CanComplete(d, c, false) <==> c !in d.fastIrq || Pending(d, c)
  {
    if Pending(d, c) {
      StaleCompletionExact(d, c);
    } else if c in d.fastIrq {
      forall ss | IsRun(d, ss) && AllWaiting(d, ss, c)
        ensures After(d, ss).ch[c].state != Complete
      {
        FastNeverCompletes(d, ss, c);
      }
    } else {
      InterruptCompletes(d, c);
    }
  }

  lemma {:induction false} InterruptCompletes(d: Device, c: ChannelId)
    requires Inv(d) && d.turn == Waiting(c) && d.ch[c].state == Running && c !in d.fastIrq
    ensures CanComplete(d, c, false)
  {
    InterruptRun(d, c);
    TaskletWork(d, [Irq(c, 0)], c);
  }

  /** The run of the one interrupt leaves it pending. */
  lemma {:induction false} InterruptRun(d: Device, c: ChannelId)
    requires Inv(d) && d.turn == Waiting(c) && d.ch[c].state == Running && c !in d.fastIrq
    ensures IsRun(d, [Irq(c, 0)]) && AllWaiting(d, [Irq(c, 0)], c)
    ensures var e := After(d, [Irq(c, 0)]);
      Pending(e, c) && e.ch[c].state == Running && !e.ch[c].IsStream()
  {
    assert IsRun(d, []) && AllWaiting(d, [], c) && [] + [Irq(c, 0)] == [Irq(c, 0)];
    InterruptPending(d, c);
    WaitsOn(d, [], Irq(c, 0), c);
  }

  lemma {:induction false} InterruptPending(d: Device, c: ChannelId)
    requires Inv(d) && d.turn == Waiting(c) && d.ch[c].state == Running && c !in d.fastIrq
    ensures Enabled(d, Irq(c, 0))
    ensures var e := Next(d, Irq(c, 0));
      Pending(e, c) && e.ch[c].state == Running && !e.ch[c].IsStream()
  {
  }

  // ----- The fast interrupts -------------------------------------------------------------------------------------

  /** The fast interrupts are those of the running streams. */
  predicate Precise(d: Device) {
    forall c: ChannelId :: c in d.fastIrq <==> d.ch[c].RunningStream()
  }

  /** The step starts a stream that cannot run: a request that is valid and initialises, but is not
      from the device or needs more slots than are free. */
  predicate FailsToStream(d: Device, s: Step) {
    && s.DoExecute? && Acceptable(d, s.asked, s.req)
    && Initialises(d.ch[s.req.params.channel], s.req, s.env)
    && s.req.params.transferMode == MODE_STREAM
    && !(s.req.params.direction == FROM_DEVICE && HasRoom(d.table, s.req.params, s.env.busAddr, s.env.addrs))
  }

  /** The fast interrupts stay those of the running streams, except after exactly these steps. */
  lemma {:induction false} FastIrqExact(d: Device, s: Step)
    requires Inv(d) && Precise(d) && Enabled(d, s)
    ensures Precise(Next(d, s)) <==> !FailsToStream(d, s)
  {
    match s {
      case DoExecute(file, r, e) => FastIrqExecute(d, file, r, e);
      case Cleanup => ResetPrecise(d, d.turn.c);
      case Cancel(n) =>
        if n < 3 {
          AbortPrecise(d, n);
          ResetPrecise(Abort(d, n), n);
        }
      case Unlock(f, id) =>
        if id in d.maps {
          StepKeeps(d, s);
          UnmapPrecise(d, id);
        }
      case Release(f) => UnmapAllPrecise(d, d.files[f]);
      case Work(c) => StepKeeps(d, s);
      case _ =>
    }
  }

  lemma {:induction false} AbortPrecise(d: Device, c: ChannelId)
    requires Precise(d)
    ensures Precise(Abort(d, c))
  {
  }

  lemma {:induction false} ResetPrecise(d: Device, c: ChannelId)
    requires Precise(d)
    ensures Precise(Reset(d, c))
  {
    AbortPrecise(d, c);
  }

  lemma {:induction false} UnmapPrecise(d: Device, id: nat)
    requires Precise(d) && id in d.maps
    ensures Precise(Unmap(d, id))
  {
    var a := d.maps[id].active;
    if 0 <= a < 3 {
      AbortPrecise(d, a);
      ResetPrecise(Abort(d, a), a);
    }
  }

  lemma {:induction false} UnmapAllPrecise(d: Device, ids: seq<nat>)
    requires Precise(d)
    ensures Precise(UnmapAll(d, ids))
  {
    if ids != [] {
      UnmapAllPrecise(d, ids[..|ids| - 1]);
      var d1 := UnmapAll(d, ids[..|ids| - 1]);
      if ids[|ids| - 1] in d1.maps {
        UnmapPrecise(d1, ids[|ids| - 1]);
      }
    }
  }

  lemma {:induction false} FastIrqExecute(d: Device, file: Option<nat>, r: Request, e: Env)
    requires Inv(d) && Precise(d) && Enabled(d, DoExecute(file, r, e))
    ensures Precise(Execute(d, file, r, e)) <==> !FailsToStream(d, DoExecute(file, r, e))
  {
    ValidateExact(d, file, r);
    if Validate(d, file, r) == Ok {
      var c := r.params.channel as ChannelId;
      InitOk(d, r, e);
      InitExact(d, r, e);
      var (ok, d1) := Init(d, r, e);
      PrepareOk(d.ch[c], r, e);
      if ok {
        StartExact(d.table, r.params, e.busAddr, e.addrs);
        var (t, s) := StartTable(d.table, r.params, e.busAddr, e.addrs);
        DispatchPrecise(d, d1, r, t, s);
      }
    }
  }

  lemma {:induction false} DispatchPrecise(d: Device, d1: Device, r: Request, t: Table, s: ChannelState)
    requires Precise(d) && r.params.channel < 3 && d.ch[r.params.channel].state == Idle
    requires OnlyChannel(d, d1, r.params.channel as ChannelId) && d1.fastIrq == d.fastIrq
    requires Taken(d1.ch[r.params.channel], r)
    ensures var c, stream := r.params.channel as ChannelId, r.params.transferMode == MODE_STREAM;
      && (Precise(Dispatched(d1, c, stream, t, s)) <==> !(stream && s != Running))
      && Precise(d1)
  {
    var c, stream := r.params.channel as ChannelId, r.params.transferMode == MODE_STREAM;
    var d2 := Dispatched(d1, c, stream, t, s);
    assert forall k: ChannelId | k != c :: d2.ch[k] == d.ch[k] && (k in d2.fastIrq <==> k in d.fastIrq);
    assert c in d2.fastIrq <==> stream;
  }

  // ----- The state page of a stream --------------------------------------------------

  /** While a transfer streams, its counters are changed by its interrupts alone: mapping the page,
      unmapping it and a fork leave them, and the page itself, in place. */
  lemma {:induction false} StreamKeepsCounters(d: Device, s: Step, c: ChannelId)
    requires Inv(d) && Enabled(d, s) && d.ch[c].Streams() && Next(d, s).ch[c].Streams()
    ensures var page, next := d.ch[c].page, Next(d, s).ch[c].page;
      && page.present && next.present && next.mask == page.mask
      && (next.counters != page.counters ==> s.Irq? && s.c == c)
      && next.refs - page.refs == Next(d, s).ch[c].vmas - d.ch[c].vmas
  {
    StepKeeps(d, s);
    if !Touches(d, s, c) {
      ChannelIsolation(d, s, c);
    } else {
      match s {
        case DoExecute(file, r, e) => assert Validate(d, file, r) != Ok;
        case Cleanup => ResetOk(d, c);
        case Cancel(n) => StopOk(d, c);
        case Unlock(f, id) =>
          if id in d.maps {
            UnmapStates(d, [id], c);
            assert UnmapAll(d, []) == d && [id][..0] == [];
          }
        case Release(f) => UnmapStates(d, d.files[f], c);
        case Irq(_, hi) => StreamIrqOk(d.ch[c], hi);
        case _ =>
      }
    }
  }

  /** The handler is entered for this channel and faults, for some register: it divides by zero,
      its loop has no mapping or leaves the list, or the mapping of the channel is gone. */
  ghost predicate IrqFaults(d: Device, c: ChannelId) {
    c in d.fastIrq && d.ch[c].page.present
    && ((exists hi: u16 :: HandlerFaults(d.ch[c], hi))
        || (d.ch[c].mapping.Some? && d.ch[c].mapping.value !in d.maps))
  }

  lemma {:induction false} SyncInRing(from: int, k: nat, n: nat)
    requires 0 <= from < n
    ensures 0 <= SyncAt(from, k, n) < n
  {
    if k > 0 {
      SyncInRing(from, k - 1, n);
    }
  }

  /** The handler of a channel that holds a stream, running or not, works on its ring: it never faults, its
      guard never rejects the advance, and one fast interrupt is one step of the producer and changes
      nothing else. That of a running stream is fast. */
  lemma {:induction false} HandlerExact(d: Device, c: ChannelId, hi: u16)
    requires Inv(d) && d.ch[c].Streams()
    ensures !HandlerFaults(d.ch[c], hi) && d.ch[c].Descs() > 0 && (d.ch[c].state == Running ==> c in d.fastIrq)
    ensures var ch, n := d.ch[c], d.ch[c].Descs();
      c in d.fastIrq ==>
        DoIrq(d, c, hi)
        == d.(ch := d.ch[c := ch.(page := ch.page.(counters :=
                Stream.Interrupt(ch.page.counters, hi % n, n, ch.bytesPerDesc)))])
  {
    var ch := d.ch[c];
    Stream.DecodeIsModulo(hi, ch.Descs());
    DivMono(ch.descSize, ch.descCapacity, DESC_BYTES);
    forall k: nat ensures 0 <= SyncAt(ch.page.counters.writeSeq, k, ch.Descs()) < ch.Descs() {
      SyncInRing(ch.page.counters.writeSeq, k, ch.Descs());
    }
  }

  /** As long as the fast interrupts are those of running streams, no handler faults on the record of
      its channel. */
  lemma {:induction false} PreciseIsSafe(d: Device, c: ChannelId)
    requires Inv(d) && Precise(d)
    ensures c in d.fastIrq ==> forall hi: u16 :: !HandlerFaults(d.ch[c], hi)
    ensures IrqFaults(d, c) ==> d.ch[c].mapping.Some? && d.ch[c].mapping.value !in d.maps
  {
    if c in d.fastIrq {
      forall hi: u16 ensures !HandlerFaults(d.ch[c], hi) {
        HandlerExact(d, c, hi);
      }
    }
  }

  // ----- The device mutex ---------------------------------------------------------------------------------------

  /** A step that does not take the device mutex. */
  predicate WithoutMutex(s: Step) {
    s.Open? || s.VmaOpen? || s.VmaClose? || s.Irq? || s.Tasklet? || s.Work?
  }

  /** Mapping a state page leaves the device mutex free exactly if the page is there or there is
      memory for it. Otherwise no ioctl, mapping or release ever happens again. */
  lemma {:induction false} MmapMutexExact(d: Device, c: ChannelId, memory: bool, ss: seq<Step>)
    requires Enabled(d, Mmap(c, memory)) && IsRun(Next(d, Mmap(c, memory)), ss)
    ensures var d1 := Next(d, Mmap(c, memory));
      && (d1.turn == Ready <==> d.ch[c].page.present || memory)
      && (d1.turn != Ready ==> After(d1, ss).turn != Ready && forall i | 0 <= i < |ss| :: WithoutMutex(ss[i]))
  {
    if Next(d, Mmap(c, memory)).turn == Leaked {
      LockedForever(Next(d, Mmap(c, memory)), ss);
    }
  }

  lemma {:induction false} LockedForever(d: Device, ss: seq<Step>)
    requires d.turn == Leaked && IsRun(d, ss)
    ensures After(d, ss).turn == Leaked && forall i | 0 <= i < |ss| :: WithoutMutex(ss[i])
  {
    if ss != [] {
      var rest := ss[..|ss| - 1];
      LockedForever(d, rest);
      assert forall i | 0 <= i < |rest| :: ss[i] == rest[i];
    }
  }
}
