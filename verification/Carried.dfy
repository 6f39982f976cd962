/** The transfers of a run: every running channel of every reachable state carries the transfer of the
    request that started it, and what that transfer does through the registers as they are. */
module Carried {
  import opened Words
  import opened Descriptors
  import opened Window
  import opened Meaning
  import opened Generator
  import opened PageTable
  import opened Translate
  import opened Publish
  import opened Walk
  import opened EndToEnd
  import opened Transfers
  import opened UserLists
  import opened Lifecycle
  import opened Reachable
  import opened Protocol
  import opened Mappings
  import opened Flights
  import opened Delivery
  import opened DescCheck
  import Stream
  import Witnesses

  // ----- A run with its mappings and registers ----------------------------------------------------------

  /** What the steps of a run bring along: the memory that a step pins, and the list that a request has in
      its buffer, compiled or copied from the user. */
  datatype Inputs = Inputs(pinned: int -> Mapping, list: int -> seq<Descriptor>)
  {
    /** The memory of a mapping at the end of a run. */
    function Memory(ss: seq<Step>, id: nat): Mapping {
      pinned(PinnedAt(ss, id))
    }
  }

  /** Every request of the run that passes validation is explained by the memory of its mapping: its list is
      compiled for it, or is a list of the user and checked against it. */
  ghost predicate Explained(ss: seq<Step>, inputs: Inputs)
    requires IsRun(Start(), ss)
    decreases |ss|
  {
    ss == [] ||
    (var rest := ss[..|ss| - 1];
     Explained(rest, inputs) && StepExplained(After(Start(), rest), ss[|ss| - 1], rest, inputs))
  }

  ghost predicate StepExplained(d: Device, s: Step, before: seq<Step>, inputs: Inputs) {
    s.DoExecute? && Acceptable(d, s.asked, s.req) ==>
      Explains(inputs.Memory(before, s.req.id), inputs.list(|before|), s.req, s.env)
  }

  /** The step starts a transfer of the channel. */
  predicate Starts(d: Device, s: Step, c: ChannelId)
    requires Enabled(d, s)
  {
    s.DoExecute? && s.req.params.channel == c && d.ch[c].state == Idle && Next(d, s).ch[c].state == Running
  }

  /** The translation registers along a run from r0: each start programs the slots of its channel. */
  function Regs(r0: seq<RegPair>, ss: seq<Step>): (r: seq<RegPair>)
    requires |r0| == SLOTS && IsRun(Start(), ss)
    ensures |r| == SLOTS
    decreases |ss|
  {
    if ss == [] then r0 else NextRegs(Regs(r0, ss[..|ss| - 1]), After(Start(), ss[..|ss| - 1]), ss[|ss| - 1])
  }

  function NextRegs(regs: seq<RegPair>, d: Device, s: Step): (r: seq<RegPair>)
    requires |regs| == SLOTS && Enabled(d, s)
    ensures |r| == SLOTS
  {
    if s.DoExecute? && s.req.params.channel < NUM_CHANNELS && Starts(d, s, s.req.params.channel as ChannelId)
    then Programmed(regs, Next(d, s).table, s.req.params.channel)
    else regs
  }

  // ----- What a running channel keeps ------------------------------------------------------------------------

  ghost predicate SameSlots(t: Table, t': Table, c: ChannelId) {
    forall i | 0 <= i < SLOTS && (Matches(t[i], c as u8) || Matches(t'[i], c as u8)) :: t[i] == t'[i]
  }

  /** Two records that differ in the state page and its user mappings at most. */
  predicate SameTransfer(ch: Channel, ch': Channel) {
    ch' == ch.(page := ch'.page, vmas := ch'.vmas)
  }

  /** A step that leaves a channel running leaves its slots, and its record but for the state page. */
  lemma {:induction false} RunningKeeps(d: Device, s: Step, c: ChannelId)
    requires Inv(d) && Enabled(d, s) && d.ch[c].state == Running && Next(d, s).ch[c].state == Running
    ensures SameSlots(Next(d, s).table, d.table, c) && SameTransfer(d.ch[c], Next(d, s).ch[c])
  {
    if !Touches(d, s, c) {
      ChannelIsolation(d, s, c);
    } else {
      match s {
        case DoExecute(file, r, e) => assert Next(d, s) == d;
        case Cleanup => ResetOk(d, c);
        case Cancel(n) => StopOk(d, c);
        case Unlock(f, id) =>
          if id in d.maps && d.maps[id].owner == Some(f) {
            assert UnmapAll(d, []) == d && [id][..0] == [];
            UnmapKeeps(d, [id], c);
          }
        case Release(f) => UnmapKeeps(d, d.files[f], c);
        case _ =>
      }
    }
  }

  lemma {:induction false} UnmapKeeps(d: Device, ids: seq<nat>, c: ChannelId)
    requires Inv(d) && !d.turn.Waiting? && !d.turn.Cleaning? && UnmapAll(d, ids).ch[c].state == Running
    ensures SameSlots(UnmapAll(d, ids).table, d.table, c) && UnmapAll(d, ids).ch[c] == d.ch[c]
  {
    if ids != [] {
      var rest, id := ids[..|ids| - 1], ids[|ids| - 1];
      var d1 := UnmapAll(d, rest);
      UnmapAllOk(d, rest);
      if id in d1.maps {
        if d1.maps[id].active == c {
          StopOk(d1, c);
        } else {
          UnmapSpares(d1, id, c);
        }
      }
      UnmapKeeps(d, rest, c);
    }
  }

  /** Starts of other channels leave the registers of a running one. */
  lemma {:induction false} RunningKeepsRegs(regs: seq<RegPair>, d: Device, s: Step, c: ChannelId, k: nat)
    requires |regs| == SLOTS && k < SLOTS && Enabled(d, s) && d.ch[c].state == Running
    requires Matches(Next(d, s).table[k], c as u8)
    ensures NextRegs(regs, d, s)[k] == regs[k]
  {
  }

  // ----- The transfer that a channel carries ------------------------------------------------------------------

  /** The channel has run since step i of the run. */
  predicate RunningSince(ss: seq<Step>, c: ChannelId, i: nat)
    requires IsRun(Start(), ss)
    decreases |ss|
  {
    && i < |ss| && After(Start(), ss).ch[c].state == Running
    && if |ss| == i + 1 then Starts(After(Start(), ss[..i]), ss[i], c) else RunningSince(ss[..|ss| - 1], c, i)
  }

  /** The record of the channel, its slots, and the registers of its slots are those of the transfer. */
  ghost predicate Holds(d: Device, regs: seq<RegPair>, c: ChannelId, id: nat, f: Flight)
    requires |regs| == SLOTS
  {
    var ch := d.ch[c];
    && f.p.channel == c && |f.regs| == SLOTS
    && ch.mode == f.p.transferMode && ch.bytesPerDesc == f.p.bytesPerDescriptor && ch.mapping == Some(id)
    && ch.descSize == DESC_BYTES * |f.list| && SameSlots(d.table, f.t, c)
    && forall k | 0 <= k < SLOTS && Matches(d.table[k], c as u8) :: regs[k] == f.regs[k]
  }

  /** The transfer f is the one that step i of the run started: that of its request on the memory of its
      mapping, with the list in its buffer, placed in the table and programmed over the registers of that
      moment. The channel has run since, and still has its record, slots and registers. */
  ghost predicate Carries(ss: seq<Step>, c: ChannelId, r0: seq<RegPair>, inputs: Inputs, i: nat, f: Flight)
    requires IsRun(Start(), ss) && |r0| == SLOTS
  {
    && RunningSince(ss, c, i) && IsRun(Start(), ss[..i]) && ss[i].DoExecute?
    && IsTransferOf(f, inputs.Memory(ss[..i], ss[i].req.id), ss[i].req, ss[i].env)
    && f.ds == inputs.list(i) && f.JustStarted()
    && f.t0 == After(Start(), ss[..i]).table && f.regs0 == Regs(r0, ss[..i])
    && Holds(After(Start(), ss), Regs(r0, ss), c, ss[i].req.id, f)
  }

  /** In every reachable state, whatever requests, interrupts, cancels and ends of mappings came before,
      every running channel carries the transfer of the request that started it. */
  lemma {:induction false} RunningCarries(ss: seq<Step>, c: ChannelId, r0: seq<RegPair>, inputs: Inputs)
    returns (i: nat, f: Flight)
    requires IsRun(Start(), ss) && Explained(ss, inputs) && |r0| == SLOTS
    requires After(Start(), ss).ch[c].state == Running
    ensures Carries(ss, c, r0, inputs, i, f)
  {
    assert ss != [];
    var rest := ss[..|ss| - 1];
    if After(Start(), rest).ch[c].state == Running {
      i, f := RunningCarries(rest, c, r0, inputs);
      CarriesOn(ss, c, r0, inputs, i, f);
    } else {
      i := |rest|;
      f := BeginsToCarry(ss, c, r0, inputs);
    }
  }

  /** A step after which the channel still runs leaves its transfer. */
  lemma {:induction false} CarriesOn(ss: seq<Step>, c: ChannelId, r0: seq<RegPair>, inputs: Inputs, i: nat, f: Flight)
    requires IsRun(Start(), ss) && ss != [] && |r0| == SLOTS && After(Start(), ss).ch[c].state == Running
    requires Carries(ss[..|ss| - 1], c, r0, inputs, i, f)
    ensures Carries(ss, c, r0, inputs, i, f)
  {
    var rest, s := ss[..|ss| - 1], ss[|ss| - 1];
    Always(rest);
    assert rest[..i] == ss[..i] && rest[i] == ss[i];
    assert RunningSince(ss, c, i);
    StillHolds(After(Start(), rest), Regs(r0, rest), s, c, ss[i].req.id, f);
  }

  lemma {:induction false} BeginsToCarry(ss: seq<Step>, c: ChannelId, r0: seq<RegPair>, inputs: Inputs)
    returns (f: Flight)
    requires IsRun(Start(), ss) && ss != [] && Explained(ss, inputs) && |r0| == SLOTS
    requires After(Start(), ss).ch[c].state == Running && After(Start(), ss[..|ss| - 1]).ch[c].state != Running
    ensures Carries(ss, c, r0, inputs, |ss| - 1, f)
  {
    var i, s := |ss| - 1, ss[|ss| - 1];
    var rest := ss[..i];
    var d := After(Start(), rest);
    Always(rest);
    StateGraph(d, s, c);
    assert Starts(d, s, c) && RunningSince(ss, c, i);
    f := StepCarries(d, s, c, Regs(r0, rest), inputs.Memory(rest, s.req.id), inputs.list(i));
  }

  /** The transfer of a step that starts one. */
  lemma {:induction false} StepCarries(d: Device, s: Step, c: ChannelId, regs: seq<RegPair>, m: Mapping,
                                       ds: seq<Descriptor>)
    returns (f: Flight)
    requires Inv(d) && Enabled(d, s) && Starts(d, s, c) && |regs| == SLOTS
    requires Acceptable(d, s.asked, s.req) ==> Explains(m, ds, s.req, s.env)
    ensures IsTransferOf(f, m, s.req, s.env) && f.ds == ds && f.JustStarted() && f.t0 == d.table && f.regs0 == regs
    ensures Holds(Next(d, s), NextRegs(regs, d, s), c, s.req.id, f)
  {
    ExecuteStartsExact(d, s.asked, s.req, s.env);
    f := StartCarries(d, s.asked, s.req, s.env, m, ds, regs);
    StartHolds(d, regs, s, c, f);
  }

  lemma {:induction false} StillHolds(d: Device, regs: seq<RegPair>, s: Step, c: ChannelId, id: nat, f: Flight)
    requires Inv(d) && Enabled(d, s) && d.ch[c].state == Running && Next(d, s).ch[c].state == Running
    requires |regs| == SLOTS && Holds(d, regs, c, id, f)
    ensures Holds(Next(d, s), NextRegs(regs, d, s), c, id, f)
  {
    RunningKeeps(d, s, c);
    forall k | 0 <= k < SLOTS && Matches(Next(d, s).table[k], c as u8)
      ensures NextRegs(regs, d, s)[k] == f.regs[k]
    {
      RunningKeepsRegs(regs, d, s, c, k);
    }
  }

  lemma {:induction false} StartHolds(d: Device, regs: seq<RegPair>, s: Step, c: ChannelId, f: Flight)
    requires Inv(d) && Enabled(d, s) && Starts(d, s, c) && |regs| == SLOTS
    requires f.JustStarted() && f.p == s.req.params && f.regs == Programmed(regs, f.t, c) && f.t == Next(d, s).table
    requires Explains(f.m, f.ds, s.req, s.env)
    ensures Holds(Next(d, s), NextRegs(regs, d, s), c, s.req.id, f)
  {
    ExecuteStartsExact(d, s.asked, s.req, s.env);
    StartedRecord(d, s.asked, s.req, s.env);
    ListSizes(d, s.asked, s.req, s.env, f.m, f.ds);
    PreparedSize(d.ch[c], f.m, f.ds, s.req, s.env);
  }

  /** The size of the prepared list, terminator included. */
  lemma {:induction false} PreparedSize(ch: Channel, m: Mapping, ds: seq<Descriptor>, r: Request, e: Env)
    requires Explains(m, ds, r, e) && Prepare(ch, r, e).0 && Fits(r.params, |ds|)
    ensures Prepare(ch, r, e).1.descSize == DESC_BYTES * |ds| + Terminator(r.params)
  {
    MadeSize(ch, r, e);
  }

  lemma {:induction false} MadeSize(ch: Channel, r: Request, e: Env)
    requires MakeList(ch, r, e).0
    ensures var ch' := MakeList(ch, r, e).1;
      ch'.descSize == if r.user == None then e.generated * DESC_BYTES + Terminator(r.params)
                      else W32(ListBytes(r) + Terminator(r.params))
    ensures Prepare(ch, r, e).1.descSize == MakeList(ch, r, e).1.descSize
  {
    var ch1 := AllocList(ch, W32(ListBytes(r) + Terminator(r.params)), e.bufferOk).1;
    assert ch1.descSize == W32(ListBytes(r) + Terminator(r.params));
    assert MakeList(ch, r, e).1 == WithList(ch1, r, e);
  }

  /** Such runs exist: one descriptor of the user for the memory of mapping 7, streamed by channel 0. */
  lemma {:induction false} StreamCarried(r0: seq<RegPair>)
    returns (ss: seq<Step>, inputs: Inputs, i: nat, f: Flight)
    requires |r0| == SLOTS
    ensures IsRun(Start(), ss) && Explained(ss, inputs) && After(Start(), ss).ch[0].RunningStream()
    ensures Carries(ss, 0, r0, inputs, i, f) && |f.ds| == 1
  {
    Witnesses.OpenedRun();
    var s0, exec := Witnesses.Opened(), Witnesses.Exec(0, MODE_STREAM, FROM_DEVICE);
    var m := Mapping(64, BIDIRECTIONAL, [SgEntry(0x20_0000, 64, 0)]);
    var ds := [ZERO_DESCRIPTOR.(writeLow := 0x20_0000, length := 64)];
    inputs := Inputs(_ => m, _ => ds);
    Always(s0);
    Witnesses.Executed(Witnesses.WithMapping(), 0, MODE_STREAM, 0);
    Continue(Start(), s0, exec);
    ss := s0 + [exec];
    OneChecked(m, ds, exec.req, exec.env);
    NoRequests(s0, inputs);
    assert ss[..|ss| - 1] == s0;
    assert Explained(ss, inputs);
    i, f := RunningCarries(ss, 0, r0, inputs);
    assert f.ds == inputs.list(i) == ds;
  }

  lemma {:induction false} OneChecked(m: Mapping, ds: seq<Descriptor>, r: Request, e: Env)
    requires m.sgl == [SgEntry(0x20_0000, 64, 0)] && |ds| == 1 && ds[0].WriteAddr() == 0x20_0000 && ds[0].length == 64
    requires r.user.Some? && r.user.value.size == 64 && e.listOk && e.busAddr % DESC_BYTES == 0
    requires e.addrs == [0x20_0000]
    ensures Explains(m, ds, r, e)
  {
    assert RangeInSg(m.sgl[0], 0x20_0000, 0x20_0040);
    assert WriteAddrs(ds) == [0x20_0000];
  }

  /** Steps that are no requests need no explanation. */
  lemma {:induction false} NoRequests(ss: seq<Step>, inputs: Inputs)
    requires IsRun(Start(), ss) && forall k | 0 <= k < |ss| :: !ss[k].DoExecute?
    ensures Explained(ss, inputs)
    decreases |ss|
  {
    if ss != [] {
      NoRequests(ss[..|ss| - 1], inputs);
    }
  }

  // ----- What it does through the registers as they are --------------------------------------------------------

  /** The transfer with the registers of the end of the run in place of those of its start. */
  ghost function Now(ss: seq<Step>, r0: seq<RegPair>, f: Flight): Flight
    requires IsRun(Start(), ss) && |r0| == SLOTS
  {
    f.(regs := Regs(r0, ss))
  }

  /** Every descriptor, and the list, stays inside its page of the translation table. */
  ghost predicate InPages(f: Flight) {
    && (forall k | 0 <= k < |f.ds| :: WithinPage(f.ds[k].WriteAddr(), f.ds[k].length))
    && WithinPage(f.bus, DESC_BYTES * |f.list|)
  }

  lemma {:induction false} InPagesContained(f: Flight)
    requires f.Launched() && InPages(f)
    ensures |f.Slots()| == |f.ds| && f.Contained() && f.ListContained()
  {
    SlotsUsed(f);
    forall k | 0 <= k < |f.ds|
      ensures Continues(f.regs, f.ds[k].WriteAddr(), f.Slots()[k], f.ds[k].length)
    {
      OnePageContinues(f.regs, f.ds[k].WriteAddr(), f.Slots()[k], f.ds[k].length);
    }
    OnePageContinues(f.regs, f.bus, FirstFree(f.t0, 0), DESC_BYTES * |f.list|);
  }

  lemma {:induction false} OnePageContinues(regs: seq<RegPair>, a: u64, slot: int, len: nat)
    requires |regs| == SLOTS && WithinPage(a, len)
    ensures Continues(regs, a, slot, len)
  {
  }

  /** The transfer that a channel carries is still a started one: whatever other channels have started
      since, the registers of its slots select its pages. */
  lemma {:induction false} CarriedNow(ss: seq<Step>, c: ChannelId, r0: seq<RegPair>, inputs: Inputs, i: nat, f: Flight)
    requires IsRun(Start(), ss) && |r0| == SLOTS && Carries(ss, c, r0, inputs, i, f)
    ensures Now(ss, r0, f).Started() && ProgrammedFor(Regs(r0, ss), After(Start(), ss).table, c as u8)
    ensures f.Valid() ==> Now(ss, r0, f).Valid()
  {
    HeldProgrammed(After(Start(), ss).table, f.t, Regs(r0, ss), f.regs, c);
  }

  lemma {:induction false} HeldProgrammed(t: Table, t': Table, regs: seq<RegPair>, regs': seq<RegPair>, c: ChannelId)
    requires |regs| == SLOTS == |regs'| && SameSlots(t, t', c) && ProgrammedFor(regs', t', c as u8)
    requires forall k | 0 <= k < SLOTS && Matches(t[k], c as u8) :: regs[k] == regs'[k]
    ensures ProgrammedFor(regs, t, c as u8) && ProgrammedFor(regs, t', c as u8)
  {
    forall k | 0 <= k < SLOTS && ((t[k].Used? && t[k].channel == c) || (t'[k].Used? && t'[k].channel == c))
      ensures t[k] == t'[k] && RegBase(regs[k]) == t[k].page
    {
    }
  }

  /** In every reachable state a running channel in DEFAULT mode performs what its list asks for through the
      registers as they are, exactly if the data and the list of its transfer pass their tests on them. If
      list and descriptors stay in their pages, that is a test on the pages of the data alone, which no
      other channel can change. */
  lemma {:induction false} RunningPerforms(ss: seq<Step>, c: ChannelId, r0: seq<RegPair>, inputs: Inputs, i: nat,
                                           f: Flight, fuel: nat)
    requires IsRun(Start(), ss) && |r0| == SLOTS && Carries(ss, c, r0, inputs, i, f)
    requires f.p.transferMode != MODE_STREAM && f.Launched() && f.NoZeroPage() && fuel > |f.ds|
    ensures var g := Now(ss, r0, f);
      && g.Launched() && |g.Slots()| == |g.ds| == |g.list| - 1
      && (g.Performs(fuel, 0, g.list[..|g.ds|], g.Asked()) <==> g.Safe() && g.ListContained())
      && (f.Valid() ==> g.Asked() == RequestMoves(f.p, f.m))
      && (InPages(f) ==> (g.Safe() && g.ListContained() <==> CacheSafe(f.Held(), f.DataPages())))
  {
    var g := Now(ss, r0, f);
    CarriedNow(ss, c, r0, inputs, i, f);
    ChainTransferExact(g, fuel);
    if f.Valid() {
      GeneratedMeaning(f.p, f.m, f.ds);
    }
    if InPages(f) {
      InPagesContained(g);
    }
  }

  /** ... and one in STREAM mode, round after round. */
  lemma {:induction false} RunningStreams(ss: seq<Step>, c: ChannelId, r0: seq<RegPair>, inputs: Inputs, i: nat,
                                          f: Flight, q: nat, r: nat)
    requires IsRun(Start(), ss) && |r0| == SLOTS && Carries(ss, c, r0, inputs, i, f)
    requires f.p.transferMode == MODE_STREAM && f.Launched() && f.NoZeroPage() && |f.ds| > 0 && r > 0
    ensures var g := Now(ss, r0, f);
      && g.Launched() && |g.Slots()| == |g.ds| == |g.list|
      && (var fuel := Times(r, |g.list|);
          g.Performs(fuel, Times(q, |g.Asked()|), Around(g.list, 0, fuel), Rounds(g.Asked(), q, r))
          <==> g.Safe() && g.ListContained())
      && (f.Valid() ==> g.Asked() == RequestMoves(f.p, f.m))
      && (InPages(f) ==> (g.Safe() && g.ListContained() <==> CacheSafe(f.Held(), f.DataPages())))
  {
    var g := Now(ss, r0, f);
    CarriedNow(ss, c, r0, inputs, i, f);
    RingTransferExact(g, q, r);
    if f.Valid() {
      GeneratedMeaning(f.p, f.m, f.ds);
    }
    if InPages(f) {
      InPagesContained(g);
    }
  }

  // ----- The counters of a running stream -----------------------------------------------------------------------

  /** The ring indices that the interrupts of the channel have shown since step i. */
  function Shown(ss: seq<Step>, c: ChannelId, i: nat, n: nat): (idx: seq<nat>)
    requires n > 0
    ensures Stream.InRing(idx, n)
  {
    if |ss| <= i + 1 then []
    else
      var before, s := Shown(ss[..|ss| - 1], c, i, n), ss[|ss| - 1];
      if s.Irq? && s.c == c then before + [s.hi % n] else before
  }

  lemma {:induction false} AfterMore(idx: seq<nat>, x: nat, k: nat, n: nat, b: u32)
    requires k <= |idx|
    ensures Stream.After(idx + [x], k, n, b) == Stream.After(idx, k, n, b)
  {
    if k > 0 {
      AfterMore(idx, x, k - 1, n, b);
    }
  }

  /** In every reachable state the counters of a running stream are those of the producer after the
      interrupts since its start. */
  lemma {:induction false} CountersOfRun(ss: seq<Step>, c: ChannelId, i: nat)
    requires IsRun(Start(), ss) && RunningSince(ss, c, i) && After(Start(), ss).ch[c].IsStream()
    ensures var ch := After(Start(), ss).ch[c];
      && ch.Descs() > 0
      && (var idx := Shown(ss, c, i, ch.Descs());
          ch.page.counters == Stream.After(idx, |idx|, ch.Descs(), ch.bytesPerDesc))
    decreases |ss|
  {
    var rest, s := ss[..|ss| - 1], ss[|ss| - 1];
    var d := After(Start(), rest);
    Always(rest);
    Always(ss);
    if |ss| == i + 1 {
      assert ss[..i] == rest;
      StartsFresh(d, s, c);
    } else {
      RunningKeeps(d, s, c);
      CountersOfRun(rest, c, i);
      CountStep(d, s, c, Shown(rest, c, i, d.ch[c].Descs()));
    }
  }

  /** A stream starts with its counters at 0. */
  lemma {:induction false} StartsFresh(d: Device, s: Step, c: ChannelId)
    requires Inv(d) && Enabled(d, s) && Starts(d, s, c) && Next(d, s).ch[c].IsStream()
    ensures Next(d, s).ch[c].page.counters == Stream.START
  {
    ExecuteStartsExact(d, s.asked, s.req, s.env);
    FreshStart(d, s.asked, s.req, s.env);
  }

  lemma {:induction false} FreshStart(d: Device, file: Option<nat>, r: Request, e: Env)
    requires Inv(d) && Enabled(d, DoExecute(file, r, e)) && CanStart(d, file, r, e)
    ensures var ch := Execute(d, file, r, e).ch[r.params.channel];
      ch.IsStream() ==> ch.page.counters == Stream.START
  {
    StartedRecord(d, file, r, e);
    InitExact(d, r, e);
    if r.params.transferMode == MODE_STREAM {
      FreshPage(d.ch[r.params.channel], r, e);
    }
  }

  lemma {:induction false} FreshPage(ch: Channel, r: Request, e: Env)
    requires Prepare(ch, r, e).0 && r.params.transferMode == MODE_STREAM
    ensures Prepare(ch, r, e).1.page.counters == Stream.START
  {
  }

  lemma {:induction false} CountStep(d: Device, s: Step, c: ChannelId, idx: seq<nat>)
    requires Inv(d) && Enabled(d, s) && d.ch[c].RunningStream() && Next(d, s).ch[c].RunningStream()
    requires SameTransfer(d.ch[c], Next(d, s).ch[c]) && d.ch[c].Descs() > 0
    requires d.ch[c].page.counters == Stream.After(idx, |idx|, d.ch[c].Descs(), d.ch[c].bytesPerDesc)
    ensures var ch := d.ch[c];
      var idx' := if s.Irq? && s.c == c then idx + [s.hi % ch.Descs()] else idx;
      Next(d, s).ch[c].page.counters == Stream.After(idx', |idx'|, ch.Descs(), ch.bytesPerDesc)
  {
    if s.Irq? && s.c == c {
      HandlerExact(d, c, s.hi);
      AfterMore(idx, s.hi % d.ch[c].Descs(), |idx|, d.ch[c].Descs(), d.ch[c].bytesPerDesc);
    } else {
      StreamKeepsCounters(d, s, c);
    }
  }

  /** What the reader of a running stream sees in a reachable state. If its interrupts have shown the true
      positions h of a hardware that the ring can follow, then the counter on the state page is the number
      of bytes that the walk has copied through the registers as they are, and the places synchronised by
      the interrupts are the ones that it has copied to. */
  lemma {:induction false} ReaderOfRun(ss: seq<Step>, c: ChannelId, r0: seq<RegPair>, inputs: Inputs, i: nat,
                                       f: Flight, mem: Memory, h: seq<nat>)
    requires IsRun(Start(), ss) && |r0| == SLOTS && Carries(ss, c, r0, inputs, i, f)
    requires f.Valid() && f.NoZeroPage() && f.p.transferMode == MODE_STREAM && f.p.bytesPerDescriptor > 0
    requires Followed(h, |f.ds|, |h|) && Shown(ss, c, i, |f.ds|) == Stream.Indices(h, |f.ds|)
    requires var g := Now(ss, r0, f);
      g.Started() && |g.Slots()| == |g.ds| && g.Safe() && g.ListContained() && HoldsList(mem, g.bus, g.list)
    ensures var copied := Now(ss, r0, f).Copied(mem, Stream.PositionBefore(h, |h|), 0);
      && After(Start(), ss).ch[c].page.counters.produced == W64(|copied|)
      && Stream.InRing(Stream.Indices(h, |f.ds|), |f.ds|)
      && GoTo(copied, SyncedUpTo(f.ds, Stream.Indices(h, |f.ds|), |h|))
  {
    CarriedNow(ss, c, r0, inputs, i, f);
    CountersOfRun(ss, c, i);
    ListShape(f);
    assert After(Start(), ss).ch[c].Descs() == |f.ds|;
    ReaderSeesStream(Now(ss, r0, f), mem, h, |h|);
  }
}
