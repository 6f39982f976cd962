/** The state machine and the transfers: when a request starts, and the transfer that it then is. */
module Flights {
  import opened Words
  import opened Descriptors
  import opened Window
  import opened Meaning
  import opened Generator
  import opened PageTable
  import opened Translate
  import opened Publish
  import opened Space
  import opened Walk
  import opened EndToEnd
  import opened Transfers
  import opened UserLists
  import opened Lifecycle
  import opened Reachable
  import opened Protocol

  /** What compiler, validator and allocator contribute to a request on the mapping m, as they compute
      it: for a list of the driver's own, and for a list ds of the user. */
  ghost predicate Compiles(m: Mapping, ds: seq<Descriptor>, r: Request, e: Env) {
    var p := r.params;
    && r.user == None && p.channel < NUM_CHANNELS && WellFormed(m) && (Accepted(p, m) ==> Compilable(p, m))
    && (e.listOk <==> Accepted(p, m) && PlannedCount(p, m) <= AllocNum(p))
    && (e.listOk ==> ds == CompiledList(p, m) && e.generated == |ds| && e.addrs == WriteAddrs(ds))
  }

  ghost predicate Checks(m: Mapping, ds: seq<Descriptor>, r: Request, e: Env) {
    && r.user.Some? && r.user.value.size == DESC_BYTES * |ds| && e.addrs == WriteAddrs(ds)
    && (r.params.direction == FROM_DEVICE ==> (e.listOk <==> Validated(m, ds)))
  }

  /** An accepted request that does not compile leaves some list of the planned length behind, or is
      refused for want of descriptors. */
  ghost predicate Miscompiles(m: Mapping, ds: seq<Descriptor>, r: Request, e: Env) {
    var p := r.params;
    && r.user == None && p.channel < NUM_CHANNELS && Accepted(p, m) && !Compilable(p, m)
    && (e.listOk <==> PlannedCount(p, m) <= AllocNum(p))
    && (e.listOk ==> |ds| == PlannedCount(p, m) == e.generated && e.addrs == WriteAddrs(ds))
  }

  ghost predicate Explains(m: Mapping, ds: seq<Descriptor>, r: Request, e: Env) {
    e.busAddr % DESC_BYTES == 0 && (Compiles(m, ds, r, e) || Miscompiles(m, ds, r, e) || Checks(m, ds, r, e))
  }

  // ----- When a compiled request starts ---------------------------------------------------------------

  /** There is a buffer for the list and a state page for a stream, or memory for them. */
  predicate HasMemory(ch: Channel, p: Params, e: Env) {
    var total := W32(AllocBytes(p) + Terminator(p));
    && 0 < total <= 0x7FFF_FFFF && (total <= ch.descCapacity || e.bufferOk)
    && (p.transferMode == MODE_STREAM ==> ch.page.present || e.pageOk)
  }

  /** The request compiles into a list that fits its buffer, and for which the table has room. */
  ghost predicate HasList(t: Table, p: Params, m: Mapping, bus: u64) {
    && WellFormed(m) && p.channel < NUM_CHANNELS && Accepted(p, m) && Compilable(p, m)
    && PlannedCount(p, m) <= AllocNum(p) && HasRoom(t, p, bus, WriteAddrs(CompiledList(p, m)))
  }

  /** The test on a request for a list of the driver's own, made before it is executed. */
  ghost predicate WillStart(d: Device, file: Option<nat>, r: Request, e: Env, m: Mapping) {
    && r.params.channel < NUM_CHANNELS && Acceptable(d, file, r) && r.params.direction == FROM_DEVICE
    && HasMemory(d.ch[r.params.channel], r.params, e) && HasList(d.table, r.params, m, e.busAddr)
  }

  lemma {:induction false} CompiledStartsExact(d: Device, file: Option<nat>, r: Request, e: Env, m: Mapping,
                                               ds: seq<Descriptor>)
    requires Inv(d) && Enabled(d, DoExecute(file, r, e)) && Compiles(m, ds, r, e)
    requires d.ch[r.params.channel].state == Idle
    ensures Execute(d, file, r, e).ch[r.params.channel].state == Running <==> WillStart(d, file, r, e, m)
  {
    ExecuteStartsExact(d, file, r, e);
    if e.listOk {
      AcceptedMode(r.params, m);
    }
    CanStartExact(d, file, r, e, m, ds);
  }

  lemma {:induction false} CanStartExact(d: Device, file: Option<nat>, r: Request, e: Env, m: Mapping,
                                         ds: seq<Descriptor>)
    requires Compiles(m, ds, r, e)
    requires e.listOk ==> r.params.transferMode == MODE_DEFAULT || r.params.transferMode == MODE_STREAM
    ensures CanStart(d, file, r, e) <==> WillStart(d, file, r, e, m)
  {
  }

  lemma {:induction false} AcceptedMode(p: Params, m: Mapping)
    requires Accepted(p, m)
    ensures p.transferMode == MODE_DEFAULT || p.transferMode == MODE_STREAM
  {
    assert !Violates(TransferMode, p, m);
  }

  // ----- From a start to a transfer -----------------------------------------------------------------------

  lemma {:induction false} SlotsAfterStart(f: Flight)
    requires f.Started()
    ensures StartTable(f.t0, f.p, f.bus, WriteAddrs(f.ds)) == (f.t, Running)
  {
  }

  lemma {:induction false} ListSizes(d: Device, file: Option<nat>, r: Request, e: Env, m: Mapping, ds: seq<Descriptor>)
    requires Inv(d) && Enabled(d, DoExecute(file, r, e)) && Explains(m, ds, r, e) && CanStart(d, file, r, e)
    ensures r.params.channel < NUM_CHANNELS && Fits(r.params, |ds|) && e.addrs == WriteAddrs(ds)
    ensures Compiles(m, ds, r, e) ==>
              Accepted(r.params, m) && Compilable(r.params, m) && ds == CompiledList(r.params, m)
    ensures Checks(m, ds, r, e) ==> Validated(m, ds)
  {
    if r.user == None {
      PlannedFits(r.params, |ds|);
    }
  }

  lemma {:induction false} PlannedFits(p: Params, n: nat)
    requires n <= AllocNum(p) && 0 < W32(AllocBytes(p) + Terminator(p)) <= 0x7FFF_FFFF
    ensures Fits(p, n)
  {
    AllocNumExact(p);
    TotalFits(AllocBytes(p), Terminator(p));
  }

  /** The transfer f is the one that the request r comes to on the mapping m: generated for it, or the
      validated list of the user. */
  ghost predicate IsTransferOf(f: Flight, m: Mapping, r: Request, e: Env) {
    && f.Started() && f.p == r.params && f.m == m && f.bus == e.busAddr && Explains(m, f.ds, r, e)
    && (Compiles(m, f.ds, r, e) ==> f.Valid()) && (Checks(m, f.ds, r, e) ==> Validated(m, f.ds))
  }

  /** A request that starts is in flight, with any registers before it. */
  lemma {:induction false} StartCarries(d: Device, file: Option<nat>, r: Request, e: Env, m: Mapping,
                                        ds: seq<Descriptor>, regs0: seq<RegPair>)
    returns (f: Flight)
    requires Inv(d) && Enabled(d, DoExecute(file, r, e)) && Explains(m, ds, r, e) && |regs0| == SLOTS
    requires r.params.channel < NUM_CHANNELS && d.ch[r.params.channel].state == Idle
    requires Execute(d, file, r, e).ch[r.params.channel].state == Running
    ensures f.JustStarted() && IsTransferOf(f, m, r, e) && f.ds == ds && f.t0 == d.table && f.regs0 == regs0
    ensures f.regs == Programmed(regs0, f.t, f.p.channel) && f.t == Execute(d, file, r, e).table
  {
    ExecuteStartsExact(d, file, r, e);
    ListSizes(d, file, r, e, m, ds);
    f := ListTakesOff(r.params, m, ds, d.table, regs0, e.busAddr);
    SlotsAfterStart(f);
    StartedRecord(d, file, r, e);
    if Compiles(m, ds, r, e) {
      CompiledGenerated(r.params, m);
      GeneratedFlight(f);
    }
  }

  /** The record of the channel and the table after a start. */
  lemma {:induction false} StartedRecord(d: Device, file: Option<nat>, r: Request, e: Env)
    requires Inv(d) && Enabled(d, DoExecute(file, r, e)) && CanStart(d, file, r, e)
    ensures var d', ch := Execute(d, file, r, e), Execute(d, file, r, e).ch[r.params.channel];
      && d'.table == StartTable(d.table, r.params, e.busAddr, e.addrs).0
      && ch.mode == r.params.transferMode && ch.bytesPerDesc == r.params.bytesPerDescriptor && ch.mapping == Some(r.id)
      && ch.descSize == Prepare(d.ch[r.params.channel], r, e).1.descSize
      && ch.page == Prepare(d.ch[r.params.channel], r, e).1.page
  {
    InitExact(d, r, e);
  }
}
