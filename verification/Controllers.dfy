/** Which DMA controller an abort resets: the one that the channel's parameters name, and exactly when
    that stops another channel's transfer. */
module Controllers {
  import opened Words
  import opened Descriptors
  import opened Translate
  import opened Publish
  import opened PageTable
  import opened Space
  import opened Lifecycle
  import opened Reachable
  import opened Protocol
  import Witnesses

  /** A channel names itself, or channel 0 as long as it has taken no request. One that is busy, or
      marked in a mapping, has taken one. */
  predicate NamesItself(d: Device, c: ChannelId) {
    d.ch[c].target == c
  }

  predicate TargetOk(ch: Channel, c: ChannelId) {
    (ch.target == 0 || ch.target == c) && (ch.state != Idle ==> ch.target == c)
  }

  ghost predicate TargetsOk(d: Device) {
    && (forall c: ChannelId :: TargetOk(d.ch[c], c))
    && forall id | id in d.maps && 0 <= d.maps[id].active < 3 :: NamesItself(d, d.maps[id].active)
  }

  /** The controller of every running transfer runs. */
  ghost predicate EnginesRun(d: Device) {
    forall c: ChannelId :: d.ch[c].state == Running ==> c in d.engines
  }

  /** The step cancels a channel that has taken no request yet, while channel 0 runs a transfer. */
  predicate StopsAnother(d: Device, s: Step) {
    s.Cancel? && s.ch < 3 && !NamesItself(d, s.ch) && d.ch[0].state == Running
  }

  // ----- Stopping a channel -------------------------------------------------------------------------

  /** Stopping a channel that names itself stops its own controller alone. */
  lemma {:induction false} StopOwn(d: Device, c: ChannelId)
    requires TargetsOk(d) && NamesItself(d, c)
    ensures TargetsOk(Abort(d, c)) && NamesItself(Abort(d, c), c)
    ensures EnginesRun(d) ==> EnginesRun(Abort(d, c)) && Abort(d, c).engines == d.engines - {c}
  {
  }

  lemma {:induction false} ResetOwn(d: Device, c: ChannelId)
    requires TargetsOk(d)
    ensures TargetsOk(Reset(d, c))
    ensures EnginesRun(d) ==> EnginesRun(Reset(d, c))
  {
  }

  lemma {:induction false} UnmapOwn(d: Device, id: nat)
    requires TargetsOk(d) && id in d.maps && -1 <= d.maps[id].active < 3
    ensures TargetsOk(Unmap(d, id))
    ensures EnginesRun(d) ==> EnginesRun(Unmap(d, id))
  {
    var a := d.maps[id].active;
    if a >= 0 {
      StopOwn(d, a);
      ResetOwn(Abort(d, a), a);
    }
  }

  lemma {:induction false} UnmapAllOwn(d: Device, ids: seq<nat>)
    requires Inv(d) && !d.turn.Waiting? && !d.turn.Cleaning? && TargetsOk(d)
    ensures TargetsOk(UnmapAll(d, ids))
    ensures EnginesRun(d) ==> EnginesRun(UnmapAll(d, ids))
  {
    if ids != [] {
      var rest, id := ids[..|ids| - 1], ids[|ids| - 1];
      UnmapAllOk(d, rest);
      UnmapAllOwn(d, rest);
      if id in UnmapAll(d, rest).maps {
        UnmapOwn(UnmapAll(d, rest), id);
      }
    }
  }

  /** Cancelling a channel, whatever it names. */
  lemma {:induction false} CancelExact(d: Device, n: ChannelId)
    requires TargetsOk(d)
    ensures TargetsOk(Reset(Abort(d, n), n))
    ensures EnginesRun(d) ==> (EnginesRun(Reset(Abort(d, n), n)) <==> NamesItself(d, n) || d.ch[0].state != Running)
  {
    if NamesItself(d, n) {
      StopOwn(d, n);
      ResetOwn(Abort(d, n), n);
    } else {
      assert d.ch[n].state == Idle && d.ch[n].target == 0 && n != 0;
      assert Reset(Abort(d, n), n) == Abort(d, n);
    }
  }

  // ----- Starting -------------------------------------------------------------------------------------

  lemma {:induction false} ExecuteOwn(d: Device, file: Option<nat>, r: Request, e: Env)
    requires Inv(d) && Enabled(d, DoExecute(file, r, e)) && TargetsOk(d)
    ensures TargetsOk(Execute(d, file, r, e))
    ensures EnginesRun(d) ==> EnginesRun(Execute(d, file, r, e))
  {
    if Validate(d, file, r) == Ok {
      InitOwn(d, r, e);
      var (ok, d1) := Init(d, r, e);
      if ok {
        DispatchOwn(d1, r.params, e);
      }
    }
  }

  lemma {:induction false} PrepareNames(ch: Channel, r: Request, e: Env)
    ensures Prepare(ch, r, e).1.target == ch.target && Prepare(ch, r, e).1.state == ch.state
  {
    var ch1 := AllocList(ch, W32(ListBytes(r) + Terminator(r.params)), e.bufferOk).1;
    assert ch1.target == ch.target && ch1.state == ch.state;
    assert WithList(ch1, r, e).target == ch.target;
  }

  lemma {:induction false} InitOwn(d: Device, r: Request, e: Env)
    requires TargetsOk(d) && r.params.channel < NUM_CHANNELS && r.id in d.maps
    requires d.ch[r.params.channel].state == Idle
    ensures var (ok, d1) := Init(d, r, e);
      && TargetsOk(d1) && (ok ==> NamesItself(d1, r.params.channel as ChannelId))
      && d1.ch[r.params.channel].state != Running && (EnginesRun(d) ==> EnginesRun(d1))
  {
    PrepareNames(d.ch[r.params.channel], r, e);
  }

  lemma {:induction false} DispatchOwn(d: Device, p: Params, e: Env)
    requires p.channel < NUM_CHANNELS && TargetsOk(d) && NamesItself(d, p.channel as ChannelId)
    ensures TargetsOk(Dispatch(d, p, e))
    ensures EnginesRun(d) ==> d.ch[p.channel].state != Running ==> EnginesRun(Dispatch(d, p, e))
  {
  }

  // ----- Every step --------------------------------------------------------------------------------------

  /** Every step keeps the names, and the running controllers too, unless it is one that stops another
      channel's. */
  lemma {:induction false} EnginesExact(d: Device, s: Step)
    requires Inv(d) && TargetsOk(d) && Enabled(d, s)
    ensures TargetsOk(Next(d, s))
    ensures EnginesRun(d) ==> (EnginesRun(Next(d, s)) <==> !StopsAnother(d, s))
  {
    match s {
      case DoExecute(file, r, e) => ExecuteOwn(d, file, r, e);
      case Cleanup => ResetOwn(d, d.turn.c);
      case Cancel(n) =>
        if n < 3 {
          CancelExact(d, n);
        }
      case Unlock(f, id) =>
        if id in d.maps {
          UnmapOwn(d, id);
        }
      case Release(f) => UnmapAllOwn(d, d.files[f]);
      case _ => OthersOwn(d, s);
    }
  }

  /** The other steps concern no controller. */
  lemma {:induction false} OthersOwn(d: Device, s: Step)
    requires TargetsOk(d) && Enabled(d, s)
    requires !s.DoExecute? && !s.Cleanup? && !s.Cancel? && !s.Unlock? && !s.Release?
    ensures TargetsOk(Next(d, s))
    ensures EnginesRun(d) ==> EnginesRun(Next(d, s))
  {
    match s {
      case Mmap(c, memory) => OneRecord(d, Next(d, s), c);
      case VmaOpen(c) => OneRecord(d, Next(d, s), c);
      case VmaClose(c) => OneRecord(d, Next(d, s), c);
      case Irq(c, hi) => OneRecord(d, Next(d, s), c);
      case Work(c) => OneRecord(d, Next(d, s), c);
      case WaitEnds(_) => SameRecords(d, Next(d, s));
      case Open(_) => SameRecords(d, Next(d, s));
      case Lock(_, _, _) => SameRecords(d, Next(d, s));
      case Tasklet => SameRecords(d, Next(d, s));
      case _ =>
    }
  }

  lemma {:induction false} SameRecords(d: Device, d': Device)
    requires TargetsOk(d) && d'.ch == d.ch && d'.engines == d.engines
    requires forall id | id in d'.maps && d'.maps[id].active >= 0 :: id in d.maps && d'.maps[id] == d.maps[id]
    ensures TargetsOk(d')
    ensures EnginesRun(d) ==> EnginesRun(d')
  {
  }

  /** A change of one record that neither starts nor frees the channel. */
  lemma {:induction false} OneRecord(d: Device, d': Device, c: ChannelId)
    requires TargetsOk(d) && d'.maps == d.maps && d'.engines == d.engines
    requires forall k: ChannelId | k != c :: d'.ch[k] == d.ch[k]
    requires d'.ch[c].target == d.ch[c].target
    requires d'.ch[c].state == d.ch[c].state || (d.ch[c].state == Running && d'.ch[c].state == Complete)
    ensures TargetsOk(d')
    ensures EnginesRun(d) ==> EnginesRun(d')
  {
  }

  lemma {:induction false} TargetsAlways(ss: seq<Step>)
    requires IsRun(Start(), ss)
    ensures TargetsOk(After(Start(), ss))
  {
    if ss != [] {
      TargetsAlways(ss[..|ss| - 1]);
      Always(ss[..|ss| - 1]);
      EnginesExact(After(Start(), ss[..|ss| - 1]), ss[|ss| - 1]);
    }
  }

  /** No step of the run cancels a channel that has taken no request, while channel 0 runs. */
  predicate Considerate(ss: seq<Step>)
    requires IsRun(Start(), ss)
    decreases |ss|
  {
    ss == [] || (Considerate(ss[..|ss| - 1]) && !StopsAnother(After(Start(), ss[..|ss| - 1]), ss[|ss| - 1]))
  }

  /** In such runs the controller of every running transfer runs. */
  lemma {:induction false} EnginesAlways(ss: seq<Step>)
    requires IsRun(Start(), ss) && Considerate(ss)
    ensures EnginesRun(After(Start(), ss))
  {
    if ss != [] {
      EnginesAlways(ss[..|ss| - 1]);
      TargetsAlways(ss[..|ss| - 1]);
      Always(ss[..|ss| - 1]);
      EnginesExact(After(Start(), ss[..|ss| - 1]), ss[|ss| - 1]);
    }
  }

  // ----- Which channels have taken a request ------------------------------------------------------------

  /** The step is a request that the channel takes: it is valid and initialises. */
  predicate Takes(d: Device, s: Step, c: ChannelId) {
    && s.DoExecute? && s.req.params.channel == c && Acceptable(d, s.asked, s.req)
    && Initialises(d.ch[c], s.req, s.env)
  }

  /** Some step of the run was one. */
  predicate HasTaken(ss: seq<Step>, c: ChannelId)
    requires IsRun(Start(), ss)
    decreases |ss|
  {
    ss != [] && (HasTaken(ss[..|ss| - 1], c) || Takes(After(Start(), ss[..|ss| - 1]), ss[|ss| - 1], c))
  }

  lemma {:induction false} UnmapAllTarget(d: Device, ids: seq<nat>, c: ChannelId)
    ensures UnmapAll(d, ids).ch[c].target == d.ch[c].target
  {
    if ids != [] {
      UnmapAllTarget(d, ids[..|ids| - 1], c);
    }
  }

  lemma {:induction false} ExecuteTarget(d: Device, file: Option<nat>, r: Request, e: Env, c: ChannelId)
    requires Inv(d) && Enabled(d, DoExecute(file, r, e))
    ensures Execute(d, file, r, e).ch[c].target
            == if Takes(d, DoExecute(file, r, e), c) then c else d.ch[c].target
  {
    ValidateExact(d, file, r);
    if Validate(d, file, r) == Ok {
      InitExact(d, r, e);
      PrepareNames(d.ch[r.params.channel], r, e);
    }
  }

  /** A step writes the name of a channel exactly if the channel takes its request. */
  lemma {:induction false} TargetStep(d: Device, s: Step, c: ChannelId)
    requires Inv(d) && Enabled(d, s)
    ensures Next(d, s).ch[c].target == if Takes(d, s, c) then c else d.ch[c].target
  {
    match s {
      case DoExecute(file, r, e) => ExecuteTarget(d, file, r, e, c);
      case Release(f) => UnmapAllTarget(d, d.files[f], c);
      case _ =>
    }
  }

  /** In every reachable state, a channel names itself exactly if it is channel 0 or has taken a request. */
  lemma {:induction false} NamesExact(ss: seq<Step>, c: ChannelId)
    requires IsRun(Start(), ss)
    ensures NamesItself(After(Start(), ss), c) <==> c == 0 || HasTaken(ss, c)
  {
    TargetsAlways(ss);
    if ss != [] {
      NamesExact(ss[..|ss| - 1], c);
      Always(ss[..|ss| - 1]);
      TargetStep(After(Start(), ss[..|ss| - 1]), ss[|ss| - 1], c);
    }
  }

  /** Which controller an abort resets, in every reachable state: its own exactly if the channel is channel
      0 or has taken a request, and otherwise that of channel 0. */
  lemma {:induction false} AbortResets(ss: seq<Step>, c: ChannelId)
    requires IsRun(Start(), ss)
    ensures var d := After(Start(), ss);
      Abort(d, c).engines == d.engines - {if HasTaken(ss, c) then c else 0}
  {
    TargetsAlways(ss);
    NamesExact(ss, c);
  }

  /** So the next step of a run stops another channel's controller exactly if it cancels a channel other
      than 0 that has taken no request, while channel 0 runs. */
  lemma {:induction false} StopsExact(ss: seq<Step>, s: Step)
    requires IsRun(Start(), ss)
    ensures StopsAnother(After(Start(), ss), s)
            <==> s.Cancel? && 0 < s.ch < 3 && !HasTaken(ss, s.ch) && After(Start(), ss).ch[0].state == Running
  {
    if s.Cancel? && s.ch < 3 {
      NamesExact(ss, s.ch);
    }
  }

  /** Cancelling channel 1, which has never been used, stops the controller under the stream of channel
      0, which goes on as a running one for the driver. */
  lemma {:induction false} StreamSilenced() returns (ss: seq<Step>)
    ensures IsRun(Start(), ss)
    ensures var d := After(Start(), ss); d.ch[0].RunningStream() && 0 !in d.engines
  {
    Witnesses.OpenedRun();
    var s0 := Witnesses.Opened();
    Always(s0);
    Witnesses.Executed(Witnesses.WithMapping(), 0, MODE_STREAM, 0);
    var exec := Witnesses.Exec(0, MODE_STREAM, FROM_DEVICE);
    Continue(Start(), s0, exec);
    var s1 := s0 + [exec];
    var d1 := After(Start(), s1);
    assert d1.ch[1] == NEW_CHANNEL;
    Continue(Start(), s1, Cancel(1));
    ss := s1 + [Cancel(1)];
  }
}
