/** Who uses a mapping: files own them, channels are marked in them, and exactly when the mark is
    to be trusted. */
module Mappings {
  import opened Words
  import opened Descriptors
  import opened Lifecycle
  import opened Reachable
  import opened Publish
  import opened Protocol

  // ----- The mark of the channel -------------------------------------------------------------------

  /** active_channel of a mapping and map_info of a channel point at each other. */
  ghost predicate MarksMatch(d: Device) {
    && (forall c: ChannelId | d.ch[c].mapping.Some? ::
          d.ch[c].mapping.value in d.maps && d.maps[d.ch[c].mapping.value].active == c)
    && (forall id | id in d.maps && d.maps[id].active >= 0 ::
          d.maps[id].active < 3 && d.ch[d.maps[id].active].mapping == Some(id))
  }

  /** The step executes a request on a mapping that a channel already uses. validate_dma_request
      does not look. */
  predicate TakesBusy(d: Device, s: Step) {
    && s.DoExecute? && Acceptable(d, s.asked, s.req)
    && Initialises(d.ch[s.req.params.channel], s.req, s.env)
    && d.maps[s.req.id].active >= 0
  }

  /** The marks match after a step exactly if it is not one of these. */
  lemma {:induction false} MarksExact(d: Device, s: Step)
    requires Inv(d) && MarksMatch(d) && Enabled(d, s)
    ensures MarksMatch(Next(d, s)) <==> !TakesBusy(d, s)
  {
    match s {
      case DoExecute(file, r, e) => MarksExecute(d, file, r, e);
      case Cleanup => ResetMarks(d, d.turn.c);
      case Cancel(n) => MarksCancel(d, n);
      case Lock(f, id, dir) => MarksLock(d, f, id, dir);
      case Unlock(f, id) =>
        if id in d.maps {
          UnmapMarks(d, id);
        }
      case Release(f) => UnmapAllMarks(d, d.files[f]);
      case _ => SameMarks(d, Next(d, s));
    }
  }

  lemma {:induction false} SameMarks(d: Device, d': Device)
    requires MarksMatch(d) && d'.maps == d.maps
    requires forall c: ChannelId :: d'.ch[c].mapping == d.ch[c].mapping
    ensures MarksMatch(d')
  {
  }

  lemma {:induction false} MarksLock(d: Device, f: nat, id: nat, dir: u8)
    requires MarksMatch(d) && Enabled(d, Lock(f, id, dir))
    ensures MarksMatch(Next(d, Lock(f, id, dir)))
  {
  }

  lemma {:induction false} MarksCancel(d: Device, n: u32)
    requires Inv(d) && MarksMatch(d) && Enabled(d, Cancel(n))
    ensures MarksMatch(Next(d, Cancel(n)))
  {
    if n < 3 {
      SameMarks(d, Abort(d, n));
      ResetMarks(Abort(d, n), n);
    }
  }

  lemma {:induction false} ResetMarks(d: Device, c: ChannelId)
    requires MarksMatch(d) && (d.ch[c].state == Idle ==> d.ch[c].mapping == None)
    ensures MarksMatch(Reset(d, c)) && forall id | id in Reset(d, c).maps :: Reset(d, c).maps[id].active != c
  {
  }

  /** A mapping that is dropped is used by no channel any more. */
  lemma {:induction false} UnmapMarks(d: Device, id: nat)
    requires Inv(d) && MarksMatch(d) && id in d.maps
    ensures MarksMatch(Unmap(d, id)) && forall c: ChannelId :: Unmap(d, id).ch[c].mapping != Some(id)
  {
    var a := d.maps[id].active;
    if a >= 0 {
      ResetMarks(Abort(d, a), a);
    }
  }

  lemma {:induction false} UnmapAllMarks(d: Device, ids: seq<nat>)
    requires Inv(d) && MarksMatch(d) && !d.turn.Waiting? && !d.turn.Cleaning?
    ensures MarksMatch(UnmapAll(d, ids))
  {
    if ids != [] {
      var rest, id := ids[..|ids| - 1], ids[|ids| - 1];
      UnmapAllOk(d, rest);
      UnmapAllMarks(d, rest);
      if id in UnmapAll(d, rest).maps {
        UnmapMarks(UnmapAll(d, rest), id);
      }
    }
  }

  lemma {:induction false} MarksExecute(d: Device, file: Option<nat>, r: Request, e: Env)
    requires Inv(d) && MarksMatch(d) && Enabled(d, DoExecute(file, r, e))
    ensures MarksMatch(Execute(d, file, r, e)) <==> !TakesBusy(d, DoExecute(file, r, e))
  {
    ValidateExact(d, file, r);
    if Validate(d, file, r) == Ok {
      var c := r.params.channel as ChannelId;
      InitOk(d, r, e);
      InitExact(d, r, e);
      PrepareOk(d.ch[c], r, e);
      var (ok, d1) := Init(d, r, e);
      if ok {
        DispatchOk(d, d1, r, e);
        MarksTaken(d, Execute(d, file, r, e), c, r.id);
      }
    }
  }

  lemma {:induction false} MarksTaken(d: Device, d': Device, c: ChannelId, id: nat)
    requires Inv(d) && MarksMatch(d) && id in d.maps && d.ch[c].state == Idle
    requires d'.maps == d.maps[id := d.maps[id].(active := c)] && d'.ch[c].mapping == Some(id)
    requires forall k: ChannelId | k != c :: d'.ch[k] == d.ch[k]
    ensures MarksMatch(d') <==> d.maps[id].active < 0
  {
    assert d.ch[c].mapping == None;
    var a := d.maps[id].active;
    if a >= 0 {
      assert d'.ch[a].mapping == Some(id) && a != c;
    }
  }

  // ----- The mappings of a file --------------------------------------------------------------------

  /** The list of a file holds exactly the mappings that the file owns. */
  ghost predicate ListsMatch(d: Device) {
    && (forall f, id | f in d.files && id in d.files[f] :: id in d.maps && d.maps[id].owner == Some(f))
    && (forall id | id in d.maps && d.maps[id].owner.Some? ::
          d.maps[id].owner.value in d.files && id in d.files[d.maps[id].owner.value])
  }

  lemma {:induction false} WithoutExact(ids: seq<nat>, id: nat, x: nat)
    ensures x in Without(ids, id) <==> x in ids && x != id
  {
    if ids != [] {
      var rest := ids[..|ids| - 1];
      WithoutExact(rest, id, x);
      assert ids == rest + [ids[|ids| - 1]];
    }
  }

  /** The same files, and mappings with the same owners. */
  ghost predicate SameOwners(d: Device, d': Device) {
    && d'.files == d.files && d'.maps.Keys == d.maps.Keys
    && forall id | id in d.maps :: d'.maps[id].owner == d.maps[id].owner
  }

  lemma {:induction false} ListsKept(d: Device, d': Device)
    requires ListsMatch(d) && SameOwners(d, d')
    ensures ListsMatch(d')
  {
  }

  lemma {:induction false} ResetOwners(d: Device, c: ChannelId)
    ensures SameOwners(d, Reset(d, c)) && SameOwners(d, Reset(Abort(d, c), c))
  {
  }

  lemma {:induction false} ListsUnlock(d: Device, f: nat, id: nat)
    requires Inv(d) && ListsMatch(d) && Enabled(d, Unlock(f, id))
    ensures ListsMatch(DoUnlock(d, f, id))
  {
    if id in d.maps && d.maps[id].owner == Some(f) {
      UnmapOk(d, id);
      forall x ensures x in Without(d.files[f], id) <==> x in d.files[f] && x != id {
        WithoutExact(d.files[f], id, x);
      }
    }
  }

  lemma {:induction false} ListsRelease(d: Device, f: nat)
    requires Inv(d) && ListsMatch(d) && Enabled(d, Release(f))
    ensures ListsMatch(Next(d, Release(f)))
  {
    UnmapAllOk(d, d.files[f]);
    ListsAfterRelease(d, Next(d, Release(f)), f);
  }

  lemma {:induction false} ListsAfterRelease(d: Device, d': Device, f: nat)
    requires ListsMatch(d) && f in d.files && d'.files == d.files - {f}
    requires MapsShrink(d.maps, d'.maps) && d'.maps.Keys == d.maps.Keys - (set id | id in d.files[f])
    ensures ListsMatch(d')
  {
    forall g, id | g in d'.files && id in d'.files[g]
      ensures id in d'.maps && d'.maps[id].owner == Some(g)
    {
      assert d.maps[id].owner == Some(g);
      assert id !in d.files[f];
      assert id in d'.maps.Keys;
    }
  }

  lemma {:induction false} ExecuteOwners(d: Device, file: Option<nat>, r: Request, e: Env)
    requires Inv(d) && Enabled(d, DoExecute(file, r, e))
    ensures SameOwners(d, Execute(d, file, r, e))
  {
    if Validate(d, file, r) == Ok {
      InitOk(d, r, e);
      if Init(d, r, e).0 {
        DispatchOk(d, Init(d, r, e).1, r, e);
      }
    }
  }

  lemma {:induction false} ListsOpen(d: Device, f: nat)
    requires ListsMatch(d) && Enabled(d, Open(f))
    ensures ListsMatch(Next(d, Open(f)))
  {
  }

  lemma {:induction false} ListsLock(d: Device, f: nat, id: nat, dir: u8)
    requires ListsMatch(d) && Enabled(d, Lock(f, id, dir))
    ensures ListsMatch(Next(d, Lock(f, id, dir)))
  {
  }

  /** The lists match in every reachable state, so the loop of the release finds no mapping of
      another file. */
  lemma {:induction false} ListsStep(d: Device, s: Step)
    requires Inv(d) && ListsMatch(d) && Enabled(d, s)
    ensures ListsMatch(Next(d, s))
  {
    match s {
      case DoExecute(file, r, e) => ExecuteOwners(d, file, r, e); ListsKept(d, Next(d, s));
      case Cleanup => ResetOwners(d, d.turn.c); ListsKept(d, Next(d, s));
      case Cancel(n) =>
        if n < 3 {
          ResetOwners(d, n);
          ListsKept(d, Next(d, s));
        }
      case Open(f) => ListsOpen(d, f);
      case Lock(f, id, dir) => ListsLock(d, f, id, dir);
      case Unlock(f, id) => ListsUnlock(d, f, id);
      case Release(f) => ListsRelease(d, f);
      case _ => ListsKept(d, Next(d, s));
    }
  }

  lemma {:induction false} ListsAlways(ss: seq<Step>)
    requires IsRun(Start(), ss)
    ensures ListsMatch(After(Start(), ss))
  {
    if ss != [] {
      ListsAlways(ss[..|ss| - 1]);
      Always(ss[..|ss| - 1]);
      ListsStep(After(Start(), ss[..|ss| - 1]), ss[|ss| - 1]);
    }
  }

  /** After a file is released nothing that it had mapped is left, and what others mapped is. */
  lemma {:induction false} ReleaseComplete(ss: seq<Step>, f: nat)
    requires IsRun(Start(), ss) && Enabled(After(Start(), ss), Release(f))
    ensures var d := After(Start(), ss);
      forall id :: id in Next(d, Release(f)).maps <==> id in d.maps && d.maps[id].owner != Some(f)
  {
    Always(ss);
    ListsAlways(ss);
    var d := After(Start(), ss);
    UnmapAllOk(d, d.files[f]);
  }

  /** The step of the run that pinned the memory of a mapping: the last one that gave out its id; -1 for
      the driver's own buffer. */
  function PinnedAt(ss: seq<Step>, id: nat): int {
    if ss == [] then -1
    else
      var s := ss[|ss| - 1];
      if s.Lock? && s.id == id then |ss| - 1 else PinnedAt(ss[..|ss| - 1], id)
  }

  /** A mapping keeps the owner and the direction that it was locked with, as long as it is there; and what is
      there was locked, but for the driver's own buffer. */
  lemma {:induction false} MappingsFrom(ss: seq<Step>, id: nat)
    requires IsRun(Start(), ss) && id in After(Start(), ss).maps
    ensures var k, info := PinnedAt(ss, id), After(Start(), ss).maps[id];
      if k == -1 then id == DRIVER_BUFFER_ID && info.owner == None && info.direction == BIDIRECTIONAL
      else 0 <= k < |ss| && ss[k].Lock? && ss[k].id == id
           && info.owner == Some(ss[k].file) && info.direction == ss[k].direction
  {
    if ss != [] {
      var rest, s := ss[..|ss| - 1], ss[|ss| - 1];
      Always(rest);
      if !(s.Lock? && s.id == id) {
        MapStep(After(Start(), rest), s, id);
        MappingsFrom(rest, id);
        assert PinnedAt(rest, id) >= 0 ==> rest[PinnedAt(rest, id)] == ss[PinnedAt(rest, id)];
      }
    }
  }

  lemma {:induction false} MapStep(d: Device, s: Step, id: nat)
    requires Inv(d) && Enabled(d, s) && id in Next(d, s).maps && !(s.Lock? && s.id == id)
    ensures id in d.maps && Next(d, s).maps[id].owner == d.maps[id].owner
    ensures Next(d, s).maps[id].direction == d.maps[id].direction
  {
    match s {
      case DoExecute(file, r, e) => ExecuteMaps(d, file, r, e);
      case Unlock(f, x) =>
        if x in d.maps {
          UnmapOk(d, x);
        }
      case Release(f) => UnmapAllOk(d, d.files[f]);
      case _ =>
    }
  }

  lemma {:induction false} ExecuteMaps(d: Device, file: Option<nat>, r: Request, e: Env)
    requires Inv(d) && Enabled(d, DoExecute(file, r, e))
    ensures var maps' := Execute(d, file, r, e).maps;
      && maps'.Keys == d.maps.Keys
      && forall id | id in d.maps :: maps'[id] == d.maps[id].(active := maps'[id].active)
  {
    if Validate(d, file, r) == Ok {
      InitOk(d, r, e);
      if Init(d, r, e).0 {
        DispatchOk(d, Init(d, r, e).1, r, e);
      }
    }
  }

  // ----- Runs without the two steps ----------------------------------------------------------------------

  /** No step of the run starts a stream in vain or takes a mapping that is in use. */
  ghost predicate Clean(d: Device, ss: seq<Step>)
    requires IsRun(d, ss)
    decreases |ss|
  {
    ss == [] ||
    (var e, s := After(d, ss[..|ss| - 1]), ss[|ss| - 1];
     Clean(d, ss[..|ss| - 1]) && !FailsToStream(e, s) && !TakesBusy(e, s))
  }

  /** After such a run the fast interrupts are those of the running streams, no handler faults, and
      every transfer writes to a mapping that is still there and marked as its own. */
  lemma {:induction false} CleanRuns(ss: seq<Step>)
    requires IsRun(Start(), ss) && Clean(Start(), ss)
    ensures var d := After(Start(), ss);
      && Precise(d) && MarksMatch(d)
      && forall c: ChannelId :: !IrqFaults(d, c)
           && (d.ch[c].state != Idle ==> d.ch[c].mapping.Some? && d.ch[c].mapping.value in d.maps)
  {
    Always(ss);
    if ss != [] {
      var rest, s := ss[..|ss| - 1], ss[|ss| - 1];
      CleanRuns(rest);
      Always(rest);
      FastIrqExact(After(Start(), rest), s);
      MarksExact(After(Start(), rest), s);
    }
    forall c: ChannelId ensures !IrqFaults(After(Start(), ss), c) {
      PreciseIsSafe(After(Start(), ss), c);
    }
  }
}
