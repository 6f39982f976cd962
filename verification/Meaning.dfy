/** What a list of descriptors, and what a request, tells the device to copy. */
module Meaning {
  import opened Words
  import opened Descriptors
  import opened Window

  /** An end of a one-byte move: host memory, device memory, or the device's data stream. */
  datatype Endpoint = Host(addr: int) | DeviceMem(addr: int) | DeviceFifo(pos: nat)
  datatype Move = Move(src: Endpoint, dst: Endpoint)

  /** The device end of byte k of a piece that starts at device address base, after taken bytes
      of the stream. Device addresses are 32 bits wide. */
  function DeviceEnd(streaming: bool, base: int, taken: nat, k: nat): Endpoint {
    if streaming then DeviceFifo(taken + k) else DeviceMem(W32(base + k))
  }

  function ByteMove(direction: u8, ch: ChannelInfo, base: int, taken: nat, k: nat, host: int): Move {
    if direction == FROM_DEVICE then Move(DeviceEnd(ch.hasStreamRead, base, taken, k), Host(host))
    else Move(Host(host), DeviceEnd(ch.hasStreamWrite, base, taken, k))
  }

  /** The address on the device side of a descriptor, and the one on the host side. */
  function DeviceSide(direction: u8, d: Descriptor): int {
    if direction == FROM_DEVICE then d.ReadAddr() else d.WriteAddr()
  }

  function HostSide(direction: u8, d: Descriptor): int {
    if direction == FROM_DEVICE then d.WriteAddr() else d.ReadAddr()
  }

  /** The moves of one descriptor; host maps the addresses on its host side to bus addresses. */
  function DescMoves(host: int -> int, direction: u8, ch: ChannelInfo, d: Descriptor, taken: nat): seq<Move> {
    seq(d.length, k requires 0 <= k => DescMove(host, direction, ch, d, taken, k))
  }

  function DescMove(host: int -> int, direction: u8, ch: ChannelInfo, d: Descriptor, taken: nat, k: nat): Move {
    ByteMove(direction, ch, DeviceSide(direction, d), taken, k, host(HostSide(direction, d) + k))
  }

  /** The moves of a list of descriptors that is executed in order. */
  function ListMoves(host: int -> int, direction: u8, ch: ChannelInfo, ds: seq<Descriptor>, taken: nat): seq<Move> {
    if ds == [] then []
    else DescMoves(host, direction, ch, ds[0], taken)
         + ListMoves(host, direction, ch, ds[1..], taken + ds[0].length)
  }

  /** Addresses that need no translation. */
  function Untranslated(a: int): int {
    a
  }

  /** The request itself: byte j of the device data and byte mapOffset + j of the mapping. */
  function RequestMove(p: Params, m: Mapping, j: nat): Move
    requires p.channel < NUM_CHANNELS
  {
    ByteMove(p.direction, ChannelTable(p.channel), p.deviceAddr, 0, j,
             BusByte(m.sgl, 0, p.mapOffset + j))
  }

  function RequestMoves(p: Params, m: Mapping): seq<Move>
    requires p.channel < NUM_CHANNELS
  {
    RequestFrom(p, m, 0, p.bytesTotal)
  }

  /** The moves of the request from byte i on. */
  function RequestFrom(p: Params, m: Mapping, i: nat, n: nat): seq<Move>
    requires p.channel < NUM_CHANNELS
  {
    seq(n, j requires 0 <= j => RequestMove(p, m, i + j))
  }

  // ----- A list of descriptors that addresses a tiling copies the window ---------------------------

  /** Bytes of the request that come before chunk c of its window. */
  function BytesBefore(p: Params, m: Mapping, c: Chunk): int
    requires c.idx < |m.sgl|
  {
    Pos(m.sgl, c) - p.mapOffset
  }

  /** Descriptor d addresses chunk c of the window of the request. */
  ghost predicate Addresses(p: Params, m: Mapping, d: Descriptor, c: Chunk)
    requires p.channel < NUM_CHANNELS
  {
    var ch := ChannelTable(p.channel);
    var streaming := if p.direction == FROM_DEVICE then ch.hasStreamRead else ch.hasStreamWrite;
    && c.idx < |m.sgl|
    && d.length == c.len
    && HostSide(p.direction, d) == ChunkAddr(m.sgl, c)
    && DeviceSide(p.direction, d) == if streaming then 0 else W32(p.deviceAddr + BytesBefore(p, m, c))
  }

  lemma {:induction false} DescriptorMeaning(p: Params, m: Mapping, d: Descriptor, c: Chunk, k: nat)
    requires p.channel < NUM_CHANNELS && Addresses(p, m, d, c)
    requires InEntry(m.sgl, c) && p.mapOffset <= Pos(m.sgl, c) && k < c.len
    ensures var done := BytesBefore(p, m, c);
      DescMoves(Untranslated, p.direction, ChannelTable(p.channel), d, done)[k]
      == RequestMove(p, m, done + k)
  {
    var done := BytesBefore(p, m, c);
    BusByteInEntry(m.sgl, c.idx, c.off + k);
    assert BusByte(m.sgl, 0, p.mapOffset + (done + k)) == HostSide(p.direction, d) + k;
    assert HostSide(p.direction, d) + k == Untranslated(HostSide(p.direction, d) + k);
    W32Add(p.deviceAddr + done, k);
    var base := DeviceSide(p.direction, d);
    var ch := ChannelTable(p.channel);
    var streaming := if p.direction == FROM_DEVICE then ch.hasStreamRead else ch.hasStreamWrite;
    assert DeviceEnd(streaming, base, done, k) == DeviceEnd(streaming, p.deviceAddr, 0, done + k);
    assert ByteMove(p.direction, ch, base, done, k, HostSide(p.direction, d) + k)
           == RequestMove(p, m, done + k);
  }

  lemma {:induction false} HeadMeaning(p: Params, m: Mapping, d: Descriptor, c: Chunk)
    requires p.channel < NUM_CHANNELS && Addresses(p, m, d, c)
    requires InEntry(m.sgl, c) && p.mapOffset <= Pos(m.sgl, c)
    ensures var done := BytesBefore(p, m, c);
      DescMoves(Untranslated, p.direction, ChannelTable(p.channel), d, done)
      == RequestFrom(p, m, done, c.len)
  {
    var done := BytesBefore(p, m, c);
    var head := DescMoves(Untranslated, p.direction, ChannelTable(p.channel), d, done);
    forall k | 0 <= k < c.len
      ensures head[k] == RequestFrom(p, m, done, c.len)[k]
    {
      DescriptorMeaning(p, m, d, c, k);
    }
  }

  lemma {:induction false} RequestAppend(p: Params, m: Mapping, i: nat, a: nat, b: nat)
    requires p.channel < NUM_CHANNELS
    ensures RequestFrom(p, m, i, a + b) == RequestFrom(p, m, i, a) + RequestFrom(p, m, i + a, b)
  {
    var whole, tail := RequestFrom(p, m, i, a + b), RequestFrom(p, m, i + a, b);
    forall j | 0 <= j < b
      ensures whole[a + j] == tail[j]
    {
      assert i + (a + j) == i + a + j;
    }
  }

  /** The descriptors of a list address the chunks, one each. */
  ghost predicate AllAddress(p: Params, m: Mapping, ds: seq<Descriptor>, cs: seq<Chunk>)
    requires p.channel < NUM_CHANNELS
  {
    |ds| == |cs| && forall k {:trigger ds[k]} | 0 <= k < |cs| :: Addresses(p, m, ds[k], cs[k])
  }

  lemma {:induction false} AllAddressTail(p: Params, m: Mapping, ds: seq<Descriptor>, cs: seq<Chunk>)
    requires p.channel < NUM_CHANNELS && AllAddress(p, m, ds, cs) && cs != []
    ensures Addresses(p, m, ds[0], cs[0]) && AllAddress(p, m, ds[1..], cs[1..])
  {
    assert forall k | 0 <= k < |cs| - 1 :: ds[1..][k] == ds[k + 1] && cs[1..][k] == cs[k + 1];
  }

  /** From byte i of the request on, a list whose descriptors address a tiling of the rest of the
      window performs the rest of the request. */
  lemma {:induction false} SuffixMeaning(p: Params, m: Mapping, ds: seq<Descriptor>, cs: seq<Chunk>,
                                         step: nat, i: nat, total: nat)
    requires p.channel < NUM_CHANNELS && Tiles(m.sgl, cs, p.mapOffset + i, total, step)
    requires AllAddress(p, m, ds, cs)
    ensures ListMoves(Untranslated, p.direction, ChannelTable(p.channel), ds, i)
            == RequestFrom(p, m, i, total)
    decreases |cs|
  {
    if cs != [] {
      AllAddressTail(p, m, ds, cs);
      HeadMeaning(p, m, ds[0], cs[0]);
      var len := cs[0].len;
      assert p.mapOffset + i + len == p.mapOffset + (i + len);
      SuffixMeaning(p, m, ds[1..], cs[1..], step, i + len, total - len);
      RequestAppend(p, m, i, len, total - len);
    }
  }

  /** If descriptor k addresses chunk k of a tiling of the window, the list means the request. */
  lemma {:induction false} ListMeaning(p: Params, m: Mapping, ds: seq<Descriptor>, cs: seq<Chunk>, step: nat)
    requires p.channel < NUM_CHANNELS
    requires Tiles(m.sgl, cs, p.mapOffset, p.bytesTotal, step)
    requires |ds| == |cs|
    requires forall k {:trigger ds[k]} | 0 <= k < |cs| :: Addresses(p, m, ds[k], cs[k])
    ensures ListMoves(Untranslated, p.direction, ChannelTable(p.channel), ds, 0) == RequestMoves(p, m)
  {
    SuffixMeaning(p, m, ds, cs, step, 0, p.bytesTotal);
  }
}
