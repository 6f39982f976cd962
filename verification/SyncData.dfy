/** What an interrupt of a stream hands to the reader: the data that it synchronises for the CPU is
    the data that its counter announces. */
module SyncData {
  import opened Words
  import opened Descriptors
  import opened Window
  import opened Meaning
  import opened Generator
  import opened Stream

  /** The bus addresses covered by tpce_dma_sync_for_cpu_partial on the given descriptors. */
  function SyncedBytes(ds: seq<Descriptor>, idx: seq<nat>): seq<int>
    requires forall k | 0 <= k < |idx| :: idx[k] < |ds|
  {
    if idx == [] then []
    else
      var last := idx[|idx| - 1];
      SyncedBytes(ds, idx[..|idx| - 1]) + DescBytes(ds[last])
  }

  function DescBytes(d: Descriptor): seq<int> {
    seq(d.length, r requires 0 <= r => d.WriteAddr() + r)
  }

  /** Bytes from up to to of the stream, at their places in the window: byte x of the stream is byte
      x modulo the ring of the window. */
  function StreamBytes(p: Params, m: Mapping, ring: nat, from: nat, count: nat): seq<int>
    requires ring > 0
  {
    seq(count, j requires 0 <= j => BusByte(m.sgl, 0, p.mapOffset + (from + j) % ring))
  }

  /** Descriptor k of a fixed-size list covers bytes k * b to (k + 1) * b of the window. */
  lemma {:induction false} FixedPosition(sgl: seq<SgEntry>, cs: seq<Chunk>, start: nat, total: nat, b: nat, k: nat)
    requires Tiles(sgl, cs, start, total, b) && AllOfLength(cs, b) && k < |cs|
    ensures InEntry(sgl, cs[k]) && Pos(sgl, cs[k]) == start + Bytes(b, k)
    decreases k
  {
    if k > 0 {
      assert forall i | 0 <= i < |cs| - 1 :: cs[1..][i] == cs[i + 1];
      FixedPosition(sgl, cs[1..], start + b, total - b, b, k - 1);
      BytesAdd(b, k - 1, 1);
      assert Bytes(b, 1) == b;
    }
  }

  lemma {:induction false} FixedDescriptor(p: Params, m: Mapping, ds: seq<Descriptor>, k: nat)
    requires p.channel < NUM_CHANNELS && Compilable(p, m) && IsGenerated(p, m, ds)
    requires p.bytesPerDescriptor > 0 && p.direction == FROM_DEVICE && k < |ds|
    ensures var b := p.bytesPerDescriptor;
      ds[k].length == b && forall r | 0 <= r < b ::
        DescBytes(ds[k])[r] == BusByte(m.sgl, 0, p.mapOffset + (Bytes(b, k) + r))
  {
    var b := p.bytesPerDescriptor;
    CompilableChunks(p, m);
    var cs := WindowChunks(m.sgl, p.mapOffset, p.bytesTotal, b);
    assert Addresses(p, m, ds[k], cs[k]);
    FixedPosition(m.sgl, cs, p.mapOffset, p.bytesTotal, b, k);
    forall r | 0 <= r < b
      ensures DescBytes(ds[k])[r] == BusByte(m.sgl, 0, p.mapOffset + (Bytes(b, k) + r))
    {
      BusByteInEntry(m.sgl, cs[k].idx, cs[k].off + r);
    }
  }

  /** Byte r of stream descriptor x lies at byte r of ring descriptor x mod n. */
  lemma {:induction false} RingPlace(b: nat, n: nat, x: nat, r: nat)
    requires n > 0 && r < b
    ensures Bytes(b, n) > 0 && (Bytes(b, x) + r) % Bytes(b, n) == Bytes(b, x % n) + r
  {
    var q, i := x / n, x % n;
    assert x == q * n + i;
    RingCongruence(b, n, q, i);
    BytesMono(b, i + 1, n);
    BytesAdd(b, i, 1);
    assert Bytes(b, 1) == b;
    DivModUnique(Bytes(b, x) + r, q, Bytes(b, i) + r, Bytes(b, n));
  }

  lemma {:induction false} OneSynced(p: Params, m: Mapping, ds: seq<Descriptor>, x: nat)
    requires p.channel < NUM_CHANNELS && Compilable(p, m) && IsGenerated(p, m, ds) && |ds| > 0
    requires p.bytesPerDescriptor > 0 && p.direction == FROM_DEVICE
    ensures var b, n := p.bytesPerDescriptor, |ds|;
      Bytes(b, n) > 0 && DescBytes(ds[x % n]) == StreamBytes(p, m, Bytes(b, n), Bytes(b, x), b)
  {
    var b, n := p.bytesPerDescriptor, |ds|;
    FixedDescriptor(p, m, ds, x % n);
    RingPlace(b, n, x, 0);
    var w := StreamBytes(p, m, Bytes(b, n), Bytes(b, x), b);
    forall r | 0 <= r < b ensures DescBytes(ds[x % n])[r] == w[r] {
      RingPlace(b, n, x, r);
    }
  }

  lemma {:induction false} StreamBytesAppend(p: Params, m: Mapping, ring: nat, from: nat, x: nat, y: nat)
    requires ring > 0
    ensures StreamBytes(p, m, ring, from, x + y)
            == StreamBytes(p, m, ring, from, x) + StreamBytes(p, m, ring, from + x, y)
  {
    var whole, tail := StreamBytes(p, m, ring, from, x + y), StreamBytes(p, m, ring, from + x, y);
    forall j | 0 <= j < y ensures whole[x + j] == tail[j] {
      assert from + (x + j) == from + x + j;
    }
  }

  /** Partial synchronisation covers exactly the new data. An interrupt that accounts for count
      descriptors after u synchronises, in order and each once, the buffer bytes of the stream from
      the counter before it, Bytes(b, u), up to the counter after it, Bytes(b, u + count). */
  lemma {:induction false} SyncCoversNewData(p: Params, m: Mapping, ds: seq<Descriptor>, u: nat, count: nat)
    requires p.channel < NUM_CHANNELS && Compilable(p, m) && IsGenerated(p, m, ds) && |ds| > 0
    requires p.bytesPerDescriptor > 0 && p.direction == FROM_DEVICE
    ensures var b, n := p.bytesPerDescriptor, |ds|;
      && Bytes(b, n) > 0
      && SyncedBytes(ds, Synced(u % n, count, n)) == StreamBytes(p, m, Bytes(b, n), Bytes(b, u), Bytes(b, count))
    decreases count
  {
    var b, n := p.bytesPerDescriptor, |ds|;
    OneSynced(p, m, ds, u);
    BytesOne(b);
    if count > 0 {
      SyncCoversNewData(p, m, ds, u, count - 1);
      LastSynced(ds, u, count);
      OneMore(p, m, ds, u, count - 1);
    }
  }

  /** The stream bytes of one more descriptor. */
  lemma {:induction false} OneMore(p: Params, m: Mapping, ds: seq<Descriptor>, u: nat, k: nat)
    requires p.channel < NUM_CHANNELS && Compilable(p, m) && IsGenerated(p, m, ds) && |ds| > 0
    requires p.bytesPerDescriptor > 0 && p.direction == FROM_DEVICE
    ensures var b, n := p.bytesPerDescriptor, |ds|;
      && Bytes(b, n) > 0
      && StreamBytes(p, m, Bytes(b, n), Bytes(b, u), Bytes(b, k)) + DescBytes(ds[(u + k) % n])
         == StreamBytes(p, m, Bytes(b, n), Bytes(b, u), Bytes(b, k + 1))
  {
    var b, n := p.bytesPerDescriptor, |ds|;
    OneSynced(p, m, ds, u + k);
    BytesAdd(b, k, 1);
    BytesAdd(b, u, k);
    BytesOne(b);
    StreamBytesAppend(p, m, Bytes(b, n), Bytes(b, u), Bytes(b, k), b);
  }

  lemma {:induction false} BytesOne(b: nat)
    ensures Bytes(b, 1) == b && Bytes(b, 0) == 0
  {
  }

  lemma {:induction false} LastSynced(ds: seq<Descriptor>, u: nat, count: nat)
    requires |ds| > 0 && count > 0
    ensures SyncedBytes(ds, Synced(u % |ds|, count, |ds|))
            == SyncedBytes(ds, Synced(u % |ds|, count - 1, |ds|)) + DescBytes(ds[(u + (count - 1)) % |ds|])
  {
    var n := |ds|;
    var idx := Synced(u % n, count, n);
    assert idx[..count - 1] == Synced(u % n, count - 1, n);
    ModModAdd(u, count - 1, n);
    assert idx[count - 1] == (u + (count - 1)) % n;
  }
}
