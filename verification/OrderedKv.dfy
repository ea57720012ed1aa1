/** The ordered key/value store the allocators run on: byte keys in lexicographic order, half-open range
    reads, and transactions that apply their puts and deletes and then their additions at commit. */
module OrderedKv {
  import opened Bytes

  type Key = seq<byte>
  type Value = seq<byte>
  type Kv = map<Key, Value>

  // ---- Key order and prefix ranges ----

  predicate InRange(k: Key, begin: Key, end: Key) {
    !Less(k, begin) && Less(k, end)
  }

  /** The end of a prefix scan: the last octet incremented, or a zero octet appended when it cannot be. */
  function ScanEnd(p: Key): (end: Key)
  {
    if p != [] && p[|p| - 1] < 0xFF then p[..|p| - 1] + [p[|p| - 1] + 1] else p + [0]
  }

  /** Scanning a prefix that does not end in 0xFF reads exactly the keys that extend it; scanning one
      that does reads that key alone. */
  lemma {:induction false} ScanReads(p: Key, k: Key)
    requires p != []
    ensures InRange(k, p, ScanEnd(p)) <==> if p[|p| - 1] < 0xFF then p <= k else k == p
  {
    if |p| == 1 {
      assert p == [p[0]];
      ScanOfOne(p[0], k);
    } else {
      var q, end := p[1..], ScanEnd(p);
      ScanReads(q, if k == [] then [] else k[1..]);
      assert end[0] == p[0] && end[1..] == ScanEnd(q);
      assert p == [p[0]] + q;
      if k != [] {
        assert k == [k[0]] + k[1..];
        assert p <= k <==> p[0] == k[0] && q <= k[1..];
        assert k == p <==> p[0] == k[0] && q == k[1..];
        assert q[|q| - 1] == p[|p| - 1];
      }
    }
  }

  lemma ScanOfOne(b: byte, k: Key)
    ensures InRange(k, [b], ScanEnd([b])) <==> if b < 0xFF then [b] <= k else k == [b]
  {
    var end := ScanEnd([b]);
    if b < 0xFF {
      assert end == [b + 1] && [b][1..] == [] && end[1..] == [];
      if k != [] {
        assert !Less(k[1..], []);
      }
    } else {
      assert end == [b, 0] && end[1..] == [0] && [b][1..] == [] && [0][1..] == [];
      if k != [] {
        assert k == [b] <==> k[0] == b && k[1..] == [];
        assert Less(k[1..], [0]) <==> k[1..] == [];
        assert Less(k, [b]) <==> k[0] < b;
        assert Less(k, end) <==> k[0] < b || (k[0] == b && k[1..] == []);
      }
    }
  }

  // ---- 64-bit counters ----

  function I64Octets(v: i64): (bs: Value)
    ensures |bs| == 8
  {
    ToBigEndian(if v < 0 then v + 0x1_0000_0000_0000_0000 else v, 8)
  }

  function I64Of(bs: Value): (v: i64)
    requires |bs| == 8
  {
    BigEndianBound(bs);
    Pow256Values();
    var n := BigEndian(bs);
    if n < 0x8000_0000_0000_0000 then n else n - 0x1_0000_0000_0000_0000
  }

  lemma I64RoundTrip(v: i64)
    ensures I64Of(I64Octets(v)) == v
  {
    hide BigEndian, ToBigEndian, Pow256;
    Pow256Values();
    BigEndianRoundTrip(if v < 0 then v + 0x1_0000_0000_0000_0000 else v, 8);
  }

  /** Counters are stored most significant octet first, in two's complement. */
  lemma I64OctetsAre(v: i64)
    ensures BigEndian(I64Octets(v)) == if v < 0 then v + 0x1_0000_0000_0000_0000 else v
  {
    hide BigEndian, ToBigEndian, Pow256;
    Pow256Values();
    BigEndianRoundTrip(if v < 0 then v + 0x1_0000_0000_0000_0000 else v, 8);
  }

  predicate IsI64(n: int) {
    -0x8000_0000_0000_0000 <= n < 0x8000_0000_0000_0000
  }

  function CounterAt(kv: Kv, k: Key): (c: Option<i64>)
  {
    if k in kv && |kv[k]| == 8 then Some(I64Of(kv[k])) else None
  }

  // ---- Transactions ----

  datatype KvError = AddOverflow

  /** The store with a write set laid over it; `None` deletes. */
  function Overlaid(kv: Kv, writes: map<Key, Option<Value>>): (r: Kv)
  {
    map k | k in kv.Keys + writes.Keys && (k in writes ==> writes[k].Some?) ::
      if k in writes then writes[k].value else kv[k]
  }

  function Added(kv: Kv, k: Key, delta: i64): (r: Result<Kv, KvError>)
  {
    var current := match CounterAt(kv, k) case Some(c) => c case None => 0;
    var sum: int := current as int + delta;
    if IsI64(sum) then Ok(kv[k := I64Octets(sum)]) else Err(AddOverflow)
  }

  /** An addition counts from zero where there is no counter, refuses to leave 64 bits, and touches no other
      key. */
  lemma AddedCounts(kv: Kv, k: Key, delta: i64, other: Key)
    ensures CounterAt(kv, k).None? ==> Added(kv, k, delta).Ok? && CounterAt(Added(kv, k, delta).value, k) == Some(delta)
    ensures CounterAt(kv, k).Some? ==>
              var sum := CounterAt(kv, k).value + delta;
              if -0x8000_0000_0000_0000 <= sum < 0x8000_0000_0000_0000
              then Added(kv, k, delta).Ok? && CounterAt(Added(kv, k, delta).value, k) == Some(sum)
              else Added(kv, k, delta) == Err(AddOverflow)
    ensures Added(kv, k, delta).Ok? && other != k ==>
              var r := Added(kv, k, delta).value;
              (other in r <==> other in kv) && (other in kv ==> r[other] == kv[other])
  {
    hide I64Octets, I64Of;
    var current: int := if CounterAt(kv, k).Some? then CounterAt(kv, k).value else 0;
    if IsI64(current + delta) {
      I64RoundTrip(current + delta);
    }
  }

  /** Additions in their order, each on what the store then holds; the first that overflows ends it. */
  function AddedAll(kv: Kv, adds: seq<(Key, i64)>): (r: (Kv, Result<(), KvError>))
    decreases |adds|
  {
    if adds == [] then (kv, Ok(()))
    else
      match Added(kv, adds[0].0, adds[0].1)
      case Ok(next) => AddedAll(next, adds[1..])
      case Err(e) => (kv, Err(e))
  }

  class KvStore {
    var kv: Kv

    constructor (kv: Kv)
      ensures this.kv == kv
    {
      this.kv := kv;
    }
  }

  /** A write transaction: a snapshot, a write set read through, and additions staged for the commit. */
  class WriteTxn {
    const snapshot: Kv
    var writes: map<Key, Option<Value>>
    var adds: seq<(Key, i64)>

    constructor (snapshot: Kv)
      ensures this.snapshot == snapshot && writes == map[] && adds == []
    {
      this.snapshot, writes, adds := snapshot, map[], [];
    }

    method Get(k: Key) returns (v: Option<Value>)
      ensures v == if k in Overlaid(snapshot, writes) then Some(Overlaid(snapshot, writes)[k]) else None
    {
      if k in writes {
        return writes[k];
      }
      v := if k in snapshot then Some(snapshot[k]) else None;
    }

    method Put(k: Key, v: Value)
      modifies this
      ensures writes == old(writes)[k := Some(v)] && adds == old(adds)
      ensures Overlaid(snapshot, writes) == Overlaid(snapshot, old(writes))[k := v]
    {
      writes := writes[k := Some(v)];
    }

    method Delete(k: Key)
      modifies this
      ensures writes == old(writes)[k := None] && adds == old(adds)
      ensures Overlaid(snapshot, writes) == Overlaid(snapshot, old(writes)) - {k}
    {
      writes := writes[k := None];
    }

    method AtomicAdd(k: Key, delta: i64)
      modifies this
      ensures writes == old(writes) && adds == old(adds) + [(k, delta)]
    {
      adds := adds + [(k, delta)];
    }

    /** Writes first, then the additions. */
    method Commit(store: KvStore) returns (r: Result<(), KvError>)
      modifies store
      ensures (store.kv, r) == AddedAll(Overlaid(old(store.kv), writes), adds)
    {
      hide Added;
      store.kv := Overlaid(store.kv, writes);
      ghost var written := store.kv;
      for i := 0 to |adds|
        invariant AddedAll(written, adds) == AddedAll(store.kv, adds[i..])
      {
        assert adds[i..][0] == adds[i] && adds[i..][1..] == adds[i + 1..];
        var next := Added(store.kv, adds[i].0, adds[i].1);
        if next.Err? {
          return Err(next.error);
        }
        store.kv := next.value;
      }
      r := Ok(());
    }
  }
}
