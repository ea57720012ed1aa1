/** The allocators as they run, in transactions against the store. The domain allocator and the local one
    differ in their keys only, so both are this one with their own kind of pool. */
module RidAllocator {
  import opened Bytes
  import opened OrderedKv
  import opened RidPool
  import opened RidStore

  /** The store as a transaction sees it once a new pool has been given its seed and its state. */
  function Opened(kv: Kv, id: PoolId): (r: Kv)
    requires Valid(id)
  {
    if CounterAt(kv, CounterKey(id)).Some? then kv
    else kv[CounterKey(id) := I64Octets(999)][StateKey(id) := StateOctets(StateAt(kv, id))]
  }

  /** And with the new mark recorded, if it moved. */
  function Marked(kv: Kv, id: PoolId, mark: u32): (r: Kv)
    requires Valid(id)
  {
    var s := StateAt(kv, id);
    if mark != s.last then Opened(kv, id)[StateKey(id) := StateOctets(s.(last := mark))] else Opened(kv, id)
  }

  lemma MarkedCounter(kv: Kv, id: PoolId, mark: u32)
    requires Valid(id)
    ensures CounterAt(Marked(kv, id, mark), CounterKey(id)) == Some(PoolOf(kv, id).counter)
  {
    hide StateKey, CounterKey, StateOctets, StateAt, I64Octets, I64Of;
    I64RoundTrip(999);
  }

  lemma MarkedIsWritten(kv: Kv, id: PoolId, last: i64, mark: u32)
    requires Valid(id)
    ensures Marked(kv, id, mark)[CounterKey(id) := I64Octets(last)] == Written(kv, id, last, mark)
  {
    hide StateKey, CounterKey, StateOctets, StateAt, I64Octets, CounterAt;
    var s := StateAt(kv, id);
    assert s.(last := s.last) == s;
  }

  /** The store once one addition to the counter is committed. */
  lemma CommitIs(kv: Kv, id: PoolId, n: i64, mark: u32)
    requires Valid(id) && IsI64(PoolOf(kv, id).counter + n)
    ensures AddedAll(Marked(kv, id, mark), [(CounterKey(id), n)]) ==
            (Written(kv, id, PoolOf(kv, id).counter + n, mark), Ok(()))
  {
    hide StateKey, CounterKey, I64Octets, PoolOf, Marked, Written, CounterAt;
    MarkedCounter(kv, id, mark);
    MarkedIsWritten(kv, id, PoolOf(kv, id).counter + n, mark);
    assert [(CounterKey(id), n)][1..] == [];
  }

  class RidPoolAllocator {
    const store: KvStore

    constructor (store: KvStore)
      ensures this.store == store
    {
      this.store := store;
    }

    /** Reads the records of a pool in a transaction; a pool without a counter is given its seed. */
    method Begin(txn: WriteTxn, id: PoolId) returns (s: RidState, c: i64)
      requires Valid(id) && txn.writes == map[] && txn.adds == []
      modifies txn
      ensures txn.adds == [] && s == StateAt(txn.snapshot, id) && c == PoolOf(txn.snapshot, id).counter
      ensures Overlaid(txn.snapshot, txn.writes) == Opened(txn.snapshot, id)
    {
      hide StateKey, CounterKey, StateOctets, StateOf, I64Octets, I64Of;
      assert Overlaid(txn.snapshot, txn.writes) == txn.snapshot;
      var record := txn.Get(StateKey(id));
      s := INITIAL_STATE;
      if record.Some? {
        var decoded := StateOf(record.value);
        if decoded.Some? {
          s := decoded.value;
        }
      }
      var counter := txn.Get(CounterKey(id));
      if counter.Some? && |counter.value| == 8 {
        c := I64Of(counter.value);
      } else {
        c := 999;
        txn.Put(CounterKey(id), I64Octets(c));
        txn.Put(StateKey(id), StateOctets(s));
      }
    }

    /** Stages the addition and, when the mark moves, the new record, and commits. */
    method Finish(txn: WriteTxn, id: PoolId, s: RidState, n: u32, mark: u32)
      requires Valid(id) && IsI64(PoolOf(store.kv, id).counter + n) && txn.adds == [] && txn.snapshot == store.kv
      requires s == StateAt(store.kv, id) && Overlaid(store.kv, txn.writes) == Opened(store.kv, id)
      modifies txn, store
      ensures store.kv == Written(old(store.kv), id, PoolOf(old(store.kv), id).counter + n, mark)
    {
      hide StateKey, CounterKey, StateOctets, Opened, Written, Overlaid, PoolOf, StateAt, AddedAll;
      txn.AtomicAdd(CounterKey(id), n);
      assert txn.adds == [(CounterKey(id), n)];
      if mark != s.last {
        txn.Put(StateKey(id), StateOctets(s.(last := mark)));
      }
      CommitIs(store.kv, id, n, mark);
      var _ := txn.Commit(store);
    }

    method Allocate(id: PoolId) returns (r: Result<u32, PoolError>)
      modifies store
      ensures match RidStore.Allocate(old(store.kv), id)
              case Ok((kv, rid)) => store.kv == kv && r == Ok(rid)
              case Err(e) => store.kv == old(store.kv) && r == Err(e)
    {
      hide StateKey, CounterKey, Opened, Written, Overlaid, PoolOf, StateAt;
      if !Valid(id) {
        return Err(BadSid);
      }
      var txn := new WriteTxn(store.kv);
      var s, c := Begin(txn, id);
      PoolMark(store.kv, id);
      if !IsI64(c as int + 1) {
        return Err(CounterOverflow);
      }
      var rid := AsU32(c as int + 1);
      var mark := s.last;
      if rid > s.last {
        mark := Saturating(s.last as int + RID_BATCH_SIZE);
      }
      Finish(txn, id, s, 1, mark);
      r := Ok(rid);
    }

    method AllocateBatch(id: PoolId, n: u32) returns (r: Result<seq<u32>, PoolError>)
      modifies store
      ensures match RidStore.AllocateBatch(old(store.kv), id, n)
              case Ok((kv, rids)) => store.kv == kv && r == Ok(rids)
              case Err(e) => store.kv == old(store.kv) && r == Err(e)
    {
      hide StateKey, CounterKey, Opened, Written, Overlaid, PoolOf, StateAt, Range, AsU32;
      if n == 0 {
        return Ok([]);
      }
      if !Valid(id) {
        return Err(BadSid);
      }
      var txn := new WriteTxn(store.kv);
      var s, c := Begin(txn, id);
      PoolMark(store.kv, id);
      if !IsI64(c as int + n) {
        return Err(CounterOverflow);
      }
      var last := AsU32(c as int + n);
      var mark := s.last;
      if last > s.last {
        var extra := Saturating(Batches(last - s.last) * RID_BATCH_SIZE);
        mark := Saturating(s.last as int + extra);
      }
      Finish(txn, id, s, n, mark);
      var rids := Count(c, n);
      r := Ok(rids);
    }

    /** The RIDs counted up one by one. */
    method Count(c: int, n: nat) returns (rids: seq<u32>)
      ensures rids == Range(c, n)
    {
      rids := [];
      for i := 0 to n
        invariant rids == Range(c, i)
      {
        rids := rids + [AsU32(c + 1 + i)];
      }
    }

    method State(id: PoolId) returns (r: Result<RidState, PoolError>)
      ensures r == Report(store.kv, id)
    {
      hide StateKey, CounterKey, StateOf, I64Of;
      if !Valid(id) {
        return Err(BadSid);
      }
      var s := INITIAL_STATE;
      if StateKey(id) in store.kv {
        var decoded := StateOf(store.kv[StateKey(id)]);
        if decoded.Some? {
          s := decoded.value;
        }
      }
      var next := s.next;
      if CounterKey(id) in store.kv && |store.kv[CounterKey(id)]| == 8 {
        var v := I64Of(store.kv[CounterKey(id)]);
        next := if v < 0 then INITIAL_RID else AsU32(v as int + 1);
      }
      r := Ok(RidState(next, s.last, s.threshold));
    }

    /** Deletes, in one transaction, every key the prefix scan finds. */
    method ReclaimPool(id: PoolId) returns (r: Result<(), PoolError>)
      modifies store
      ensures match Reclaim(old(store.kv), id)
              case Ok(kv) => store.kv == kv && r == Ok(())
              case Err(e) => store.kv == old(store.kv) && r == Err(e)
    {
      hide InRange, Prefix, Scanned;
      if !Valid(id) {
        return Err(BadSid);
      }
      var found := Scanned(store.kv, Prefix(id));
      if found == {} {
        assert store.kv - found == store.kv;
        return Ok(());
      }
      var txn := new WriteTxn(store.kv);
      DeleteAll(txn, found);
      var _ := txn.Commit(store);
      r := Ok(());
    }

    method DeleteAll(txn: WriteTxn, found: set<Key>)
      requires txn.writes == map[] && txn.adds == []
      modifies txn
      ensures Overlaid(txn.snapshot, txn.writes) == txn.snapshot - found && txn.adds == []
    {
      var left := found;
      assert Overlaid(txn.snapshot, txn.writes) == txn.snapshot - {};
      assert found - left == {};
      while left != {}
        invariant left <= found && txn.adds == []
        invariant Overlaid(txn.snapshot, txn.writes) == txn.snapshot - (found - left)
        decreases |left|
      {
        var k :| k in left;
        hide Overlaid;
        txn.Delete(k);
        assert found - (left - {k}) == (found - left) + {k};
        assert txn.snapshot - (found - left) - {k} == txn.snapshot - ((found - left) + {k});
        left := left - {k};
      }
      assert found - left == found;
    }
  }
}
