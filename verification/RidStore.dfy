/** RID allocation on the store: what each operation does to the keys, that a batch refines single
    allocations, that pools do not touch each other, and what a reclaim leaves. */
module RidStore {
  import opened Bytes
  import opened Sids
  import opened OrderedKv
  import opened RidPool

  datatype PoolError = BadSid | CounterOverflow

  function StateAt(kv: Kv, id: PoolId): (s: RidState)
    requires Valid(id)
  {
    if StateKey(id) !in kv then INITIAL_STATE
    else
      match StateOf(kv[StateKey(id)])
      case Some(s) => s
      case None => INITIAL_STATE
  }

  function PoolOf(kv: Kv, id: PoolId): (p: Pool)
    requires Valid(id)
  {
    Pool(match CounterAt(kv, CounterKey(id)) case Some(c) => c case None => 999, StateAt(kv, id).last)
  }

  /** The store after an allocation up to `last` that leaves the given mark. The state record is written
      when the pool is new or its mark moves. */
  function Written(kv: Kv, id: PoolId, last: i64, mark: u32): (r: Kv)
    requires Valid(id)
  {
    var s := StateAt(kv, id);
    var recorded :=
      if CounterAt(kv, CounterKey(id)).None? || mark != s.last then kv[StateKey(id) := StateOctets(s.(last := mark))]
      else kv;
    recorded[CounterKey(id) := I64Octets(last)]
  }

  function Allocate(kv: Kv, id: PoolId): (r: Result<(Kv, u32), PoolError>)
  {
    if !Valid(id) then Err(BadSid)
    else
      var q := AfterSingle(PoolOf(kv, id));
      if !IsI64(q.counter) then Err(CounterOverflow)
      else Ok((Written(kv, id, q.counter, q.mark), AsU32(q.counter)))
  }

  /** The RIDs dispensed after `counter`. */
  function Range(counter: int, n: nat): (rids: seq<u32>)
    ensures |rids| == n && forall i | 0 <= i < n :: rids[i] == AsU32(counter + 1 + i)
  {
    if n == 0 then [] else Range(counter, n - 1) + [AsU32(counter + n)]
  }

  function AllocateBatch(kv: Kv, id: PoolId, n: u32): (r: Result<(Kv, seq<u32>), PoolError>)
  {
    if n == 0 then Ok((kv, []))
    else if !Valid(id) then Err(BadSid)
    else
      var p := PoolOf(kv, id);
      var q := AfterBatch(p, n);
      if !IsI64(q.counter) then Err(CounterOverflow)
      else Ok((Written(kv, id, q.counter, q.mark), Range(p.counter, n)))
  }

  /** The state as reported: the next RID comes from the counter. */
  function Report(kv: Kv, id: PoolId): (r: Result<RidState, PoolError>)
  {
    if !Valid(id) then Err(BadSid)
    else
      var s := StateAt(kv, id);
      match CounterAt(kv, CounterKey(id))
      case Some(c) => Ok(s.(next := if c < 0 then INITIAL_RID else AsU32(c as int + 1)))
      case None => Ok(s)
  }

  function Scanned(kv: Kv, p: Key): (ks: set<Key>)
  {
    set k | k in kv && InRange(k, p, ScanEnd(p))
  }

  function Reclaimed(kv: Kv, id: PoolId): (r: Kv)
    requires Valid(id)
  {
    kv - Scanned(kv, Prefix(id))
  }

  function Reclaim(kv: Kv, id: PoolId): (r: Result<Kv, PoolError>)
  {
    if !Valid(id) then Err(BadSid) else Ok(Reclaimed(kv, id))
  }

  // ---- One write ----

  /** Reading back what an allocation wrote. */
  lemma WrittenReads(kv: Kv, id: PoolId, last: i64, mark: u32)
    requires Valid(id)
    ensures var kv' := Written(kv, id, last, mark);
            && CounterAt(kv', CounterKey(id)) == Some(last)
            && StateAt(kv', id) == StateAt(kv, id).(last := mark)
            && PoolOf(kv', id) == Pool(last, mark)
  {
    hide StateKey, CounterKey, StateOctets, StateOf, I64Octets, I64Of;
    I64RoundTrip(last);
    StateRoundTrip(StateAt(kv, id).(last := mark));
  }

  /** Of two allocations in a row only the second shows, since marks never go down. */
  lemma WrittenTwice(kv: Kv, id: PoolId, last: i64, mark: u32, last': i64, mark': u32)
    requires Valid(id) && StateAt(kv, id).last <= mark <= mark'
    ensures Written(Written(kv, id, last, mark), id, last', mark') == Written(kv, id, last', mark')
  {
    hide StateKey, CounterKey, StateOctets, StateOf, I64Octets, I64Of;
    WrittenReads(kv, id, last, mark);
  }

  /** An allocation changes no key outside its pool's prefix, so no other pool. */
  lemma WrittenElsewhere(kv: Kv, id: PoolId, last: i64, mark: u32, k: Key)
    requires Valid(id) && !(Prefix(id) <= k)
    ensures var kv' := Written(kv, id, last, mark); (k in kv' <==> k in kv) && (k in kv ==> kv'[k] == kv[k])
  {
  }

  // ---- A batch refines single allocations ----

  function Singles(kv: Kv, id: PoolId, n: nat): (r: Result<(Kv, seq<u32>), PoolError>)
  {
    if n == 0 then Ok((kv, []))
    else
      var (before, rids) :- Singles(kv, id, n - 1);
      var (after, rid) :- Allocate(before, id);
      Ok((after, rids + [rid]))
  }

  /** One more allocation after an allocation. */
  lemma AllocateAgain(kv: Kv, id: PoolId, m: Pool)
    requires Valid(id) && IsI64(m.counter) && IsI64(m.counter + 1) && StateAt(kv, id).last <= m.mark
    ensures var q := AfterSingle(m);
            Allocate(Written(kv, id, m.counter, m.mark), id) ==
            Ok((Written(kv, id, q.counter, q.mark), AsU32(q.counter)))
  {
    hide Written, SingleMark, AsU32, PoolOf;
    WrittenReads(kv, id, m.counter, m.mark);
    var q := AfterSingle(m);
    WrittenTwice(kv, id, m.counter, m.mark, q.counter, q.mark);
  }

  lemma {:induction false} SinglesAre(kv: Kv, id: PoolId, n: nat)
    requires Valid(id) && n > 0 && IsI64(PoolOf(kv, id).counter + n) && IsI64(PoolOf(kv, id).counter)
    ensures var p := PoolOf(kv, id);
            var q := AfterSingles(p, n);
            && q.counter == p.counter + n && q.mark >= p.mark
            && Singles(kv, id, n) == Ok((Written(kv, id, q.counter, q.mark), Range(p.counter, n)))
    decreases n
  {
    hide Written, SingleMark, AsU32, PoolOf;
    var p := PoolOf(kv, id);
    if n == 1 {
      assert AfterSingles(p, 0) == p && Singles(kv, id, 0) == Ok((kv, []));
      assert Range(p.counter, 1) == [] + [AsU32(p.counter + 1)];
    } else {
      hide Allocate;
      SinglesAre(kv, id, n - 1);
      PoolMark(kv, id);
      AllocateAgain(kv, id, AfterSingles(p, n - 1));
    }
  }

  lemma PoolMark(kv: Kv, id: PoolId)
    requires Valid(id)
    ensures PoolOf(kv, id).mark == StateAt(kv, id).last
  {
  }

  /** Written stores tell marks apart. */
  lemma WrittenInjective(kv: Kv, id: PoolId, last: i64, mark: u32, mark': u32)
    requires Valid(id) && Written(kv, id, last, mark) == Written(kv, id, last, mark')
    ensures mark == mark'
  {
    hide Written;
    WrittenReads(kv, id, last, mark);
    WrittenReads(kv, id, last, mark');
  }

  /** `n` at once dispense the RIDs of `n` single allocations, in order, and leave the same store exactly
      when the single steps catch up with the batch. */
  lemma BatchRefinesSingles(kv: Kv, id: PoolId, n: u32)
    requires Valid(id) && n > 0 && IsI64(PoolOf(kv, id).counter + n)
    ensures Singles(kv, id, n).Ok? && AllocateBatch(kv, id, n).Ok?
    ensures AllocateBatch(kv, id, n).value.1 == Singles(kv, id, n).value.1
    ensures AllocateBatch(kv, id, n) == Singles(kv, id, n) <==> CatchesUp(PoolOf(kv, id), n)
  {
    hide Written, AfterSingles, PoolOf, Singles, BatchMark, CatchesUp;
    var p := PoolOf(kv, id);
    assert IsI64(p.counter) by {
      PoolCounter(kv, id);
    }
    SinglesAre(kv, id, n);
    BatchIsSingles(p, n);
    var a, b := AfterBatch(p, n), AfterSingles(p, n);
    if Written(kv, id, a.counter, a.mark) == Written(kv, id, b.counter, b.mark) {
      WrittenInjective(kv, id, a.counter, a.mark, b.mark);
    }
  }

  lemma PoolCounter(kv: Kv, id: PoolId)
    requires Valid(id)
    ensures IsI64(PoolOf(kv, id).counter)
  {
  }

  // ---- Reports ----

  /** The reported next RID is what the next allocation returns, exactly when the counter record, if
      there is one, is not negative, and the state record of a pool without counter says 1000. */
  lemma ReportForetells(kv: Kv, id: PoolId)
    requires Valid(id) && Allocate(kv, id).Ok?
    ensures Report(kv, id).value.next == Allocate(kv, id).value.1 <==>
            match CounterAt(kv, CounterKey(id))
            case Some(c) => c >= 0 || AsU32(c as int + 1) == INITIAL_RID
            case None => StateAt(kv, id).next == INITIAL_RID
  {
    hide Written, StateAt, CounterKey, CounterAt, AsU32, SingleMark;
    SeedCast();
  }

  lemma SeedCast()
    ensures AsU32(1000) == INITIAL_RID
  {
  }

  // ---- Reclaim ----

  predicate ScansWell(id: PoolId)
    requires Valid(id)
  {
    Prefix(id)[|Prefix(id)| - 1] < 0xFF
  }

  /** A reclaim whose prefix does not end in 0xFF removes the keys of that pool and no other key. One
      whose prefix does removes at most the key equal to the prefix. */
  lemma ReclaimRemoves(kv: Kv, id: PoolId, k: Key)
    requires Valid(id)
    ensures k in Reclaimed(kv, id) <==>
            k in kv && !(if ScansWell(id) then Prefix(id) <= k else k == Prefix(id))
    ensures k in Reclaimed(kv, id) ==> Reclaimed(kv, id)[k] == kv[k]
  {
    hide Prefix, ScanEnd, InRange;
    ScanReads(Prefix(id), k);
  }

  /** The pool after a reclaim: fresh when the prefix scans well; otherwise the counter stays, and only
      a domain's state record is reset. */
  lemma ReclaimLeaves(kv: Kv, id: PoolId)
    requires Valid(id)
    ensures PoolOf(Reclaimed(kv, id), id) ==
            if ScansWell(id) then FRESH
            else if id.Domain? then PoolOf(kv, id).(mark := 1499)
            else PoolOf(kv, id)
    ensures StateAt(Reclaimed(kv, id), id) == if ScansWell(id) || id.Domain? then INITIAL_STATE else StateAt(kv, id)
  {
    hide Prefix, Reclaimed, ScansWell, StateOf, I64Of;
    ReclaimRemoves(kv, id, StateKey(id));
    ReclaimRemoves(kv, id, CounterKey(id));
    KeysAgainstPrefix(id);
  }

  lemma KeysAgainstPrefix(id: PoolId)
    requires Valid(id)
    ensures Prefix(id) <= StateKey(id) && Prefix(id) <= CounterKey(id) && CounterKey(id) != Prefix(id)
    ensures StateKey(id) == Prefix(id) <==> id.Domain?
  {
  }

  /** A reclaimed pool starts again at 1000 exactly when its prefix scans well, or it had no counter, or
      its counter happened to stand just before 1000 modulo 2^32. */
  lemma ReclaimRestarts(kv: Kv, id: PoolId)
    requires Valid(id) && IsI64(PoolOf(kv, id).counter + 1)
    ensures var r := Allocate(Reclaimed(kv, id), id);
            r.Ok? && (r.value.1 == INITIAL_RID <==> ScansWell(id) || AsU32(PoolOf(kv, id).counter + 1) == INITIAL_RID)
  {
    hide Reclaimed, PoolOf, Written, ScansWell;
    ReclaimLeaves(kv, id);
  }

  /** A domain whose last sub-authority starts with the octet 0xFF, as MS-DTYP stores it last. */
  function HighDomain(): (id: PoolId)
    ensures Valid(id)
  {
    Domain(Sid([0, 0, 0, 0, 0, 5], [21, 0xFF00_0000]))
  }

  /** There are such prefixes: the one of this domain ends in 0xFF. */
  lemma HighDomainScansBadly()
    ensures !ScansWell(HighDomain())
  {
    var subs: seq<u32> := [21, 0xFF00_0000];
    assert subs[1..] == [0xFF00_0000] && subs[1..][1..] == [];
    assert Words(subs[1..]) == ToLittleEndian(0xFF00_0000, 4) + [];
    HighWord();
    var sid := HighDomain().sid;
    assert Words(subs)[7] == 0xFF;
    assert SidOctets(sid)[15] == Words(subs)[7];
  }

  lemma HighWord()
    ensures ToLittleEndian(0xFF00_0000, 4)[3] == 0xFF
  {
    assert ToLittleEndian(0xFF, 1) == [0xFF] + ToLittleEndian(0, 0);
    assert ToLittleEndian(0xFF00, 2) == [0x00] + ToLittleEndian(0xFF, 1);
    assert ToLittleEndian(0xFF_0000, 3) == [0x00] + ToLittleEndian(0xFF00, 2);
  }

  lemma FirstMark()
    ensures AfterBatch(FRESH, 1500) == Pool(2499, 2499)
  {
    assert Batches(1000) == 2;
  }

  lemma BatchMarkBehind()
    ensures AfterBatch(Pool(2499, 1499), 1) == Pool(2500, 2999)
  {
    assert Batches(1001) == 3;
  }

  lemma SingleMarkBehind()
    ensures AfterSingle(Pool(2499, 1499)) == Pool(2500, 1999) && AsU32(2500) == 2500
  {
  }

  lemma LeftBehindStore(id: PoolId)
    requires Valid(id) && id.Domain? && !ScansWell(id)
    ensures AllocateBatch(map[], id, 1500).Ok?
    ensures PoolOf(Reclaimed(AllocateBatch(map[], id, 1500).value.0, id), id) == Pool(2499, 1499)
  {
    hide Written, Reclaimed, PoolOf, AfterBatch, ScansWell;
    EmptyIsFresh(id);
    FirstMark();
    WrittenReads(map[], id, 2499, 2499);
    ReclaimLeaves(AllocateBatch(map[], id, 1500).value.0, id);
  }

  /** From the empty store: 1500 RIDs, a reclaim of such a domain, and the pool is left behind its counter.
      A batch of one then brings in three batches where one allocation brings in one, and the RID the
      allocation dispenses is past its mark, although nothing wraps around and no mark is at its limit. */
  lemma LeftBehindItsCounter()
    ensures var id := HighDomain();
            && AllocateBatch(map[], id, 1500).Ok?
            && var kv := Reclaimed(AllocateBatch(map[], id, 1500).value.0, id);
               && PoolOf(kv, id) == Pool(2499, 1499)
               && AllocateBatch(kv, id, 1).Ok? && PoolOf(AllocateBatch(kv, id, 1).value.0, id) == Pool(2500, 2999)
               && Allocate(kv, id).Ok? && PoolOf(Allocate(kv, id).value.0, id) == Pool(2500, 1999)
               && Allocate(kv, id).value.1 == 2500
  {
    hide Written, Reclaimed, HighDomain, PoolOf, AfterBatch, AfterSingle, ScansWell, Range;
    var id := HighDomain();
    HighDomainScansBadly();
    HighDomainIsDomain();
    LeftBehindStore(id);
    BatchMarkBehind();
    SingleMarkBehind();
    var kv := Reclaimed(AllocateBatch(map[], id, 1500).value.0, id);
    WrittenReads(kv, id, 2500, 2999);
    WrittenReads(kv, id, 2500, 1999);
  }

  lemma HighDomainIsDomain()
    ensures HighDomain().Domain?
  {
  }

  lemma EmptyIsFresh(id: PoolId)
    requires Valid(id)
    ensures PoolOf(map[], id) == FRESH && StateAt(map[], id) == INITIAL_STATE
  {
  }

  // ---- Pools do not touch each other ----

  /** The keys that decide about one pool. */
  lemma SameKeysSamePool(kv: Kv, kv': Kv, id: PoolId)
    requires Valid(id)
    requires forall k | Prefix(id) <= k :: (k in kv' <==> k in kv) && (k in kv ==> kv'[k] == kv[k])
    ensures StateAt(kv', id) == StateAt(kv, id) && CounterAt(kv', CounterKey(id)) == CounterAt(kv, CounterKey(id))
    ensures PoolOf(kv', id) == PoolOf(kv, id)
  {
    hide Prefix, StateOf, I64Of;
  }

  /** Whatever one pool does, allocations and reclaims included, every other pool keeps its records. */
  lemma OthersUntouched(kv: Kv, id: PoolId, other: PoolId, last: i64, mark: u32)
    requires Valid(id) && Valid(other) && id != other
    ensures PoolOf(Written(kv, id, last, mark), other) == PoolOf(kv, other)
    ensures StateAt(Written(kv, id, last, mark), other) == StateAt(kv, other)
    ensures PoolOf(Reclaimed(kv, id), other) == PoolOf(kv, other)
    ensures StateAt(Reclaimed(kv, id), other) == StateAt(kv, other)
  {
    hide Prefix, Written, Reclaimed, StateAt, PoolOf, CounterKey, CounterAt;
    forall k | Prefix(other) <= k
      ensures var kv' := Written(kv, id, last, mark); (k in kv' <==> k in kv) && (k in kv ==> kv'[k] == kv[k])
      ensures var kv' := Reclaimed(kv, id); (k in kv' <==> k in kv) && (k in kv ==> kv'[k] == kv[k])
    {
      assert !(Prefix(id) <= k) by {
        if Prefix(id) <= k {
          PoolsAreApart(id, other, k);
        }
      }
      WrittenElsewhere(kv, id, last, mark, k);
      ReclaimRemoves(kv, id, k);
    }
    SameKeysSamePool(kv, Written(kv, id, last, mark), other);
    SameKeysSamePool(kv, Reclaimed(kv, id), other);
  }
}
