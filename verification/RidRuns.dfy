/** Whole runs of the RID allocator over many pools at once, against a table that only counts. */
module RidRuns {
  import opened Bytes
  import opened OrderedKv
  import opened RidPool
  import opened RidStore

  datatype Op = One(id: PoolId) | Many(id: PoolId, n: u32) | Query(id: PoolId) | Release(id: PoolId)

  datatype Answer = Rids(rids: seq<u32>) | Status(state: RidState) | Done | Failed

  function Perform(kv: Kv, op: Op): (r: (Kv, Answer))
  {
    match op
    case One(id) => (match Allocate(kv, id) case Ok((kv', rid)) => (kv', Rids([rid])) case Err(_) => (kv, Failed))
    case Many(id, n) =>
      (match AllocateBatch(kv, id, n) case Ok((kv', rids)) => (kv', Rids(rids)) case Err(_) => (kv, Failed))
    case Query(id) => (match Report(kv, id) case Ok(s) => (kv, Status(s)) case Err(_) => (kv, Failed))
    case Release(id) => (match Reclaim(kv, id) case Ok(kv') => (kv', Done) case Err(_) => (kv, Failed))
  }

  function Run(kv: Kv, ops: seq<Op>): (r: (Kv, seq<Answer>))
    decreases |ops|
  {
    if ops == [] then (kv, [])
    else
      var (next, answer) := Perform(kv, ops[0]);
      var (final, answers) := Run(next, ops[1..]);
      (final, [answer] + answers)
  }

  // ---- The table ----

  /** The counter and the mark of each pool that was ever used. */
  type Table = map<PoolId, Pool>

  function PoolIn(t: Table, id: PoolId): (p: Pool)
  {
    if id in t then t[id] else FRESH
  }

  /** What a reclaim makes of a pool: fresh, unless its prefix ends in 0xFF. */
  function Released(id: PoolId, p: Pool): (q: Pool)
    requires Valid(id)
  {
    if ScansWell(id) then FRESH else if id.Domain? then p.(mark := FRESH.mark) else p
  }

  function Expected(t: Table, op: Op): (r: (Table, Answer))
  {
    var p := PoolIn(t, op.id);
    if op.Many? && op.n == 0 then (t, Rids([]))
    else if !Valid(op.id) then (t, Failed)
    else
      match op
      case One(id) =>
        if IsI64(p.counter + 1) then (t[id := AfterSingle(p)], Rids(Range(p.counter, 1))) else (t, Failed)
      case Many(id, n) =>
        if IsI64(p.counter + n) then (t[id := AfterBatch(p, n)], Rids(Range(p.counter, n))) else (t, Failed)
      case Query(_) => (t, Status(RidState(AsU32(p.counter + 1), p.mark, WARNING_THRESHOLD)))
      case Release(id) => (t[id := Released(id, p)], Done)
  }

  function ExpectedRun(t: Table, ops: seq<Op>): (r: (Table, seq<Answer>))
    decreases |ops|
  {
    if ops == [] then (t, [])
    else
      var (next, answer) := Expected(t, ops[0]);
      var (final, answers) := ExpectedRun(next, ops[1..]);
      (final, [answer] + answers)
  }

  // ---- The store refines the table ----

  predicate Holds(kv: Kv, id: PoolId, p: Pool)
    requires Valid(id)
  {
    PoolOf(kv, id) == p && p.counter >= 999 && StateAt(kv, id) == RidState(INITIAL_RID, p.mark, WARNING_THRESHOLD)
  }

  ghost predicate Represents(kv: Kv, t: Table) {
    forall id | Valid(id) :: Holds(kv, id, PoolIn(t, id))
  }

  lemma EmptyRepresents()
    ensures Represents(map[], map[])
  {
    forall id | Valid(id)
      ensures Holds(map[], id, FRESH)
    {
      EmptyIsFresh(id);
    }
  }

  lemma RepresentsAt(kv: Kv, t: Table, id: PoolId)
    requires Represents(kv, t) && Valid(id)
    ensures Holds(kv, id, PoolIn(t, id))
  {
  }

  lemma OthersHold(kv: Kv, t: Table, id: PoolId, last: i64, mark: u32)
    requires Represents(kv, t) && Valid(id)
    ensures forall other | Valid(other) && other != id ::
              && Holds(Written(kv, id, last, mark), other, PoolIn(t, other))
              && Holds(Reclaimed(kv, id), other, PoolIn(t, other))
  {
    hide Written, Reclaimed, PoolOf, StateAt;
    forall other | Valid(other) && other != id
      ensures Holds(Written(kv, id, last, mark), other, PoolIn(t, other))
      ensures Holds(Reclaimed(kv, id), other, PoolIn(t, other))
    {
      assert Holds(kv, other, PoolIn(t, other));
      OthersUntouched(kv, id, other, last, mark);
    }
  }

  /** An allocation that leaves the pool `q`. */
  lemma WrittenRepresents(kv: Kv, t: Table, id: PoolId, q: Pool)
    requires Represents(kv, t) && Valid(id) && IsI64(q.counter) && q.counter >= 999
    ensures Represents(Written(kv, id, q.counter, q.mark), t[id := q])
  {
    hide Written, PoolOf, StateAt;
    assert Holds(kv, id, PoolIn(t, id));
    WrittenReads(kv, id, q.counter, q.mark);
    OthersHold(kv, t, id, q.counter, q.mark);
    forall other | Valid(other)
      ensures Holds(Written(kv, id, q.counter, q.mark), other, PoolIn(t[id := q], other))
    {
      if other != id {
        assert PoolIn(t[id := q], other) == PoolIn(t, other);
      }
    }
  }

  lemma ReleaseStep(kv: Kv, t: Table, id: PoolId)
    requires Represents(kv, t) && Valid(id)
    ensures Represents(Reclaimed(kv, id), t[id := Released(id, PoolIn(t, id))])
  {
    hide Reclaimed, PoolOf, StateAt, ScansWell;
    assert Holds(kv, id, PoolIn(t, id));
    ReclaimLeaves(kv, id);
    OthersHold(kv, t, id, 0, 0);
    var q := Released(id, PoolIn(t, id));
    forall other | Valid(other)
      ensures Holds(Reclaimed(kv, id), other, PoolIn(t[id := q], other))
    {
      if other != id {
        assert PoolIn(t[id := q], other) == PoolIn(t, other);
      }
    }
  }

  lemma QueryStep(kv: Kv, id: PoolId, p: Pool)
    requires Valid(id) && Holds(kv, id, p)
    ensures Report(kv, id) == Ok(RidState(AsU32(p.counter + 1), p.mark, WARNING_THRESHOLD))
  {
    hide StateAt, I64Of;
  }

  lemma AllocateStep(kv: Kv, t: Table, op: Op)
    requires Represents(kv, t) && Valid(op.id) && (op.One? || (op.Many? && op.n > 0))
    ensures Perform(kv, op).1 == Expected(t, op).1 && Represents(Perform(kv, op).0, Expected(t, op).0)
  {
    hide Written, PoolOf, Represents, Range, SingleMark, BatchMark, AsU32;
    var id, p := op.id, PoolIn(t, op.id);
    RepresentsAt(kv, t, id);
    if op.One? {
      OneRange(p.counter);
      if IsI64(p.counter + 1) {
        WrittenRepresents(kv, t, id, AfterSingle(p));
      }
    } else if IsI64(p.counter + op.n) {
      WrittenRepresents(kv, t, id, AfterBatch(p, op.n));
    }
  }

  lemma OneRange(counter: int)
    ensures Range(counter, 1) == [AsU32(counter + 1)]
  {
    assert Range(counter, 0) == [];
  }

  lemma StepRefines(kv: Kv, t: Table, op: Op)
    requires Represents(kv, t)
    ensures Perform(kv, op).1 == Expected(t, op).1 && Represents(Perform(kv, op).0, Expected(t, op).0)
  {
    hide Represents, Reclaimed, Report, Released, Valid;
    if Valid(op.id) && (op.One? || (op.Many? && op.n > 0)) {
      AllocateStep(kv, t, op);
    } else if Valid(op.id) && op.Query? {
      RepresentsAt(kv, t, op.id);
      QueryStep(kv, op.id, PoolIn(t, op.id));
    } else if Valid(op.id) && op.Release? {
      ReleaseStep(kv, t, op.id);
    } else if op.Query? {
      Refused(kv, op.id);
    }
  }

  lemma Refused(kv: Kv, id: PoolId)
    requires !Valid(id)
    ensures Report(kv, id) == Err(BadSid)
  {
  }

  /** Every run over any number of pools, in any interleaving of allocations, batches, queries and
      reclaims, wrap-around and prefixes that end in 0xFF included, answers as the table does. */
  lemma {:induction false} RunRefines(kv: Kv, t: Table, ops: seq<Op>)
    requires Represents(kv, t)
    ensures Run(kv, ops).1 == ExpectedRun(t, ops).1 && Represents(Run(kv, ops).0, ExpectedRun(t, ops).0)
    decreases |ops|
  {
    hide Represents, Perform, Expected;
    if ops != [] {
      StepRefines(kv, t, ops[0]);
      RunRefines(Perform(kv, ops[0]).0, Expected(t, ops[0]).0, ops[1..]);
    }
  }

  // ---- The RIDs of one pool ----

  /** The RIDs an answer gives from one pool. */
  function Share(op: Op, answer: Answer, id: PoolId): (rids: seq<u32>)
  {
    if op.id == id && answer.Rids? then answer.rids else []
  }

  /** All RIDs a run dispenses from one pool, in order. */
  function Dispensed(ops: seq<Op>, answers: seq<Answer>, id: PoolId): (rids: seq<u32>)
    requires |ops| == |answers|
  {
    if ops == [] then []
    else
      Share(ops[0], answers[0], id) + Dispensed(ops[1..], answers[1..], id)
  }

  lemma {:induction false} RangesJoin(counter: int, m: nat, n: nat)
    ensures Range(counter, m) + Range(counter + m, n) == Range(counter, m + n)
  {
    if n == 0 {
      assert Range(counter, m) + [] == Range(counter, m);
    } else {
      RangesJoin(counter, m, n - 1);
      var a, b, rid := Range(counter, m), Range(counter + m, n - 1), AsU32(counter + m + n);
      assert a + (b + [rid]) == (a + b) + [rid];
    }
  }

  lemma {:induction false} RunLength(kv: Kv, ops: seq<Op>)
    ensures |Run(kv, ops).1| == |ops|
    decreases |ops|
  {
    hide Perform;
    if ops != [] {
      RunLength(Perform(kv, ops[0]).0, ops[1..]);
    }
  }

  /** An allocation on the pool itself, from counter `c` on, of `n` RIDs. */
  lemma WrittenDispenses(kv: Kv, id: PoolId, q: Pool, n: nat, other: PoolId)
    requires Valid(id) && Valid(other) && IsI64(q.counter) && q.counter == PoolOf(kv, id).counter + n
    ensures PoolOf(Written(kv, id, q.counter, q.mark), other).counter ==
            PoolOf(kv, other).counter + if other == id then n else 0
  {
    hide Written, PoolOf;
    WrittenReads(kv, id, q.counter, q.mark);
    if other != id {
      OthersUntouched(kv, id, other, q.counter, q.mark);
    }
  }

  lemma OneDispenses(kv: Kv, op: Op, id: PoolId)
    requires Valid(id) && op.One?
    ensures var (kv', answer) := Perform(kv, op);
            var rids := Share(op, answer, id);
            && rids == Range(PoolOf(kv, id).counter, |rids|)
            && PoolOf(kv', id).counter == PoolOf(kv, id).counter + |rids|
  {
    hide Written, PoolOf, SingleMark, AsU32, Range;
    NoRange(PoolOf(kv, id).counter);
    OneRange(PoolOf(kv, id).counter);
    if Valid(op.id) && IsI64(PoolOf(kv, op.id).counter + 1) {
      WrittenDispenses(kv, op.id, AfterSingle(PoolOf(kv, op.id)), 1, id);
    }
  }

  lemma ManyDispenses(kv: Kv, op: Op, id: PoolId)
    requires Valid(id) && op.Many?
    ensures var (kv', answer) := Perform(kv, op);
            var rids := Share(op, answer, id);
            && rids == Range(PoolOf(kv, id).counter, |rids|)
            && PoolOf(kv', id).counter == PoolOf(kv, id).counter + |rids|
  {
    hide Written, PoolOf, BatchMark, AsU32, Range;
    NoRange(PoolOf(kv, id).counter);
    if op.n > 0 && Valid(op.id) && IsI64(PoolOf(kv, op.id).counter + op.n) {
      WrittenDispenses(kv, op.id, AfterBatch(PoolOf(kv, op.id), op.n), op.n, id);
    }
  }

  /** Whatever the store holds, a call dispenses from a pool the RIDs right after its counter, and moves the
      counter past them. */
  lemma StepDispenses(kv: Kv, op: Op, id: PoolId)
    requires Valid(id) && op != Release(id)
    ensures var (kv', answer) := Perform(kv, op);
            var rids := Share(op, answer, id);
            && rids == Range(PoolOf(kv, id).counter, |rids|)
            && PoolOf(kv', id).counter == PoolOf(kv, id).counter + |rids|
  {
    hide PoolOf, Range, Report, Reclaimed, Allocate, AllocateBatch;
    NoRange(PoolOf(kv, id).counter);
    match op
    case One(_) => OneDispenses(kv, op, id);
    case Many(_, _) => ManyDispenses(kv, op, id);
    case Query(_) =>
    case Release(other) =>
      if Valid(other) {
        OthersUntouched(kv, other, id, 0, 0);
      }
  }

  /** Over every run, whatever the store held and whatever else happens, a pool that is not reclaimed
      dispenses the consecutive RIDs after its counter, modulo 2^32. */
  lemma {:induction false} RunDispenses(kv: Kv, ops: seq<Op>, id: PoolId)
    requires Valid(id) && Release(id) !in ops
    ensures |Run(kv, ops).1| == |ops|
    ensures var rids := Dispensed(ops, Run(kv, ops).1, id);
            && rids == Range(PoolOf(kv, id).counter, |rids|)
            && PoolOf(Run(kv, ops).0, id).counter == PoolOf(kv, id).counter + |rids|
    decreases |ops|
  {
    hide Range, Perform, Share, PoolOf;
    RunLength(kv, ops);
    if ops == [] {
      NoRange(PoolOf(kv, id).counter);
    } else {
      var (next, answer) := Perform(kv, ops[0]);
      RunLength(next, ops[1..]);
      var answers := Run(next, ops[1..]).1;
      assert Run(kv, ops).1[1..] == answers;
      RunDispenses(next, ops[1..], id);
      StepDispenses(kv, ops[0], id);
      RangesJoin(PoolOf(kv, id).counter, |Share(ops[0], answer, id)|, |Dispensed(ops[1..], answers, id)|);
    }
  }

  lemma NoRange(counter: int)
    ensures Range(counter, 0) == []
  {
  }

  predicate NoRepeat(rids: seq<u32>) {
    forall i, j | 0 <= i < j < |rids| :: rids[i] != rids[j]
  }

  predicate NoneReserved(rids: seq<u32>) {
    forall i | 0 <= i < |rids| :: rids[i] >= INITIAL_RID
  }

  lemma CastIs(n: nat)
    ensures n < 0x1_0000_0000 ==> AsU32(n) == n
    ensures 0x1_0000_0000 <= n < 0x2_0000_0000 ==> AsU32(n) == n - 0x1_0000_0000
  {
  }

  lemma RangeAt(k: nat, i: nat)
    requires i < k
    ensures i < 0x1_0000_0000 - 1000 ==> Range(999, k)[i] == 1000 + i
    ensures 0x1_0000_0000 - 1000 <= i <= 0x1_0000_0000 ==> Range(999, k)[i] == i + 1000 - 0x1_0000_0000
  {
    hide Range, AsU32;
    CastIs(1000 + i);
    assert Range(999, k)[i] == AsU32(999 + 1 + i);
  }

  /** Consecutive RIDs modulo 2^32 repeat from the 2^32nd on, and reach the reserved ones below 1000 as
      soon as they have wrapped around. */
  lemma RangeRepeats(k: nat)
    ensures NoRepeat(Range(999, k)) <==> k <= 0x1_0000_0000
    ensures NoneReserved(Range(999, k)) <==> k <= 0x1_0000_0000 - 1000
  {
    hide Range;
    var rids := Range(999, k);
    if k <= 0x1_0000_0000 {
      forall i, j | 0 <= i < j < |rids|
        ensures rids[i] != rids[j]
      {
        RangeAt(k, i);
        RangeAt(k, j);
      }
    } else {
      RangeAt(k, 0);
      RangeAt(k, 0x1_0000_0000);
      assert rids[0] == rids[0x1_0000_0000];
    }
    if k <= 0x1_0000_0000 - 1000 {
      forall i | 0 <= i < |rids|
        ensures rids[i] >= INITIAL_RID
      {
        RangeAt(k, i);
      }
    } else {
      RangeAt(k, 0x1_0000_0000 - 1000);
      assert rids[0x1_0000_0000 - 1000] == 0;
    }
  }

  // ---- The mark of one pool ----

  /** From the closed form, an allocation within 32 bits goes to the closed form. */
  lemma ClosedStep(c: int, n: u32)
    requires 999 <= c && c + n <= U32_MAX
    ensures AfterBatch(Pool(c, MarkOf(c)), n) == Pool(c + n, MarkOf(c + n))
    ensures n == 1 ==> AfterSingle(Pool(c, MarkOf(c))) == Pool(c + 1, MarkOf(c + 1))
  {
    hide MarkOf, BatchMark, SingleMark, CatchesUp;
    var p := Pool(c, MarkOf(c));
    SinglesClosedForm(c, n);
    MarkOfCovers(c);
    SoundBatchIsSingles(p, n);
    BatchIsSingles(p, n);
    assert AfterSingles(p, 1) == AfterSingle(AfterSingles(p, 0));
  }

  lemma {:induction false} CounterGrows(t: Table, ops: seq<Op>, id: PoolId)
    requires Release(id) !in ops
    ensures PoolIn(ExpectedRun(t, ops).0, id).counter >= PoolIn(t, id).counter
    decreases |ops|
  {
    hide Released, Range, SingleMark, BatchMark;
    if ops != [] {
      CounterGrows(Expected(t, ops[0]).0, ops[1..], id);
    }
  }

  /** While the counter stays within 32 bits, the mark of a pool that started fresh has the closed form. */
  lemma {:induction false} MarkStaysClosed(t: Table, ops: seq<Op>, id: PoolId)
    requires Release(id) !in ops && PoolIn(t, id).counter >= 999
    requires PoolIn(t, id).mark == MarkOf(PoolIn(t, id).counter)
    requires PoolIn(ExpectedRun(t, ops).0, id).counter <= U32_MAX
    ensures var q := PoolIn(ExpectedRun(t, ops).0, id); q.counter >= 999 && q.mark == MarkOf(q.counter)
    decreases |ops|
  {
    hide Released, Range, SingleMark, BatchMark, MarkOf;
    if ops != [] {
      var next, op := Expected(t, ops[0]).0, ops[0];
      CounterGrows(next, ops[1..], id);
      if PoolIn(next, id) != PoolIn(t, id) {
        ClosedStep(PoolIn(t, id).counter, if op.One? then 1 else op.n);
      }
      MarkStaysClosed(next, ops[1..], id);
    }
  }

  /** From a fresh pool, and until its next reclaim, whatever else happens to other pools: the RIDs are
      1000, 1001, ... modulo 2^32, without repetition exactly up to 2^32 of them and without a reserved one
      exactly up to 2^32 - 1000. That far, each is at most the mark. The reported next RID is always the one
      the next allocation returns. */
  lemma PoolRun(kv: Kv, t: Table, ops: seq<Op>, id: PoolId)
    requires Represents(kv, t) && Valid(id) && PoolIn(t, id) == FRESH && Release(id) !in ops
    ensures |Run(kv, ops).1| == |ops|
    ensures var rids, kv' := Dispensed(ops, Run(kv, ops).1, id), Run(kv, ops).0;
            var k := |rids|;
            && rids == Range(999, k)
            && (NoRepeat(rids) <==> k <= 0x1_0000_0000)
            && (NoneReserved(rids) <==> k <= 0x1_0000_0000 - 1000)
            && (k <= 0x1_0000_0000 - 1000 ==>
                PoolOf(kv', id).mark == MarkOf(999 + k) &&
                forall i | 0 <= i < k :: rids[i] == 1000 + i && rids[i] <= PoolOf(kv', id).mark)
            && (IsI64(1000 + k) ==>
                Allocate(kv', id).Ok? && Report(kv', id).Ok? &&
                Report(kv', id).value.next == Allocate(kv', id).value.1 == AsU32(1000 + k))
  {
    hide Represents, Run, ExpectedRun, Dispensed, PoolOf, Report, Range, MarkOf, Written, PoolIn, AsU32;
    hide NoRepeat, NoneReserved, SingleMark;
    RunDispenses(kv, ops, id);
    RunRefines(kv, t, ops);
    var rids, kv', t' := Dispensed(ops, Run(kv, ops).1, id), Run(kv, ops).0, ExpectedRun(t, ops).0;
    RepresentsAt(kv, t, id);
    RepresentsAt(kv', t', id);
    RangeRepeats(|rids|);
    var c := 999 + |rids|;
    QueryStep(kv', id, PoolIn(t', id));
    if c <= U32_MAX {
      FreshIsClosed();
      MarkStaysClosed(t, ops, id);
      MarkOfCovers(c);
      forall i | 0 <= i < |rids|
        ensures rids[i] == 1000 + i
      {
        RangeAt(|rids|, i);
      }
    }
  }

  lemma FreshIsClosed()
    ensures FRESH.mark == MarkOf(FRESH.counter)
  {
  }
}
