/** The RID pool: per-pool counters and high-water marks in an ordered key/value store. */
module RidPool {
  import opened Bytes
  import opened Sids
  import opened OrderedKv

  const INITIAL_RID: u32 := 1000
  const RID_BATCH_SIZE: nat := 500
  const WARNING_THRESHOLD: u32 := 250

  // ---- Batch arithmetic ----

  /** What the store says of one pool: the last RID dispensed, as a 64-bit count, and the high-water mark. */
  datatype Pool = Pool(counter: int, mark: u32)

  const FRESH: Pool := Pool(999, 1499)

  function Saturating(n: nat): (r: u32)
  {
    if n > U32_MAX then U32_MAX else n
  }

  /** The mark after dispensing one RID: a RID past the mark brings in one more batch. */
  function SingleMark(mark: u32, rid: u32): (r: u32)
    ensures r >= mark
  {
    if rid > mark then Saturating(mark as int + RID_BATCH_SIZE) else mark
  }

  /** The mark after dispensing up to `last`: as many whole batches as are needed. */
  function BatchMark(mark: u32, last: u32): (r: u32)
    ensures r >= mark
  {
    if last > mark then
      Saturating(mark as int + Saturating(Batches(last - mark) * RID_BATCH_SIZE))
    else mark
  }

  function AfterSingle(p: Pool): (r: Pool)
  {
    Pool(p.counter + 1, SingleMark(p.mark, AsU32(p.counter + 1)))
  }

  function AfterSingles(p: Pool, n: nat): (r: Pool)
  {
    if n == 0 then p else AfterSingle(AfterSingles(p, n - 1))
  }

  function AfterBatch(p: Pool, n: u32): (r: Pool)
  {
    Pool(p.counter + n, BatchMark(p.mark, AsU32(p.counter + n)))
  }

  /** The last RID dispensed is not past the mark. */
  predicate Sound(p: Pool) {
    AsU32(p.counter) <= p.mark
  }

  function Batches(needed: nat): (n: nat)
    ensures RID_BATCH_SIZE * (n - 1) < needed <= RID_BATCH_SIZE * n
  {
    (needed + RID_BATCH_SIZE - 1) / RID_BATCH_SIZE
  }

  /** How many batches bring a mark up to `last`. */
  function Needed(mark: u32, last: int): (n: nat)
  {
    if last > mark then Batches(last - mark) else 0
  }

  lemma NeededAtMost(mark: u32, last: int, k: nat)
    ensures Needed(mark, last) <= k <==> last <= mark + RID_BATCH_SIZE * k
  {
  }

  /** A mark raised by whole batches, as far as 32 bits go. */
  function Raised(mark: u32, batches: nat): (r: u32)
    ensures r >= mark
  {
    Saturating(mark as int + RID_BATCH_SIZE * batches)
  }

  lemma BatchMarkIs(mark: u32, last: u32)
    ensures BatchMark(mark, last) == Raised(mark, Needed(mark, last)) && BatchMark(mark, last) >= last
  {
  }

  lemma SingleRaises(mark: u32, rid: nat, before: nat, k: nat)
    requires 0 < rid <= U32_MAX && before == Min(k, Needed(mark, rid - 1))
    ensures SingleMark(Raised(mark, before), rid) == Raised(mark, Min(k + 1, Needed(mark, rid)))
  {
    NeededAtMost(mark, rid, before);
    NeededAtMost(mark, rid - 1, Needed(mark, rid - 1));
    NeededAtMost(mark, rid, Needed(mark, rid - 1) + 1);
    NeededAtMost(mark, rid - 1, Needed(mark, rid));
  }

  /** Single steps raise the mark by one batch at most at each step, and by no more batches than the last
      RID needs. */
  lemma {:induction false} SinglesUnwrapped(p: Pool, n: nat)
    requires AsU32(p.counter) + n <= U32_MAX
    ensures AfterSingles(p, n) == Pool(p.counter + n, Raised(p.mark, Min(n, Needed(p.mark, AsU32(p.counter) + n))))
    ensures AsU32(p.counter + n) == AsU32(p.counter) + n
  {
    hide SingleMark, AsU32, Needed, Raised;
    Shifted(p.counter, n);
    if n == 0 {
      RaisedByNone(p.mark);
    } else {
      SinglesUnwrapped(p, n - 1);
      var rid := AsU32(p.counter) + n;
      SingleRaises(p.mark, rid, Min(n - 1, Needed(p.mark, rid - 1)), n - 1);
    }
  }

  lemma RaisedByNone(mark: u32)
    ensures Raised(mark, 0) == mark
  {
  }

  lemma Shifted(counter: int, n: nat)
    ensures AsU32(counter) + n <= U32_MAX ==> AsU32(counter + n) == AsU32(counter) + n
    ensures U32_MAX < AsU32(counter) + n < 0x2_0000_0000 ==>
              AsU32(counter + n) == AsU32(counter) + n - 0x1_0000_0000
  {
  }

  lemma {:induction false} SinglesSplit(p: Pool, m: nat, n: nat)
    ensures AfterSingles(p, m + n) == AfterSingles(AfterSingles(p, m), n)
  {
    hide AfterSingle;
    if n > 0 {
      SinglesSplit(p, m, n - 1);
    }
  }

  /** Raising a mark and then raising the result as far as `last` needs. */
  lemma RaisedTwice(mark: u32, batches: nat, last: u32)
    ensures BatchMark(Raised(mark, batches), last) ==
            Raised(mark, if batches < Needed(mark, last) then Needed(mark, last) else batches)
  {
    var h := Raised(mark, batches);
    BatchMarkIs(h, last);
    NeededAtMost(mark, last, batches);
    if h < U32_MAX {
      assert h == mark + RID_BATCH_SIZE * batches;
      if last > h {
        NeededShifted(mark, batches, last);
      }
    }
  }

  lemma NeededShifted(mark: u32, batches: nat, last: u32)
    requires mark + RID_BATCH_SIZE * batches < last
    ensures Needed(mark, last) == batches + Needed(mark + RID_BATCH_SIZE * batches, last)
  {
  }

  /** The step that wraps around dispenses RID 0 and leaves the mark. */
  lemma WrapStep(p: Pool)
    requires AsU32(p.counter) == U32_MAX
    ensures AfterSingle(p) == Pool(p.counter + 1, p.mark) && AsU32(p.counter + 1) == 0
  {
  }

  /** Past the last 32-bit RID: what the steps up to it brought in, and what the RIDs after it need. */
  lemma SinglesWrapped(p: Pool, n: u32)
    requires AsU32(p.counter) + n > U32_MAX
    ensures var r := AsU32(p.counter);
            var j := Min(U32_MAX - r, Needed(p.mark, U32_MAX));
            var k := Needed(p.mark, r + n - 0x1_0000_0000);
            AfterSingles(p, n) == Pool(p.counter + n, Raised(p.mark, if j < k then k else j))
  {
    hide AfterSingle, AfterSingles, BatchMark, Raised, Needed, AsU32;
    var r := AsU32(p.counter);
    var steps, last := U32_MAX - r, r + n - 0x1_0000_0000;
    SinglesUnwrapped(p, steps);
    var q := AfterSingles(p, steps);
    WrapStep(q);
    var z := AfterSingle(q);
    OneStep(p, steps);
    SinglesSplit(p, steps + 1, last);
    SinglesUnwrapped(z, last);
    NeededAtMost(z.mark, last, last);
    BatchMarkIs(z.mark, last);
    RaisedTwice(p.mark, Min(steps, Needed(p.mark, U32_MAX)), last);
  }

  lemma OneStep(p: Pool, n: nat)
    ensures AfterSingles(p, n + 1) == AfterSingle(AfterSingles(p, n))
  {
  }

  /** Single steps catch up with a batch: without wrap-around, when one batch a step is enough; around it,
      when the RIDs before the wrap brought in no more than the RIDs after it need. */
  predicate CatchesUp(p: Pool, n: u32) {
    var r := AsU32(p.counter);
    if r + n <= U32_MAX then r + n <= p.mark + RID_BATCH_SIZE * n
    else Needed(p.mark, r + n - 0x1_0000_0000) >= Min(U32_MAX - r, Needed(p.mark, U32_MAX))
  }

  lemma RaisedDiffers(mark: u32, last: u32, j: nat)
    requires j < Needed(mark, last)
    ensures Raised(mark, j) < Raised(mark, Needed(mark, last))
  {
    NeededAtMost(mark, last, j);
  }

  /** A batch of `n` leaves the pool as `n` single allocations do exactly when the single steps catch up. */
  lemma BatchIsSingles(p: Pool, n: u32)
    ensures AfterBatch(p, n) == AfterSingles(p, n) <==> CatchesUp(p, n)
    ensures AfterSingles(p, n).counter == AfterBatch(p, n).counter && AfterSingles(p, n).mark >= p.mark
  {
    hide AfterSingles, BatchMark, Raised, Needed, AsU32;
    var r := AsU32(p.counter);
    Shifted(p.counter, n);
    BatchMarkIs(p.mark, AsU32(p.counter + n));
    if r + n <= U32_MAX {
      SinglesUnwrapped(p, n);
      NeededAtMost(p.mark, r + n, n);
      if Needed(p.mark, r + n) > n {
        RaisedDiffers(p.mark, r + n, n);
      }
    } else {
      SinglesWrapped(p, n);
      var last, j := r + n - 0x1_0000_0000, Min(U32_MAX - r, Needed(p.mark, U32_MAX));
      if Needed(p.mark, last) < j {
        RaisedApart(p.mark, Needed(p.mark, last), j);
      }
    }
  }

  lemma RaisedApart(mark: u32, k: nat, j: nat)
    requires k < j <= Needed(mark, U32_MAX)
    ensures Raised(mark, k) < Raised(mark, j)
  {
    NeededAtMost(mark, U32_MAX, k);
  }

  /** A batch never dispenses past its mark. A single allocation does exactly when its RID is more than
      one batch past the mark it found. */
  lemma DispensedWithinMark(p: Pool, n: u32)
    ensures Sound(AfterBatch(p, n))
    ensures Sound(AfterSingle(p)) <==> AsU32(p.counter + 1) <= p.mark + RID_BATCH_SIZE
  {
    hide BatchMark;
    BatchMarkIs(p.mark, AsU32(p.counter + n));
  }

  /** From a pool whose last RID is within its mark, that leaves wrap-around below the limit as the only way
      to differ; and all allocations keep the RIDs within the mark. */
  lemma SoundBatchIsSingles(p: Pool, n: u32)
    requires Sound(p)
    ensures CatchesUp(p, n) <==> AsU32(p.counter) + n <= U32_MAX || p.mark == U32_MAX
    ensures Sound(AfterSingle(p)) && Sound(AfterBatch(p, n))
  {
    hide BatchMark;
    DispensedWithinMark(p, n);
    Shifted(p.counter, 1);
    var r := AsU32(p.counter);
    if r + n > U32_MAX {
      NeededAtMost(p.mark, r + n - 0x1_0000_0000, 0);
      NeededAtMost(p.mark, U32_MAX, 0);
    }
  }

  /** The high-water mark in closed form. */
  function MarkOf(counter: int): (mark: u32)
    requires counter >= 999
  {
    var batches := Batches(counter - 999);
    Saturating(999 + RID_BATCH_SIZE * if batches < 1 then 1 else batches)
  }

  lemma BatchesStep(needed: nat)
    ensures Batches(needed + 1) ==
            if needed == RID_BATCH_SIZE * Batches(needed) then Batches(needed) + 1 else Batches(needed)
  {
  }

  lemma MarkOfStep(counter: int)
    requires 999 <= counter < U32_MAX
    ensures MarkOf(counter + 1) == SingleMark(MarkOf(counter), counter + 1)
  {
    BatchesStep(counter - 999);
  }

  /** From a fresh pool the mark is 999 + 500 max(1, ceil((counter - 999) / 500)), up to saturation, for
      as long as the counter stays within 32 bits. */
  lemma {:induction false} SinglesClosedForm(counter: int, n: nat)
    requires 999 <= counter && counter + n <= U32_MAX
    ensures AfterSingles(Pool(counter, MarkOf(counter)), n) == Pool(counter + n, MarkOf(counter + n))
    ensures Sound(Pool(counter + n, MarkOf(counter + n)))
  {
    hide MarkOf, SingleMark;
    if n > 0 {
      SinglesClosedForm(counter, n - 1);
      MarkOfStep(counter + n - 1);
    }
    MarkOfCovers(counter + n);
  }

  lemma MarkOfCovers(counter: int)
    requires 999 <= counter <= U32_MAX
    ensures MarkOf(counter) >= counter
  {
  }

  // ---- Records and keys ----

  datatype RidState = RidState(next: u32, last: u32, threshold: u32)

  const INITIAL_STATE: RidState := RidState(1000, 1499, 250)

  function StateOctets(s: RidState): (bs: Value)
    ensures |bs| == 12
  {
    ToBigEndian(s.next, 4) + ToBigEndian(s.last, 4) + ToBigEndian(s.threshold, 4)
  }

  function StateOf(bs: Value): (r: Option<RidState>)
  {
    if |bs| != 12 then None
    else
      Pow256Values();
      BigEndianBound(bs[..4]);
      BigEndianBound(bs[4..8]);
      BigEndianBound(bs[8..]);
      Some(RidState(BigEndian(bs[..4]), BigEndian(bs[4..8]), BigEndian(bs[8..])))
  }

  /** The record of a new pool: RIDs from 1000 on, up to 1499, and a warning at 250 left. */
  lemma NewStateOctets()
    ensures StateOctets(INITIAL_STATE) == [0, 0, 0x03, 0xE8] + [0, 0, 0x05, 0xDB] + [0, 0, 0, 0xFA]
  {
    hide ToBigEndian;
    WordOctets(1000);
    WordOctets(1499);
    WordOctets(250);
  }

  lemma StateRoundTrip(s: RidState)
    ensures StateOf(StateOctets(s)) == Some(s)
  {
    hide BigEndian, ToBigEndian, Pow256;
    Pow256Values();
    BigEndianRoundTrip(s.next, 4);
    BigEndianRoundTrip(s.last, 4);
    BigEndianRoundTrip(s.threshold, 4);
    var bs := StateOctets(s);
    assert bs[..4] == ToBigEndian(s.next, 4) && bs[4..8] == ToBigEndian(s.last, 4);
    assert bs[8..] == ToBigEndian(s.threshold, 4);
  }

  /** The pool of a domain on the RID master, or of one DC's local allocator. */
  datatype PoolId = Domain(sid: Sid) | Local(dc: Uuid, sid: Sid)

  predicate Valid(id: PoolId) {
    Encodable(id.sid)
  }

  function Prefix(id: PoolId): (k: Key)
    requires Valid(id)
    ensures |k| >= 9
  {
    match id
    case Domain(sid) => [0x06] + SidOctets(sid)
    case Local(dc, sid) => [0x06, 0x10] + dc + SidOctets(sid)
  }

  /** "next_rid" and "state" in ASCII. */
  const NEXT_RID: Key := [0x6E, 0x65, 0x78, 0x74, 0x5F, 0x72, 0x69, 0x64]
  const STATE: Key := [0x73, 0x74, 0x61, 0x74, 0x65]

  function StateKey(id: PoolId): (k: Key)
    requires Valid(id)
    ensures Prefix(id) <= k
  {
    if id.Domain? then Prefix(id) else Prefix(id) + ([0x01] + STATE)
  }

  function CounterKey(id: PoolId): (k: Key)
    requires Valid(id)
    ensures Prefix(id) <= k && k != StateKey(id)
  {
    var p := Prefix(id);
    assert (p + ([0x00] + NEXT_RID))[|p|] == 0x00;
    assert id.Local? ==> StateKey(id)[|p|] == 0x01;
    p + ([0x00] + NEXT_RID)
  }

  /** Different pools share no key: a key that extends the prefixes of two pools shows them equal. */
  lemma PoolsAreApart(a: PoolId, b: PoolId, k: Key)
    requires Valid(a) && Valid(b) && Prefix(a) <= k && Prefix(b) <= k
    ensures a == b
  {
    hide SidOctets;
    var p, q := Prefix(a), Prefix(b);
    assert p[1] == k[1] == q[1];
    assert a.Domain? <==> b.Domain?;
    var at := if a.Domain? then 1 else 18;
    assert p[at..] == SidOctets(a.sid) && q[at..] == SidOctets(b.sid);
    assert k[at..] == p[at..] + k[|p|..] && k[at..] == q[at..] + k[|q|..];
    SidsArePrefixFree(a.sid, b.sid, k[|p|..], k[|q|..]);
    if a.Local? {
      assert p[2..18] == a.dc && q[2..18] == b.dc && p[2..18] == k[2..18] && q[2..18] == k[2..18];
    }
  }
}
