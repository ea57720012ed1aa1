/** Replication bookkeeping: up-to-dateness vectors and last-writer-wins conflict resolution. */
module Replication {
  import opened Bytes

  // ---- Up-to-dateness vectors ----

  datatype UtdEntry = UtdEntry(usnHigh: u64, usnLow: u64, dsa: Uuid)

  /** One entry merged in: the first entry of the same DSA absorbs it, otherwise it is appended. */
  function Merged(entries: seq<UtdEntry>, e: UtdEntry): (r: seq<UtdEntry>)
  {
    if entries == [] then [e]
    else if entries[0].dsa == e.dsa then [Absorbed(entries[0], e)] + entries[1..]
    else [entries[0]] + Merged(entries[1..], e)
  }

  function MergedAll(entries: seq<UtdEntry>, es: seq<UtdEntry>): (r: seq<UtdEntry>)
    decreases |es|
  {
    if es == [] then entries else MergedAll(Merged(entries, es[0]), es[1..])
  }

  predicate Distinct(entries: seq<UtdEntry>) {
    forall i, j | 0 <= i < j < |entries| :: entries[i].dsa != entries[j].dsa
  }

  predicate Knows(entries: seq<UtdEntry>, dsa: Uuid) {
    exists e | e in entries :: e.dsa == dsa
  }

  /** The vector has already absorbed every update of `dsa` up to `usn`. */
  predicate IsUpToDate(entries: seq<UtdEntry>, dsa: Uuid, usn: int) {
    exists e | e in entries :: e.dsa == dsa && e.usnHigh >= usn
  }

  predicate LowAtMost(entries: seq<UtdEntry>, dsa: Uuid, usn: int) {
    exists e | e in entries :: e.dsa == dsa && e.usnLow <= usn
  }

  lemma {:induction false} MergedFacts(entries: seq<UtdEntry>, e: UtdEntry, g: Uuid, u: int)
    ensures Knows(Merged(entries, e), g) <==> Knows(entries, g) || e.dsa == g
    ensures IsUpToDate(Merged(entries, e), g, u) <==> IsUpToDate(entries, g, u) || (e.dsa == g && e.usnHigh >= u)
    ensures LowAtMost(Merged(entries, e), g, u) <==> LowAtMost(entries, g, u) || (e.dsa == g && e.usnLow <= u)
  {
    if entries == [] {
      assert e in [e];
    } else {
      var head, rest := entries[0], entries[1..];
      assert forall x :: x in entries <==> x == head || x in rest;
      var merged := Merged(entries, e);
      if head.dsa == e.dsa {
        assert forall x :: x in merged <==> x == merged[0] || x in rest;
        assert merged[0] in merged;
      } else {
        MergedFacts(rest, e, g, u);
        assert forall x :: x in merged <==> x == head || x in Merged(rest, e);
      }
    }
  }

  lemma DistinctParts(entries: seq<UtdEntry>)
    requires entries != []
    ensures Distinct(entries) <==> Distinct(entries[1..]) && !Knows(entries[1..], entries[0].dsa)
  {
    var rest := entries[1..];
    if Distinct(rest) && !Knows(rest, entries[0].dsa) {
      forall i, j | 0 <= i < j < |entries|
        ensures entries[i].dsa != entries[j].dsa
      {
        assert entries[j] == rest[j - 1] && rest[j - 1] in rest;
      }
    }
  }

  lemma {:induction false} MergedDistinct(entries: seq<UtdEntry>, e: UtdEntry)
    requires Distinct(entries)
    ensures Distinct(Merged(entries, e))
  {
    if entries != [] {
      hide Distinct, Knows;
      var rest, r := entries[1..], Merged(entries, e);
      DistinctParts(entries);
      DistinctParts(r);
      if entries[0].dsa == e.dsa {
        assert r[1..] == rest;
      } else {
        MergedDistinct(rest, e);
        MergedFacts(rest, e, entries[0].dsa, 0);
        assert r[1..] == Merged(rest, e);
      }
    }
  }

  /** Merging any list of entries keeps one entry per DSA. A DSA is up to date with a USN afterwards
      exactly when the start vector or one of the merged entries reached it, so merging never turns the
      answer from yes to no; the low USN is the least one seen. */
  lemma {:induction false} MergedAllFacts(entries: seq<UtdEntry>, es: seq<UtdEntry>, g: Uuid, u: int)
    ensures Distinct(entries) ==> Distinct(MergedAll(entries, es))
    ensures Knows(MergedAll(entries, es), g) <==> Knows(entries, g) || Knows(es, g)
    ensures IsUpToDate(MergedAll(entries, es), g, u) <==> IsUpToDate(entries, g, u) || IsUpToDate(es, g, u)
    ensures LowAtMost(MergedAll(entries, es), g, u) <==> LowAtMost(entries, g, u) || LowAtMost(es, g, u)
    decreases |es|
  {
    if es != [] {
      MergedFacts(entries, es[0], g, u);
      if Distinct(entries) {
        MergedDistinct(entries, es[0]);
      }
      MergedAllFacts(Merged(entries, es[0]), es[1..], g, u);
      assert forall x :: x in es <==> x == es[0] || x in es[1..];
    }
  }

  /** An entry is determined by what its vector answers about its DSA. */
  lemma SameAnswersSameEntry(a: seq<UtdEntry>, b: seq<UtdEntry>, x: UtdEntry)
    requires Distinct(a) && Distinct(b) && x in a
    requires Knows(b, x.dsa)
    requires forall u: int :: IsUpToDate(a, x.dsa, u) <==> IsUpToDate(b, x.dsa, u)
    requires forall u: int :: LowAtMost(a, x.dsa, u) <==> LowAtMost(b, x.dsa, u)
    ensures x in b
  {
    var y :| y in b && y.dsa == x.dsa;
    OnlyEntry(a, x);
    OnlyEntry(b, y);
    assert IsUpToDate(b, x.dsa, x.usnHigh) && IsUpToDate(a, x.dsa, y.usnHigh);
    assert LowAtMost(b, x.dsa, x.usnLow) && LowAtMost(a, x.dsa, y.usnLow);
  }

  lemma OnlyEntry(entries: seq<UtdEntry>, e: UtdEntry)
    requires Distinct(entries) && e in entries
    ensures forall u: int :: IsUpToDate(entries, e.dsa, u) <==> e.usnHigh >= u
    ensures forall u: int :: LowAtMost(entries, e.dsa, u) <==> e.usnLow <= u
  {
    forall x | x in entries && x.dsa == e.dsa
      ensures x == e
    {
      var i :| 0 <= i < |entries| && entries[i] == x;
      var j :| 0 <= j < |entries| && entries[j] == e;
    }
  }

  /** The comment on `merge` promises the greater of the two low USNs; the code keeps the lesser. It meets
      the comment exactly when the two are equal. */
  lemma LowIsGreaterWhen(entries: seq<UtdEntry>, x: UtdEntry, e: UtdEntry, y: UtdEntry)
    requires Distinct(entries) && x in entries && x.dsa == e.dsa
    requires y in Merged(entries, e) && y.dsa == e.dsa
    ensures y.usnLow == Min(x.usnLow, e.usnLow)
    ensures y.usnLow == Max(x.usnLow, e.usnLow) <==> x.usnLow == e.usnLow
  {
    hide Merged, Distinct, LowAtMost, IsUpToDate;
    MergedDistinct(entries, e);
    OnlyEntry(entries, x);
    OnlyEntry(Merged(entries, e), y);
    MergedFacts(entries, e, e.dsa, Min(x.usnLow, e.usnLow));
    MergedFacts(entries, e, e.dsa, y.usnLow);
    assert LowAtMost(Merged(entries, e), e.dsa, y.usnLow);
  }

  /** Over any number of merges: the low USN kept for a DSA is the greatest one seen exactly when all that
      were seen for it are equal. */
  lemma LowIsGreatestWhen(entries: seq<UtdEntry>, es: seq<UtdEntry>, y: UtdEntry)
    requires Distinct(entries) && y in MergedAll(entries, es)
    ensures (forall x | x in entries + es && x.dsa == y.dsa :: x.usnLow <= y.usnLow) <==>
            (forall x, z | x in entries + es && z in entries + es && x.dsa == z.dsa == y.dsa :: x.usnLow == z.usnLow)
  {
    hide MergedAll, Distinct, IsUpToDate;
    MergedAllFacts(entries, es, y.dsa, y.usnLow);
    OnlyEntry(MergedAll(entries, es), y);
    assert LowAtMost(MergedAll(entries, es), y.dsa, y.usnLow);
    var w :| w in entries + es && w.dsa == y.dsa && w.usnLow <= y.usnLow;
    forall x | x in entries + es && x.dsa == y.dsa
      ensures x.usnLow >= y.usnLow
    {
      MergedAllFacts(entries, es, y.dsa, x.usnLow);
      assert LowAtMost(entries, y.dsa, x.usnLow) || LowAtMost(es, y.dsa, x.usnLow);
    }
  }

  /** Low USNs 50 and 25 merge to 25. */
  lemma LowGoesDown(g: Uuid)
    ensures Merged([UtdEntry(100, 50, g)], UtdEntry(200, 25, g)) == [UtdEntry(200, 25, g)]
  {
  }

  /** Neither the order nor the repetition of the merged entries matters. */
  lemma MergeOrderIrrelevant(entries: seq<UtdEntry>, es: seq<UtdEntry>, fs: seq<UtdEntry>)
    requires Distinct(entries) && forall e :: e in es <==> e in fs
    ensures forall x :: x in MergedAll(entries, es) <==> x in MergedAll(entries, fs)
  {
    forall x
      ensures x in MergedAll(entries, es) <==> x in MergedAll(entries, fs)
    {
      if x in MergedAll(entries, es) {
        MergeOrderHalf(entries, es, fs, x);
      }
      if x in MergedAll(entries, fs) {
        MergeOrderHalf(entries, fs, es, x);
      }
    }
  }

  lemma MergeOrderHalf(entries: seq<UtdEntry>, es: seq<UtdEntry>, fs: seq<UtdEntry>, x: UtdEntry)
    requires Distinct(entries) && forall e :: e in es <==> e in fs
    requires x in MergedAll(entries, es)
    ensures x in MergedAll(entries, fs)
  {
    hide MergedAll;
    var a, b := MergedAll(entries, es), MergedAll(entries, fs);
    forall u: int
      ensures IsUpToDate(a, x.dsa, u) <==> IsUpToDate(b, x.dsa, u)
      ensures LowAtMost(a, x.dsa, u) <==> LowAtMost(b, x.dsa, u)
    {
      MergedAllFacts(entries, es, x.dsa, u);
      MergedAllFacts(entries, fs, x.dsa, u);
    }
    MergedAllFacts(entries, es, x.dsa, 0);
    MergedAllFacts(entries, fs, x.dsa, 0);
    SameAnswersSameEntry(a, b, x);
  }

  /** The vector, updated in place. */
  class UtdVector {
    var version: u32
    var entries: seq<UtdEntry>

    constructor ()
      ensures version == 0 && entries == []
    {
      version, entries := 0, [];
    }

    method Merge(e: UtdEntry)
      modifies this
      ensures version == old(version) && entries == Merged(old(entries), e)
      ensures old(Distinct(entries)) ==> Distinct(entries)
      ensures forall g, u: int | IsUpToDate(old(entries), g, u) :: IsUpToDate(entries, g, u)
    {
      hide Merged, Distinct, IsUpToDate;
      ghost var before := entries;
      var i := 0;
      while i < |entries| && entries[i].dsa != e.dsa
        invariant 0 <= i <= |entries| && entries == before
        invariant forall k | 0 <= k < i :: before[k].dsa != e.dsa
      {
        i := i + 1;
      }
      MergedAt(before, e, i);
      if i < |entries| {
        var x := entries[i];
        entries := entries[i := Absorbed(x, e)];
      } else {
        entries := entries + [e];
      }
      MergeKeeps(before, e);
    }
  }

  function Absorbed(x: UtdEntry, e: UtdEntry): (r: UtdEntry)
  {
    UtdEntry(Max(x.usnHigh, e.usnHigh), Min(x.usnLow, e.usnLow), e.dsa)
  }

  /** Merging changes the first entry of the DSA, or appends. */
  lemma {:induction false} MergedAt(entries: seq<UtdEntry>, e: UtdEntry, i: nat)
    requires i <= |entries| && forall k | 0 <= k < i :: entries[k].dsa != e.dsa
    requires i < |entries| ==> entries[i].dsa == e.dsa
    ensures Merged(entries, e) == if i < |entries| then entries[i := Absorbed(entries[i], e)] else entries + [e]
    decreases |entries|
  {
    if i > 0 {
      MergedAt(entries[1..], e, i - 1);
    }
  }

  lemma MergeKeeps(entries: seq<UtdEntry>, e: UtdEntry)
    ensures Distinct(entries) ==> Distinct(Merged(entries, e))
    ensures forall g, u: int | IsUpToDate(entries, g, u) :: IsUpToDate(Merged(entries, e), g, u)
  {
    hide Merged, IsUpToDate;
    if Distinct(entries) {
      MergedDistinct(entries, e);
    }
    forall g, u: int | IsUpToDate(entries, g, u)
      ensures IsUpToDate(Merged(entries, e), g, u)
    {
      MergedFacts(entries, e, g, u);
    }
  }

  // ---- Conflict resolution ----

  datatype Stamp = Stamp(version: u32, written: u64, usn: u64, origin: Uuid)

  datatype Write = Write(value: seq<byte>, stamp: Stamp)

  /** Whether an incoming write displaces the local one. */
  predicate IncomingWins(local: Stamp, incoming: Stamp) {
    if incoming.version != local.version then incoming.version > local.version
    else if incoming.written != local.written then incoming.written > local.written
    else if incoming.usn != local.usn then incoming.usn > local.usn
    else Less(local.origin, incoming.origin)
  }

  function Received(local: Write, ws: seq<Write>): (r: Write)
    decreases |ws|
  {
    if ws == [] then local
    else Received(if IncomingWins(local.stamp, ws[0].stamp) then ws[0] else local, ws[1..])
  }

  lemma {:induction false} LessOrder(a: seq<byte>, b: seq<byte>, c: seq<byte>)
    requires |a| == |b| == |c|
    ensures !Less(a, a)
    ensures Less(a, b) ==> !Less(b, a)
    ensures a != b ==> Less(a, b) || Less(b, a)
    ensures Less(a, b) && Less(b, c) ==> Less(a, c)
  {
    if a != [] {
      LessOrder(a[1..], b[1..], c[1..]);
      assert a == [a[0]] + a[1..] && b == [b[0]] + b[1..];
    }
  }

  lemma WinsOrder(a: Stamp, b: Stamp, c: Stamp)
    ensures !IncomingWins(a, a)
    ensures IncomingWins(a, b) ==> !IncomingWins(b, a)
    ensures a != b ==> IncomingWins(a, b) || IncomingWins(b, a)
    ensures IncomingWins(a, b) && IncomingWins(b, c) ==> IncomingWins(a, c)
  {
    LessOrder(a.origin, b.origin, c.origin);
    LessOrder(b.origin, c.origin, a.origin);
  }

  /** What a replica keeps was written somewhere, and nothing it saw displaces it. */
  lemma {:induction false} ReceivedIsGreatest(local: Write, ws: seq<Write>)
    ensures Received(local, ws) == local || Received(local, ws) in ws
    ensures forall w | w == local || w in ws :: !IncomingWins(Received(local, ws).stamp, w.stamp)
    decreases |ws|
  {
    hide IncomingWins;
    if ws == [] {
      WinsOrder(local.stamp, local.stamp, local.stamp);
    } else {
      var next := if IncomingWins(local.stamp, ws[0].stamp) then ws[0] else local;
      ReceivedIsGreatest(next, ws[1..]);
      var kept := Received(local, ws);
      forall w | w == local || w in ws
        ensures !IncomingWins(kept.stamp, w.stamp)
      {
        WinsOrder(next.stamp, kept.stamp, w.stamp);
        WinsOrder(kept.stamp, w.stamp, next.stamp);
        WinsOrder(local.stamp, ws[0].stamp, local.stamp);
      }
    }
  }

  /** Which write a replica keeps: its version is the greatest of all it saw, among those of that version it
      was written last, among those its USN is the greatest, and among those its origin is the greatest in
      lexicographic order. */
  lemma KeptIsLatest(local: Write, ws: seq<Write>, w: Write)
    requires w == local || w in ws
    ensures var kept, seen := Received(local, ws).stamp, w.stamp;
            && seen.version <= kept.version
            && (seen.version == kept.version ==> seen.written <= kept.written)
            && (seen.version == kept.version && seen.written == kept.written ==> seen.usn <= kept.usn)
            && (seen.version == kept.version && seen.written == kept.written && seen.usn == kept.usn ==>
                  seen.origin == kept.origin || LowerFirst(seen.origin, kept.origin))
  {
    hide Received, Less, LowerFirst;
    var kept := Received(local, ws).stamp;
    ReceivedIsGreatest(local, ws);
    LessOrder(w.stamp.origin, kept.origin, kept.origin);
    LessIs(w.stamp.origin, kept.origin);
  }

  /** A write of the list that no write of the list displaces. */
  predicate Undisplaced(w: Write, ws: seq<Write>) {
    w in ws && forall v | v in ws :: !IncomingWins(w.stamp, v.stamp)
  }

  /** Replicas that saw the same writes, in whatever order and however often. */
  predicate SameWrites(ws: seq<Write>, vs: seq<Write>) {
    (forall w | w in ws :: w in vs) && (forall v | v in vs :: v in ws)
  }

  /** Every replica that saw the writes keeps the same one. */
  ghost predicate Converge(a: Write, ws: seq<Write>) {
    forall b, vs | SameWrites([a] + ws, [b] + vs) :: Received(b, vs) == Received(a, ws)
  }

  lemma ReceivedUndisplaced(a: Write, ws: seq<Write>)
    ensures Undisplaced(Received(a, ws), [a] + ws)
  {
    hide IncomingWins, Received;
    ReceivedIsGreatest(a, ws);
    assert forall w :: w in [a] + ws <==> w == a || w in ws;
  }

  /** A replica that has an undisplaced write first keeps it. */
  lemma {:induction false} UndisplacedStays(w: Write, ws: seq<Write>)
    requires forall v | v in ws :: !IncomingWins(w.stamp, v.stamp)
    ensures Received(w, ws) == w
    decreases |ws|
  {
    if ws != [] {
      UndisplacedStays(w, ws[1..]);
    }
  }

  /** Replicas converge on a set of writes exactly when any two of them that none displaces are equal. */
  lemma ReplicasConverge(a: Write, ws: seq<Write>)
    ensures Converge(a, ws) <==>
            forall w, v | Undisplaced(w, [a] + ws) && Undisplaced(v, [a] + ws) :: w == v
  {
    hide IncomingWins, Received;
    var all := [a] + ws;
    if Converge(a, ws) {
      forall w | Undisplaced(w, all)
        ensures w == Received(a, ws)
      {
        UndisplacedStays(w, all);
        assert SameWrites(all, [w] + all);
      }
    }
    if forall w, v | Undisplaced(w, all) && Undisplaced(v, all) :: w == v {
      forall b, vs | SameWrites(all, [b] + vs)
        ensures Received(b, vs) == Received(a, ws)
      {
        ReceivedUndisplaced(a, ws);
        ReceivedUndisplaced(b, vs);
        assert Undisplaced(Received(b, vs), all);
      }
    }
  }

  /** So they converge wherever equal stamps mean equal values. */
  lemma DistinctStampsConverge(a: Write, ws: seq<Write>)
    requires forall w, v | w in [a] + ws && v in [a] + ws && w.stamp == v.stamp :: w == v
    ensures Converge(a, ws)
  {
    hide IncomingWins, Received, Converge;
    forall w, v | Undisplaced(w, [a] + ws) && Undisplaced(v, [a] + ws)
      ensures w == v
    {
      WinsOrder(w.stamp, v.stamp, w.stamp);
    }
    ReplicasConverge(a, ws);
  }

  /** Two different values under one stamp that nothing displaces are each kept by the replica that had
      it first; a third write with a greater stamp brings all replicas together again. */
  lemma EqualStampsDiverge(a: Write, b: Write, c: Write)
    requires a != b && a.stamp == b.stamp && IncomingWins(a.stamp, c.stamp)
    ensures Received(a, [b]) == a && Received(b, [a]) == b && !Converge(a, [b])
    ensures Converge(a, [b, c]) && Received(a, [b, c]) == c
  {
    hide IncomingWins, Received, Converge;
    WinsOrder(a.stamp, b.stamp, a.stamp);
    UndisplacedStays(a, [b]);
    UndisplacedStays(b, [a]);
    assert Undisplaced(a, [a] + [b]) && Undisplaced(b, [a] + [b]);
    ReplicasConverge(a, [b]);
    var all := [a] + [b, c];
    assert c in all && a in all && b in all;
    forall w | Undisplaced(w, all)
      ensures w == c
    {
      assert !IncomingWins(w.stamp, c.stamp);
    }
    ReplicasConverge(a, [b, c]);
    ReceivedUndisplaced(a, [b, c]);
  }
}
