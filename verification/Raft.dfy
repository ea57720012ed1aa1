/** The receiver side of Raft: AppendEntries, RequestVote and InstallSnapshot handlers, over whole runs of
    a cluster in which messages may be lost, repeated and reordered. */
module Raft {
  import opened Bytes

  /** The payload stands for the originating DSA, its USN and the operation. */
  datatype Entry = Entry(term: nat, index: nat, payload: seq<byte>)

  type Log = seq<Entry>

  datatype Node = Node(term: nat, votedFor: Option<Uuid>, log: Log, commit: nat, leader: Option<Uuid>)

  const NEW_NODE: Node := Node(0, None, [], 0, None)

  datatype Rpc =
    | Append(term: nat, leader: Uuid, prevIndex: nat, prevTerm: nat, entries: Log, commit: nat)
    | Vote(term: nat, candidate: Uuid, lastIndex: nat, lastTerm: nat)
    | Snapshot(term: nat)

  /** The reply: the node's term, and whether it accepted. */
  datatype Reply = Reply(term: nat, accepted: bool)

  // ---- The log ----

  function LastIndex(log: Log): (n: nat)
  {
    if log == [] then 0 else log[|log| - 1].index
  }

  function LastTerm(log: Log): (n: nat)
  {
    if log == [] then 0 else log[|log| - 1].term
  }

  function Find(log: Log, index: nat): (t: Option<nat>)
  {
    if log == [] then None else if log[0].index == index then Some(log[0].term) else Find(log[1..], index)
  }

  function TermAt(log: Log, index: nat): (t: Option<nat>)
  {
    if index == 0 then Some(0) else Find(log, index)
  }

  function Below(log: Log, from: nat): (r: Log)
  {
    if log == [] then [] else (if log[0].index < from then [log[0]] else []) + Below(log[1..], from)
  }

  /** One entry of an AppendEntries call: already there, in conflict, or new. */
  function MergedOne(log: Log, e: Entry): (r: Log)
  {
    match TermAt(log, e.index)
    case Some(t) => if t != e.term then Below(log, e.index) + [e] else log
    case None => log + [e]
  }

  function Merged(log: Log, entries: Log): (r: Log)
    decreases |entries|
  {
    if entries == [] then log else Merged(MergedOne(log, entries[0]), entries[1..])
  }

  predicate Contiguous(log: Log) {
    forall i | 0 <= i < |log| :: log[i].index == i + 1
  }

  lemma {:induction false} FindIs(log: Log, first: nat, index: nat)
    requires forall i | 0 <= i < |log| :: log[i].index == first + i
    ensures Find(log, index) == if first <= index < first + |log| then Some(log[index - first].term) else None
    decreases |log|
  {
    if log != [] {
      FindIs(log[1..], first + 1, index);
    }
  }

  lemma {:induction false} BelowIs(log: Log, first: nat, from: nat)
    requires first <= from && forall i | 0 <= i < |log| :: log[i].index == first + i
    ensures Below(log, from) == if from - first <= |log| then log[..from - first] else log
    decreases |log|
  {
    if log != [] {
      if first == from {
        BelowIs(log[1..], first + 1, from + 1);
        NoneBelow(log, first);
      } else {
        BelowIs(log[1..], first + 1, from);
      }
    }
  }

  lemma {:induction false} NoneBelow(log: Log, from: nat)
    requires forall i | 0 <= i < |log| :: log[i].index >= from
    ensures Below(log, from) == []
  {
    if log != [] {
      NoneBelow(log[1..], from);
    }
  }

  // ---- The handlers ----

  /** A message of a later term makes the node forget its vote. */
  function Advanced(n: Node, term: nat): (r: Node)
  {
    if term > n.term then n.(term := term, votedFor := None) else n
  }

  function Appended(n: Node, m: Rpc): (r: (Node, Reply))
    requires m.Append?
  {
    if m.term < n.term then (n, Reply(n.term, false))
    else
      var a := Advanced(n, m.term).(leader := Some(m.leader));
      if TermAt(a.log, m.prevIndex) != Some(m.prevTerm) then (a, Reply(a.term, false))
      else
        var log := Merged(a.log, m.entries);
        var commit := if m.commit > a.commit then Min(m.commit, LastIndex(log)) else a.commit;
        (a.(log := log, commit := commit), Reply(a.term, true))
  }

  predicate UpToDate(log: Log, m: Rpc)
    requires m.Vote?
  {
    if m.lastTerm != LastTerm(log) then m.lastTerm > LastTerm(log) else m.lastIndex >= LastIndex(log)
  }

  function Voted(n: Node, m: Rpc): (r: (Node, Reply))
    requires m.Vote?
  {
    if m.term < n.term then (n, Reply(n.term, false))
    else
      var a := Advanced(n, m.term);
      if (a.votedFor.None? || a.votedFor.value == m.candidate) && UpToDate(a.log, m)
      then (a.(votedFor := Some(m.candidate)), Reply(a.term, true))
      else (a, Reply(a.term, false))
  }

  function Handled(n: Node, m: Rpc): (r: (Node, Reply))
  {
    match m
    case Append(_, _, _, _, _, _) => Appended(n, m)
    case Vote(_, _, _, _) => Voted(n, m)
    case Snapshot(term) =>
      if term < n.term then (n, Reply(n.term, false))
      else (Advanced(n, term), Reply(Advanced(n, term).term, true))
  }

  // ---- Merging a segment of a leader's log ----

  /** Where two logs have the same term at an index, they are the same up to it. */
  predicate Matching(a: Log, b: Log) {
    forall i | 0 <= i < |a| && i < |b| :: a[i].term == b[i].term ==> a[..i + 1] == b[..i + 1]
  }

  lemma PrefixContiguous(log: Log, n: nat)
    requires Contiguous(log) && n <= |log|
    ensures Contiguous(log[..n])
  {
  }

  /** One entry of a leader's log offered to a log that holds everything before it. */
  lemma MergedOneIs(log: Log, lead: Log, i: nat)
    requires Contiguous(log) && Contiguous(lead) && Matching(log, lead)
    requires i < |lead| && i <= |log| && log[..i] == lead[..i]
    ensures MergedOne(log, lead[i]) == if i < |log| && log[i].term == lead[i].term then log else lead[..i + 1]
    ensures i < |log| && log[i].term == lead[i].term ==> log[..i + 1] == lead[..i + 1]
  {
    hide Find, Below;
    FindIs(log, 1, i + 1);
    if i < |log| && log[i].term != lead[i].term {
      BelowIs(log, 1, i + 1);
    }
    assert lead[..i + 1] == lead[..i] + [lead[i]];
    assert i == |log| ==> log == log[..i];
  }

  lemma MatchingSelf(a: Log, n: nat)
    requires n <= |a|
    ensures Matching(a[..n], a)
  {
    var p := a[..n];
    forall i | 0 <= i < |p| && p[i].term == a[i].term
      ensures p[..i + 1] == a[..i + 1]
    {
    }
  }

  /** A log that holds the leader's log up to `j`. */
  predicate Covers(log: Log, lead: Log, j: nat) {
    j <= |log| && j <= |lead| && log[..j] == lead[..j]
  }

  /** Offering entries `i` to `j` of a leader's log to a log that agrees with it before `i` leaves the log
      when it has them all, and otherwise the leader's log up to `j`. */
  lemma {:induction false} MergedIs(log: Log, lead: Log, i: nat, j: nat)
    requires Contiguous(log) && Contiguous(lead) && Matching(log, lead)
    requires i <= j <= |lead| && Covers(log, lead, i)
    ensures Merged(log, lead[i..j]) == if Covers(log, lead, j) then log else lead[..j]
    decreases j - i
  {
    hide MergedOne, Matching;
    if i < j {
      var next := MergedOne(log, lead[i]);
      MergedOneIs(log, lead, i);
      assert lead[i..j][0] == lead[i] && lead[i..j][1..] == lead[i + 1..j];
      PrefixContiguous(lead, i + 1);
      MatchingSelf(lead, i + 1);
      MergedIs(next, lead, i + 1, j);
      if Covers(log, lead, j) {
        assert log[i] == log[..j][i] && lead[i] == lead[..j][i];
      } else if next != log && j == i + 1 {
        assert next == lead[..j];
      }
    } else {
      assert lead[i..j] == [];
    }
  }

  /** Below `j` the two logs hold entries of different terms at one index. */
  predicate Conflicts(log: Log, lead: Log, j: nat) {
    exists i | 0 <= i < j && i < |log| && i < |lead| :: log[i].term != lead[i].term
  }

  lemma CoversIs(log: Log, lead: Log, j: nat)
    requires Matching(log, lead) && j <= |lead|
    ensures Covers(log, lead, j) <==> j <= |log| && !Conflicts(log, lead, j)
  {
    if Covers(log, lead, j) {
      forall i | 0 <= i < j
        ensures log[i].term == lead[i].term
      {
        assert log[i] == log[..j][i] && lead[i] == lead[..j][i];
      }
    }
    if j <= |log| && !Conflicts(log, lead, j) && j > 0 {
      assert log[j - 1].term == lead[j - 1].term;
    }
  }

  // ---- Logs over whole runs ----

  /** The logs of the leaders: contiguous, and pairwise matching. */
  ghost predicate Authentic(leads: iset<Log>) {
    && (forall a | a in leads :: Contiguous(a))
    && (forall a, b | a in leads && b in leads :: Matching(a, b))
  }

  /** The message carries a segment of the leader's log, with the term in front of it. */
  predicate CutFrom(m: Rpc, lead: Log)
    requires m.Append?
  {
    && m.prevIndex + |m.entries| <= |lead|
    && m.entries == lead[m.prevIndex..m.prevIndex + |m.entries|]
    && m.prevTerm == if m.prevIndex == 0 then 0 else lead[m.prevIndex - 1].term
  }

  ghost predicate Sent(leads: iset<Log>, m: Rpc) {
    m.Append? ==> exists lead | lead in leads :: CutFrom(m, lead)
  }

  /** A node's log is the beginning of some leader's log. */
  ghost predicate Follows(leads: iset<Log>, log: Log) {
    log == [] || exists lead | lead in leads :: log <= lead
  }

  lemma PrefixesMatch(a: Log, b: Log, lead: Log, lead': Log)
    requires Matching(lead, lead') && a <= lead && b <= lead'
    ensures Matching(a, b)
  {
    forall i | 0 <= i < |a| && i < |b| && a[i].term == b[i].term
      ensures a[..i + 1] == b[..i + 1]
    {
      assert lead[i].term == lead'[i].term;
      assert a[..i + 1] == lead[..i + 1] && b[..i + 1] == lead'[..i + 1];
    }
  }

  /** An accepted message of a leader: the node's log is unchanged or becomes that leader's log up to the
      end of the message; either way it holds the leader's log up to there. */
  lemma AppendKeeps(leads: iset<Log>, n: Node, m: Rpc, lead: Log)
    requires Authentic(leads) && Follows(leads, n.log) && m.Append? && lead in leads && CutFrom(m, lead)
    ensures Follows(leads, Appended(n, m).0.log) && Matching(n.log, lead) && Contiguous(n.log)
    ensures Appended(n, m).1.accepted ==>
              var log, end := Appended(n, m).0.log, m.prevIndex + |m.entries|;
              && log == (if Covers(n.log, lead, end) then n.log else lead[..end])
              && Covers(log, lead, end) && Contiguous(log) && Matching(log, lead)
  {
    hide Appended, Merged, TermAt, Matching, Contiguous, Follows;
    FollowerMatches(leads, n.log, lead);
    AppendedLog(n, m);
    if Appended(n, m).1.accepted {
      hide Authentic;
      var i, end := m.prevIndex, m.prevIndex + |m.entries|;
      SameBefore(n.log, lead, i);
      MergedIs(n.log, lead, i, end);
      PrefixContiguous(lead, end);
      MatchingSelf(lead, end);
      PrefixFollows(leads, lead, end);
    }
  }

  lemma AppendedLog(n: Node, m: Rpc)
    requires m.Append?
    ensures Appended(n, m).1.accepted ==>
              TermAt(n.log, m.prevIndex) == Some(m.prevTerm) && Appended(n, m).0.log == Merged(n.log, m.entries)
    ensures !Appended(n, m).1.accepted ==> Appended(n, m).0.log == n.log
  {
    hide Merged, TermAt;
  }

  lemma PrefixFollows(leads: iset<Log>, lead: Log, n: nat)
    requires lead in leads && n <= |lead|
    ensures Follows(leads, lead[..n])
  {
    assert lead[..n] <= lead;
  }

  lemma FollowerMatches(leads: iset<Log>, log: Log, lead: Log)
    requires Authentic(leads) && Follows(leads, log) && lead in leads
    ensures Matching(log, lead) && Contiguous(log)
  {
    if log != [] {
      var mine :| mine in leads && log <= mine;
      PrefixesMatch(log, lead, mine, lead);
      assert log == mine[..|log|];
    }
  }

  lemma SameBefore(log: Log, lead: Log, i: nat)
    requires Contiguous(log) && Matching(log, lead) && i <= |lead|
    requires TermAt(log, i) == Some(if i == 0 then 0 else lead[i - 1].term)
    ensures Covers(log, lead, i)
  {
    hide Find;
    FindIs(log, 1, i);
    if i > 0 {
      assert log[i - 1].term == lead[i - 1].term;
    }
  }

  type Cluster = map<Uuid, Node>

  datatype Delivery = Delivery(to: Uuid, rpc: Rpc)

  function NodeOf(c: Cluster, id: Uuid): (n: Node)
  {
    if id in c then c[id] else NEW_NODE
  }

  function Delivered(c: Cluster, ds: seq<Delivery>): (r: Cluster)
    decreases |ds|
  {
    if ds == [] then c
    else
      var before, d := Delivered(c, ds[..|ds| - 1]), ds[|ds| - 1];
      before[d.to := Handled(NodeOf(before, d.to), d.rpc).0]
  }

  /** Whatever messages cut from the leaders' logs are delivered, in whatever order and however often,
      mixed with whatever votes and snapshots, every node's log is the beginning of a leader's log. */
  lemma {:induction false} LogsFollow(leads: iset<Log>, ds: seq<Delivery>, id: Uuid)
    requires Authentic(leads) && forall d | d in ds :: Sent(leads, d.rpc)
    ensures Follows(leads, NodeOf(Delivered(map[], ds), id).log)
    decreases |ds|
  {
    hide Authentic, Appended;
    if ds != [] {
      var before, d := ds[..|ds| - 1], ds[|ds| - 1];
      assert d in ds;
      LogsFollow(leads, before, id);
      LogsFollow(leads, before, d.to);
      if d.rpc.Append? {
        var lead :| lead in leads && CutFrom(d.rpc, lead);
        AppendKeeps(leads, NodeOf(Delivered(map[], before), d.to), d.rpc, lead);
      }
    }
  }

  /** Hence the logs of any two nodes match, in every state of every run. */
  lemma LogMatching(leads: iset<Log>, ds: seq<Delivery>, a: Uuid, b: Uuid)
    requires Authentic(leads) && forall d | d in ds :: Sent(leads, d.rpc)
    ensures Matching(NodeOf(Delivered(map[], ds), a).log, NodeOf(Delivered(map[], ds), b).log)
  {
    hide Delivered;
    LogsFollow(leads, ds, a);
    LogsFollow(leads, ds, b);
    FollowersMatch(leads, NodeOf(Delivered(map[], ds), a).log, NodeOf(Delivered(map[], ds), b).log);
  }

  lemma FollowersMatch(leads: iset<Log>, p: Log, q: Log)
    requires Authentic(leads) && Follows(leads, p) && Follows(leads, q)
    ensures Matching(p, q)
  {
    if p != [] && q != [] {
      var l :| l in leads && p <= l;
      var m :| m in leads && q <= m;
      PrefixesMatch(p, q, l, m);
    }
  }

  // ---- The commit index ----

  /** When an accepted message moves the commit index, everything up to it is the leader's exactly when the
      leader's commit lies within the message, or the node's log ends within it, or conflicts with the
      leader's there, or agrees in term with the leader's where the commit index comes to stand: the code
      bounds it by the last entry of the log, not by the last entry of the message. */
  lemma CommitAgrees(leads: iset<Log>, n: Node, m: Rpc, lead: Log)
    requires Authentic(leads) && Follows(leads, n.log) && m.Append? && lead in leads && CutFrom(m, lead)
    requires Appended(n, m).1.accepted && n.commit < m.commit <= |lead|
    ensures var (r, _) := Appended(n, m);
            var end, c := m.prevIndex + |m.entries|, Min(m.commit, |n.log|);
            && r.commit == Min(m.commit, |r.log|)
            && (Covers(r.log, lead, r.commit) <==>
                || m.commit <= end || |n.log| <= end || Conflicts(n.log, lead, end)
                || n.log[c - 1].term == lead[c - 1].term)
  {
    hide Merged, Find, Authentic, Follows, Conflicts, Matching;
    AppendKeeps(leads, n, m, lead);
    var (r, _) := Appended(n, m);
    var end := m.prevIndex + |m.entries|;
    assert LastIndex(r.log) == |r.log|;
    CoversIs(n.log, lead, end);
    if r.commit <= end {
      CoversLess(r.log, lead, r.commit, end);
    } else {
      TermDecides(r.log, lead, r.commit);
    }
  }

  lemma CoversLess(log: Log, lead: Log, i: nat, j: nat)
    requires Covers(log, lead, j) && i <= j
    ensures Covers(log, lead, i)
  {
    assert log[..i] == log[..j][..i] && lead[..i] == lead[..j][..i];
  }

  lemma TermDecides(log: Log, lead: Log, j: nat)
    requires Matching(log, lead) && 0 < j <= |log| && j <= |lead|
    ensures Covers(log, lead, j) <==> log[j - 1].term == lead[j - 1].term
  {
    if Covers(log, lead, j) {
      assert log[j - 1] == log[..j][j - 1] && lead[j - 1] == lead[..j][j - 1];
    }
  }

  /** The committed entries a node still has survive an accepted message exactly when its log does not
      conflict with the message's leader among them, within the message. */
  lemma CommittedSurvive(leads: iset<Log>, n: Node, m: Rpc, lead: Log)
    requires Authentic(leads) && Follows(leads, n.log) && m.Append? && lead in leads && CutFrom(m, lead)
    requires Appended(n, m).1.accepted
    ensures var log, end, had := Appended(n, m).0.log, m.prevIndex + |m.entries|, Min(n.commit, |n.log|);
            n.log[..had] <= log <==> !Conflicts(n.log, lead, Min(end, had))
  {
    hide Appended, Authentic, Follows, Conflicts, Matching;
    AppendKeeps(leads, n, m, lead);
    var log, end, had := Appended(n, m).0.log, m.prevIndex + |m.entries|, Min(n.commit, |n.log|);
    var least := Min(end, had);
    CoversIs(n.log, lead, end);
    CoversIs(n.log, lead, least);
    if Covers(n.log, lead, end) {
      CoversLess(n.log, lead, least, end);
    } else {
      if n.log[..had] <= lead[..end] {
        assert n.log[..had] == lead[..end][..had] == lead[..had];
      }
      if had <= end && Covers(n.log, lead, had) {
        assert n.log[..had] == lead[..end][..had];
      }
    }
  }

  /** Two deliveries to a new node. */
  function After(id: Uuid, a: Rpc, b: Rpc): (n: Node)
  {
    NodeOf(Delivered(map[], [Delivery(id, a), Delivery(id, b)]), id)
  }

  lemma AfterIs(id: Uuid, a: Rpc, b: Rpc)
    ensures After(id, a, b) == Handled(Handled(NEW_NODE, a).0, b).0
  {
    hide Handled;
    var ds := [Delivery(id, a), Delivery(id, b)];
    assert ds[..1] == [Delivery(id, a)] && ds[..1][..0] == [];
    assert Delivered(map[], ds[..1]) == map[id := Handled(NEW_NODE, a).0];
  }

  lemma TwoEntries(e: Entry, f: Entry)
    requires e.index == 1 && f.index == 2
    ensures Merged([], [e, f]) == [e, f]
  {
    var none: Log := [];
    assert [e, f][1..] == [f] && [f][1..] == none && [e][1..] == none;
    assert MergedOne(none, e) == none + [e] == [e];
    assert Find([e], 2) == Find(none, 2) == None;
    assert MergedOne([e], f) == [e] + [f] == [e, f];
    assert Merged([e, f], none) == [e, f];
    assert Merged([e], [f]) == Merged([e, f], none);
    assert Merged(none, [e, f]) == Merged([e], [f]);
  }

  /** A heartbeat that names an entry the node has not received from this leader commits a leftover entry
      of an older leader in its place. */
  lemma HeartbeatCommitsLeftover(id: Uuid, leader: Uuid, x: seq<byte>, y: seq<byte>, z: seq<byte>)
    ensures var first, stale, newer := Entry(1, 1, x), Entry(1, 2, y), Entry(2, 2, z);
            var a, b := Append(1, leader, 0, 0, [first, stale], 0), Append(2, leader, 1, 1, [], 2);
            && CutFrom(a, [first, stale]) && CutFrom(b, [first, newer]) && Matching([first, stale], [first, newer])
            && After(id, a, b).commit == 2 && After(id, a, b).log == [first, stale]
  {
    var first, stale, newer := Entry(1, 1, x), Entry(1, 2, y), Entry(2, 2, z);
    var log, lead := [first, stale], [first, newer];
    var a, b := Append(1, leader, 0, 0, [first, stale], 0), Append(2, leader, 1, 1, [], 2);
    assert log[0..2] == log && lead[1..1] == [];
    assert log[..1] == lead[..1] == [first];
    AfterIs(id, a, b);
    TwoEntries(first, stale);
    assert Handled(NEW_NODE, a).0.log == log;
    assert Find(log, 1) == Some(1);
  }

  /** Two accepted messages leave a commit index of 2 on a log of one entry: committed entries are dropped
      and the index stays. */
  lemma CommittedDropped(id: Uuid, leader: Uuid, x: seq<byte>, y: seq<byte>, z: seq<byte>)
    ensures var first, second, other := Entry(1, 1, x), Entry(1, 2, y), Entry(2, 1, z);
            var a, b := Append(1, leader, 0, 0, [first, second], 2), Append(2, leader, 0, 0, [other], 0);
            && CutFrom(a, [first, second]) && CutFrom(b, [other]) && Matching([first, second], [other])
            && After(id, a, b).commit == 2 && After(id, a, b).log == [other]
  {
    var first, second, other := Entry(1, 1, x), Entry(1, 2, y), Entry(2, 1, z);
    var log := [first, second];
    var a, b := Append(1, leader, 0, 0, [first, second], 2), Append(2, leader, 0, 0, [other], 0);
    assert log[0..2] == log && [other][0..1] == [other];
    AfterIs(id, a, b);
    TwoEntries(first, second);
    assert Handled(NEW_NODE, a).0.log == log && Handled(NEW_NODE, a).0.commit == 2;
    assert [other][1..] == [] && Find(log, 1) == Some(1);
    NoneBelow(log, 1);
    assert MergedOne(log, other) == [other];
    assert Merged(log, [other]) == [other];
  }

  // ---- Votes over whole runs ----

  /** Delivery `i` of a run granted a vote: who gave it, for whom, and in which term. */
  predicate Grants(ds: seq<Delivery>, i: nat, id: Uuid, term: nat, candidate: Uuid)
    requires i < |ds|
  {
    && ds[i].to == id && ds[i].rpc.Vote? && ds[i].rpc.term == term && ds[i].rpc.candidate == candidate
    && Handled(NodeOf(Delivered(map[], ds[..i]), id), ds[i].rpc).1.accepted
  }

  /** A node that granted a vote in a term has moved on to a later term or still stands by its vote. */
  predicate Remembers(n: Node, term: nat, candidate: Uuid) {
    n.term > term || (n.term == term && n.votedFor == Some(candidate))
  }

  lemma HandledRemembers(n: Node, m: Rpc, term: nat, candidate: Uuid)
    ensures Handled(n, m).0.term >= n.term
    ensures Remembers(n, term, candidate) ==> Remembers(Handled(n, m).0, term, candidate)
    ensures m.Vote? && Handled(n, m).1.accepted ==> Remembers(Handled(n, m).0, m.term, m.candidate)
    ensures m.Vote? && Handled(n, m).1.accepted && Remembers(n, m.term, candidate) ==> candidate == m.candidate
  {
    hide Merged, TermAt;
  }

  lemma {:induction false} VoteStands(ds: seq<Delivery>, i: nat, id: Uuid, term: nat, candidate: Uuid)
    requires i < |ds| && Grants(ds, i, id, term, candidate)
    ensures Remembers(NodeOf(Delivered(map[], ds), id), term, candidate)
    decreases |ds|
  {
    hide Handled, Remembers;
    var before, d := ds[..|ds| - 1], ds[|ds| - 1];
    var n := NodeOf(Delivered(map[], before), d.to);
    HandledRemembers(n, d.rpc, term, candidate);
    if i < |ds| - 1 {
      assert before[..i] == ds[..i] && before[i] == ds[i];
      VoteStands(before, i, id, term, candidate);
    }
  }

  /** In every run a node votes for at most one candidate in a term. */
  lemma OneVotePerTerm(ds: seq<Delivery>, i: nat, j: nat, id: Uuid, term: nat, a: Uuid, b: Uuid)
    requires i <= j < |ds| && Grants(ds, i, id, term, a) && Grants(ds, j, id, term, b)
    ensures a == b
  {
    hide Handled, Remembers, Delivered;
    if i < j {
      assert ds[..j][..i] == ds[..i];
      VoteStands(ds[..j], i, id, term, a);
      HandledRemembers(NodeOf(Delivered(map[], ds[..j]), id), ds[j].rpc, term, a);
    }
  }

  ghost predicate Elected(ds: seq<Delivery>, voters: set<Uuid>, term: nat, candidate: Uuid) {
    forall id | id in voters :: exists i: nat | i < |ds| :: Grants(ds, i, id, term, candidate)
  }

  lemma MajoritiesMeet(members: set<Uuid>, a: set<Uuid>, b: set<Uuid>)
    requires a <= members && b <= members && 2 * |a| > |members| && 2 * |b| > |members|
    ensures exists id :: id in a && id in b
  {
    if a * b == {} {
      assert |a + b| == |a| + |b|;
      Smaller(a + b, members);
    } else {
      var id :| id in a * b;
    }
  }

  lemma {:induction false} Smaller(a: set<Uuid>, b: set<Uuid>)
    requires a <= b
    ensures |a| <= |b|
  {
    assert b == a + (b - a);
  }

  /** Election safety: two candidates with majorities in one term are one candidate. */
  lemma ElectionSafety(ds: seq<Delivery>, members: set<Uuid>, va: set<Uuid>, vb: set<Uuid>, term: nat, a: Uuid, b: Uuid)
    requires va <= members && vb <= members && 2 * |va| > |members| && 2 * |vb| > |members|
    requires Elected(ds, va, term, a) && Elected(ds, vb, term, b)
    ensures a == b
  {
    hide Grants;
    MajoritiesMeet(members, va, vb);
    var id :| id in va && id in vb;
    var i: nat :| i < |ds| && Grants(ds, i, id, term, a);
    var j: nat :| j < |ds| && Grants(ds, j, id, term, b);
    if i <= j {
      OneVotePerTerm(ds, i, j, id, term, a, b);
    } else {
      OneVotePerTerm(ds, j, i, id, term, b, a);
    }
  }

  // ---- Leaders ----

  /** A leader, its term and its log at the end of that term. It took its node's log after `taken` deliveries
      of the run, and had won its majority after `won`. */
  datatype Reign = Reign(term: nat, leader: Uuid, log: Log, taken: nat, won: nat)

  /** The log begins as an earlier leader's log, or is empty, up to `k`; the rest is of its own term. */
  ghost predicate GrewFrom(reigns: iset<Reign>, r: Reign, k: nat) {
    && k <= |r.log| && (forall i | k <= i < |r.log| :: r.log[i].term == r.term)
    && (k == 0 || exists s | s in reigns :: s.term < r.term && Covers(s.log, r.log, k))
  }

  /** One leader for a term, whose log is contiguous and grew from the log of an earlier leader. */
  ghost predicate Grown(reigns: iset<Reign>) {
    && (forall r | r in reigns :: Contiguous(r.log))
    && (forall r | r in reigns :: exists k: nat :: GrewFrom(reigns, r, k))
    && (forall r, s | r in reigns && s in reigns && r.term == s.term :: r == s)
  }

  ghost function Logs(reigns: iset<Reign>): (leads: iset<Log>)
  {
    iset r | r in reigns :: r.log
  }

  /** An entry of a leader's log is of its own term, or stands, with all before it, in the log of an
      earlier leader. */
  lemma EntryOrigin(reigns: iset<Reign>, r: Reign, i: nat) returns (q: Reign)
    requires Grown(reigns) && r in reigns && i < |r.log|
    ensures q in reigns && i < |q.log| && q.log[..i + 1] == r.log[..i + 1] && q.log[i] == r.log[i]
    ensures q.term < r.term || (q == r && r.log[i].term == r.term)
  {
    hide Contiguous;
    var k: nat :| GrewFrom(reigns, r, k);
    q := r;
    if i < k {
      q :| q in reigns && q.term < r.term && Covers(q.log, r.log, k);
      CoversLess(q.log, r.log, i + 1, k);
      assert q.log[i] == q.log[..i + 1][i] && r.log[i] == r.log[..i + 1][i];
    }
  }

  lemma {:induction false} ReignsMatchAt(reigns: iset<Reign>, r: Reign, s: Reign, i: nat)
    requires Grown(reigns) && r in reigns && s in reigns
    requires i < |r.log| && i < |s.log| && r.log[i].term == s.log[i].term
    ensures r.log[..i + 1] == s.log[..i + 1]
    decreases r.term + s.term
  {
    var p := EntryOrigin(reigns, r, i);
    var q := EntryOrigin(reigns, s, i);
    if p.term + q.term < r.term + s.term {
      hide Grown;
      ReignsMatchAt(reigns, p, q, i);
    } else {
      hide GrewFrom, Contiguous;
    }
  }

  /** The logs of leaders that come about in this way match pairwise. */
  lemma LeadersAuthentic(reigns: iset<Reign>)
    requires Grown(reigns)
    ensures Authentic(Logs(reigns))
  {
    hide GrewFrom, Contiguous;
    forall r, s | r in reigns && s in reigns
      ensures Matching(r.log, s.log)
    {
      forall i | 0 <= i < |r.log| && i < |s.log| && r.log[i].term == s.log[i].term
        ensures r.log[..i + 1] == s.log[..i + 1]
      {
        ReignsMatchAt(reigns, r, s, i);
      }
    }
  }

  /** Every entry was made by the leader of its term, with the same log up to it. */
  lemma {:induction false} TermOrigin(reigns: iset<Reign>, r: Reign, i: nat) returns (p: Reign)
    requires Grown(reigns) && r in reigns && i < |r.log|
    ensures p in reigns && p.term == r.log[i].term <= r.term
    ensures i < |p.log| && p.log[..i + 1] == r.log[..i + 1]
    decreases r.term
  {
    hide Grown;
    p := EntryOrigin(reigns, r, i);
    if p.term < r.term {
      p := TermOrigin(reigns, p, i);
    }
  }

  /** The terms of a leader's log do not go down. */
  lemma TermsSorted(reigns: iset<Reign>, r: Reign, i: nat, j: nat)
    requires Grown(reigns) && r in reigns && i <= j < |r.log|
    ensures r.log[i].term <= r.log[j].term
  {
    hide Grown;
    var p := TermOrigin(reigns, r, j);
    assert p.log[i] == p.log[..j + 1][i] && r.log[i] == r.log[..j + 1][i];
    var q := TermOrigin(reigns, p, i);
  }

  // ---- Leaders that a run elects ----

  function NodeAt(ds: seq<Delivery>, n: nat, id: Uuid): (r: Node)
    requires n <= |ds|
  {
    NodeOf(Delivered(map[], ds[..n]), id)
  }

  lemma NodeAtNext(ds: seq<Delivery>, n: nat, id: Uuid)
    requires n < |ds|
    ensures var before := NodeAt(ds, n, id);
            NodeAt(ds, n + 1, id) == if ds[n].to == id then Handled(before, ds[n].rpc).0 else before
  {
    hide Handled;
    assert ds[..n + 1][..n] == ds[..n];
  }

  /** The leader has the votes of a majority of the members, cast in the run. */
  ghost predicate HasMajority(ds: seq<Delivery>, members: set<Uuid>, r: Reign) {
    exists voters | voters <= members && 2 * |voters| > |members| :: Elected(ds, voters, r.term, r.leader)
  }

  /** The log is `base` followed by numbered entries of the leader's own term. */
  predicate Extends(r: Reign, base: Log) {
    base <= r.log && forall i | |base| <= i < |r.log| :: r.log[i].term == r.term && r.log[i].index == i + 1
  }

  /** How a leader comes about: it takes its node's log before the node reaches the leader's term, wins a
      majority in the run, and adds entries of its own. */
  ghost predicate Rises(ds: seq<Delivery>, members: set<Uuid>, r: Reign) {
    && r.taken <= |ds| && r.won <= |ds|
    && NodeAt(ds, r.taken, r.leader).term < r.term && Extends(r, NodeAt(ds, r.taken, r.leader).log)
    && HasMajority(ds[..r.won], members, r)
  }

  /** How leaders speak: a leader's appends are cut from its log and follow its election; a candidate that
      becomes leader asks for votes with the end of the log it took. */
  ghost predicate Spoken(ds: seq<Delivery>, reigns: iset<Reign>, i: nat)
    requires i < |ds|
  {
    var m := ds[i].rpc;
    && (m.Append? ==> exists r | r in reigns :: r.term == m.term && r.won <= i && CutFrom(m, r.log))
    && (m.Vote? ==>
          forall r | r in reigns && r.term == m.term && r.leader == m.candidate && r.taken <= |ds| ::
            var base := NodeAt(ds, r.taken, r.leader).log;
            m.lastIndex == LastIndex(base) && m.lastTerm == LastTerm(base))
  }

  /** The leaders of a run: a leader has one reign in a term, and nothing else is assumed of their logs. */
  ghost predicate Reigning(ds: seq<Delivery>, members: set<Uuid>, reigns: iset<Reign>) {
    && (forall r | r in reigns :: Rises(ds, members, r))
    && (forall r, s | r in reigns && s in reigns && r.term == s.term && r.leader == s.leader :: r == s)
    && (forall i | 0 <= i < |ds| :: Spoken(ds, reigns, i))
  }

  lemma GrantsLater(ds: seq<Delivery>, n: nat, i: nat, id: Uuid, term: nat, candidate: Uuid)
    requires i < n <= |ds| && Grants(ds[..n], i, id, term, candidate)
    ensures Grants(ds, i, id, term, candidate)
  {
    assert ds[..n][..i] == ds[..i];
  }

  lemma ElectedLater(ds: seq<Delivery>, n: nat, voters: set<Uuid>, term: nat, candidate: Uuid)
    requires n <= |ds| && Elected(ds[..n], voters, term, candidate)
    ensures Elected(ds, voters, term, candidate)
  {
    forall id | id in voters
      ensures exists i: nat | i < |ds| :: Grants(ds, i, id, term, candidate)
    {
      var i: nat :| i < n && Grants(ds[..n], i, id, term, candidate);
      GrantsLater(ds, n, i, id, term, candidate);
    }
  }

  /** Election safety leaves one reign for a term. */
  lemma OneReignPerTerm(ds: seq<Delivery>, members: set<Uuid>, reigns: iset<Reign>, r: Reign, s: Reign)
    requires Reigning(ds, members, reigns) && r in reigns && s in reigns && r.term == s.term
    ensures r == s
  {
    hide Elected, Extends, Spoken, NodeAt;
    assert Rises(ds, members, r) && Rises(ds, members, s);
    var va :| va <= members && 2 * |va| > |members| && Elected(ds[..r.won], va, r.term, r.leader);
    var vb :| vb <= members && 2 * |vb| > |members| && Elected(ds[..s.won], vb, s.term, s.leader);
    ElectedLater(ds, r.won, va, r.term, r.leader);
    ElectedLater(ds, s.won, vb, s.term, s.leader);
    ElectionSafety(ds, members, va, vb, r.term, r.leader, s.leader);
  }

  lemma SentBy(ds: seq<Delivery>, members: set<Uuid>, reigns: iset<Reign>, i: nat) returns (r: Reign)
    requires Reigning(ds, members, reigns) && i < |ds| && ds[i].rpc.Append?
    ensures r in reigns && r.term == ds[i].rpc.term && r.won <= i && CutFrom(ds[i].rpc, r.log)
  {
    hide Rises, CutFrom, NodeAt;
    assert Spoken(ds, reigns, i);
    r :| r in reigns && r.term == ds[i].rpc.term && r.won <= i && CutFrom(ds[i].rpc, r.log);
  }

  ghost function Earlier(reigns: iset<Reign>, term: nat): (r: iset<Reign>)
  {
    iset r | r in reigns && r.term < term
  }

  lemma HandledTerm(n: Node, m: Rpc)
    ensures Handled(n, m).0.term >= n.term
    ensures m.Append? ==> Handled(n, m).0.term >= m.term && (Handled(n, m).1.accepted ==> n.term <= m.term)
    ensures m.Append? ==> (Handled(n, m).1.accepted ==> Handled(n, m).0.term == m.term)
    ensures !m.Append? || !Handled(n, m).1.accepted ==> Handled(n, m).0.log == n.log
  {
    hide Merged, TermAt;
  }

  /** A node that has not reached a term has only a log of leaders before it. */
  lemma {:induction false} FollowsEarlier(ds: seq<Delivery>, members: set<Uuid>, reigns: iset<Reign>, term: nat,
                                          n: nat, id: Uuid)
    requires Reigning(ds, members, reigns) && Authentic(Logs(Earlier(reigns, term)))
    requires n <= |ds| && NodeAt(ds, n, id).term < term
    ensures Follows(Logs(Earlier(reigns, term)), NodeAt(ds, n, id).log)
    decreases n
  {
    hide Reigning, Authentic, Handled, CutFrom;
    if n > 0 {
      hide NodeAt, Follows;
      var m := ds[n - 1].rpc;
      NodeAtNext(ds, n - 1, id);
      HandledTerm(NodeAt(ds, n - 1, id), m);
      FollowsEarlier(ds, members, reigns, term, n - 1, id);
      if ds[n - 1].to == id && m.Append? {
        var r := SentBy(ds, members, reigns, n - 1);
        assert r in Earlier(reigns, term);
        AppendKeeps(Logs(Earlier(reigns, term)), NodeAt(ds, n - 1, id), m, r.log);
        HandledAppend(NodeAt(ds, n - 1, id), m);
      }
    } else {
      assert ds[..0] == [];
    }
  }

  lemma HandledAppend(n: Node, m: Rpc)
    requires m.Append?
    ensures Handled(n, m) == Appended(n, m)
  {
  }

  /** A log that extends an earlier leader's log has grown from it. */
  lemma ExtendsGrew(all: iset<Reign>, r: Reign, base: Log, s: Reign)
    requires s in all && s.term < r.term && Contiguous(s.log) && base <= s.log && Extends(r, base)
    ensures Contiguous(r.log) && GrewFrom(all, r, |base|)
  {
    assert Covers(s.log, r.log, |base|);
  }

  lemma GrowsFromEarlier(ds: seq<Delivery>, members: set<Uuid>, reigns: iset<Reign>, r: Reign, all: iset<Reign>)
    requires Reigning(ds, members, reigns) && r in reigns && Grown(Earlier(reigns, r.term))
    requires Earlier(reigns, r.term) <= all
    ensures Contiguous(r.log) && exists k: nat :: GrewFrom(all, r, k)
  {
    hide HasMajority, Spoken, GrewFrom, Contiguous, NodeAt, Extends, Authentic;
    var below := Earlier(reigns, r.term);
    LeadersAuthentic(below);
    assert Rises(ds, members, r);
    var base := NodeAt(ds, r.taken, r.leader).log;
    FollowsEarlier(ds, members, reigns, r.term, r.taken, r.leader);
    hide Reigning;
    if base == [] {
      ExtendsNothing(all, r);
    } else {
      var lead :| lead in Logs(below) && base <= lead;
      var s :| s in below && s.log == lead;
      ExtendsGrew(all, r, base, s);
    }
  }

  lemma ExtendsNothing(all: iset<Reign>, r: Reign)
    requires Extends(r, [])
    ensures Contiguous(r.log) && GrewFrom(all, r, 0)
  {
  }

  lemma {:induction false} EarlierGrown(ds: seq<Delivery>, members: set<Uuid>, reigns: iset<Reign>, term: nat)
    requires Reigning(ds, members, reigns)
    ensures Grown(Earlier(reigns, term))
    decreases term
  {
    hide GrewFrom, Contiguous, Reigning;
    var below := Earlier(reigns, term);
    forall r | r in below
      ensures Contiguous(r.log) && exists k: nat :: GrewFrom(below, r, k)
    {
      EarlierGrown(ds, members, reigns, r.term);
      hide Grown;
      GrowsFromEarlier(ds, members, reigns, r, below);
    }
    forall r, s | r in below && s in below && r.term == s.term
      ensures r == s
    {
      OneReignPerTerm(ds, members, reigns, r, s);
    }
  }

  /** The leaders that a run elects: every log grew from an earlier leader's log. */
  lemma RunGrown(ds: seq<Delivery>, members: set<Uuid>, reigns: iset<Reign>)
    requires Reigning(ds, members, reigns)
    ensures Grown(reigns) && Authentic(Logs(reigns))
  {
    hide GrewFrom, Contiguous, Reigning;
    forall r | r in reigns
      ensures Contiguous(r.log) && exists k: nat :: GrewFrom(reigns, r, k)
    {
      EarlierGrown(ds, members, reigns, r.term);
      hide Grown;
      GrowsFromEarlier(ds, members, reigns, r, reigns);
    }
    forall r, s | r in reigns && s in reigns && r.term == s.term
      ensures r == s
    {
      OneReignPerTerm(ds, members, reigns, r, s);
    }
    LeadersAuthentic(reigns);
  }

  lemma NodeFollows(ds: seq<Delivery>, members: set<Uuid>, reigns: iset<Reign>, n: nat, id: Uuid)
    requires Reigning(ds, members, reigns) && n <= |ds|
    ensures Authentic(Logs(reigns)) && Follows(Logs(reigns), NodeAt(ds, n, id).log)
  {
    hide Reigning, CutFrom, Delivered, Follows, Authentic;
    RunGrown(ds, members, reigns);
    forall d | d in ds[..n]
      ensures Sent(Logs(reigns), d.rpc)
    {
      var i: nat :| i < n && d == ds[i];
      if d.rpc.Append? {
        var r := SentBy(ds, members, reigns, i);
        assert r.log in Logs(reigns);
      }
    }
    LogsFollow(Logs(reigns), ds[..n], id);
  }

  /** Log matching, from elections up: in every run whose appends are cut from the logs of leaders that the
      run itself elected, and whose logs grew out of the run, the logs of any two nodes match, at any two
      moments. */
  lemma ElectedLogMatching(ds: seq<Delivery>, members: set<Uuid>, reigns: iset<Reign>,
                           n: nat, a: Uuid, k: nat, b: Uuid)
    requires Reigning(ds, members, reigns) && n <= |ds| && k <= |ds|
    ensures Matching(NodeAt(ds, n, a).log, NodeAt(ds, k, b).log)
  {
    hide Reigning, NodeAt, Matching;
    NodeFollows(ds, members, reigns, n, a);
    NodeFollows(ds, members, reigns, k, b);
    FollowersMatch(Logs(reigns), NodeAt(ds, n, a).log, NodeAt(ds, k, b).log);
  }

  // ---- Leader completeness ----

  /** Delivery `j` of the run: a node accepted the leader's log beyond index `i`. */
  predicate Acknowledges(ds: seq<Delivery>, j: nat, id: Uuid, r: Reign, i: nat)
    requires j < |ds|
  {
    && ds[j].to == id && ds[j].rpc.Append? && ds[j].rpc.term == r.term
    && i < ds[j].rpc.prevIndex + |ds[j].rpc.entries| && Handled(NodeAt(ds, j, id), ds[j].rpc).1.accepted
  }

  /** Every leader strictly between the two terms has the log up to `i`. */
  ghost predicate Between(reigns: iset<Reign>, r: Reign, i: nat, term: nat) {
    forall q | q in reigns && r.term < q.term < term :: Covers(q.log, r.log, i + 1)
  }

  /** An accepted message of a leader that has the entries leaves them in place. */
  lemma HoldsThrough(leads: iset<Log>, n: Node, m: Rpc, lead: Log, log: Log, i: nat)
    requires Authentic(leads) && Follows(leads, n.log) && m.Append? && lead in leads && CutFrom(m, lead)
    requires Appended(n, m).1.accepted && Covers(lead, log, i + 1)
    requires Covers(n.log, log, i + 1) || i < m.prevIndex + |m.entries|
    ensures Covers(Appended(n, m).0.log, log, i + 1)
  {
    hide Appended, Authentic, Follows, Contiguous, Matching;
    AppendKeeps(leads, n, m, lead);
    var after, end := Appended(n, m).0.log, m.prevIndex + |m.entries|;
    if i < end {
      CoversLess(after, lead, i + 1, end);
    } else if !Covers(n.log, lead, end) {
      CoversLess(n.log, log, end, i + 1);
      CoversLess(lead, log, end, i + 1);
    }
  }

  /** A node that acknowledged the entry keeps it up to any later moment before the election of `s`. */
  lemma {:induction false} KeepsHolding(ds: seq<Delivery>, members: set<Uuid>, reigns: iset<Reign>,
                                        r: Reign, i: nat, s: Reign, id: Uuid, j: nat, n: nat)
    requires Reigning(ds, members, reigns) && r in reigns && s in reigns && i < |r.log|
    requires j < n <= |ds| && n <= s.won && Acknowledges(ds, j, id, r, i)
    requires NodeAt(ds, n, id).term <= s.term && Between(reigns, r, i, s.term)
    ensures NodeAt(ds, n, id).term >= r.term && Covers(NodeAt(ds, n, id).log, r.log, i + 1)
    decreases n
  {
    hide Reigning, Handled, NodeAt, Between, CutFrom, Covers, Follows, Authentic;
    var before, m := NodeAt(ds, n - 1, id), ds[n - 1].rpc;
    NodeAtNext(ds, n - 1, id);
    HandledTerm(before, m);
    if n - 1 > j {
      KeepsHolding(ds, members, reigns, r, i, s, id, j, n - 1);
    }
    if ds[n - 1].to == id && m.Append? && Handled(before, m).1.accepted {
      var q := SentBy(ds, members, reigns, n - 1);
      NodeFollows(ds, members, reigns, n - 1, id);
      HandledAppend(before, m);
      LeaderHolds(ds, members, reigns, r, i, s, q);
      HoldsThrough(Logs(reigns), before, m, q.log, r.log, i);
    }
  }

  lemma LeaderHolds(ds: seq<Delivery>, members: set<Uuid>, reigns: iset<Reign>, r: Reign, i: nat, s: Reign, q: Reign)
    requires Reigning(ds, members, reigns) && r in reigns && s in reigns && q in reigns && i < |r.log|
    requires r.term <= q.term <= s.term && q.won < s.won && Between(reigns, r, i, s.term)
    ensures Covers(q.log, r.log, i + 1)
  {
    hide Reigning;
    if q.term == r.term {
      OneReignPerTerm(ds, members, reigns, q, r);
    } else if q.term == s.term {
      OneReignPerTerm(ds, members, reigns, q, s);
    }
  }

  /** A log of leaders before `term` is the beginning of the log of the leader of its last entry. */
  lemma LogOrigin(reigns: iset<Reign>, log: Log, term: nat) returns (p: Reign)
    requires Grown(reigns) && log != [] && Follows(Logs(Earlier(reigns, term)), log)
    ensures p in reigns && p.term == LastTerm(log) < term && log <= p.log && Contiguous(log)
  {
    hide GrewFrom;
    var lead :| lead in Logs(Earlier(reigns, term)) && log <= lead;
    var q :| q in Earlier(reigns, term) && q.log == lead;
    assert Contiguous(q.log);
    assert log == q.log[..|log|];
    hide Grown;
    p := TermOrigin(reigns, q, |log| - 1);
    assert p.log[..|log|] == log;
  }

  /** The up-to-date test: a log that a holder of the entry finds up to date holds the entry as well. */
  lemma UpToDateHolds(reigns: iset<Reign>, r: Reign, i: nat, term: nat, log: Log, base: Log, m: Rpc)
    requires Grown(reigns) && r in reigns && i < |r.log| && r.log[i].term == r.term
    requires Between(reigns, r, i, term)
    requires Follows(Logs(Earlier(reigns, term + 1)), log) && Follows(Logs(Earlier(reigns, term)), base)
    requires Covers(log, r.log, i + 1)
    requires m.Vote? && m.lastIndex == LastIndex(base) && m.lastTerm == LastTerm(base) && UpToDate(log, m)
    ensures Covers(base, r.log, i + 1)
  {
    hide Grown, Between, Follows;
    var p := LogOrigin(reigns, log, term + 1);
    assert log[i] == log[..i + 1][i] && r.log[i] == r.log[..i + 1][i];
    TermsSorted(reigns, p, i, |log| - 1);
    assert LastTerm(base) >= r.term;
    if base == [] {
      assert false;
    } else {
      var q := LogOrigin(reigns, base, term);
      LaterLogHolds(reigns, r, i, term, p, log, q, base);
    }
  }

  lemma LaterLogHolds(reigns: iset<Reign>, r: Reign, i: nat, term: nat, p: Reign, log: Log, q: Reign, base: Log)
    requires Grown(reigns) && r in reigns && p in reigns && q in reigns && i < |r.log| && r.log[i].term == r.term
    requires Between(reigns, r, i, term) && Covers(log, r.log, i + 1)
    requires log <= p.log && base != [] && base <= q.log && base[|base| - 1].term == q.term < term
    requires r.term <= p.term && (p.term < q.term || (p.term == q.term && |log| <= |base|))
    ensures Covers(base, r.log, i + 1)
  {
    hide GrewFrom, Contiguous;
    if p.term == q.term {
      assert p == q;
      assert base[..i + 1] == p.log[..i + 1] == log[..i + 1];
    } else {
      assert Covers(q.log, r.log, i + 1);
      var last := |base| - 1;
      if last <= i {
        hide Grown;
        assert q.log[last] == q.log[..i + 1][last] && r.log[last] == r.log[..i + 1][last];
        TermsSorted(reigns, r, last, i);
        assert false;
      }
      assert base[..i + 1] == q.log[..i + 1];
    }
  }

  /** The vote that ties the two terms together: its giver acknowledged the entry before it voted. */
  lemma AcknowledgedFirst(ds: seq<Delivery>, r: Reign, i: nat, s: Reign, id: Uuid, j: nat, k: nat)
    requires j < |ds| && k < |ds| && r.term < s.term
    requires Acknowledges(ds, j, id, r, i) && Grants(ds, k, id, s.term, s.leader)
    ensures j < k
  {
    hide Handled, Delivered;
    if k < j {
      assert ds[..j][..k] == ds[..k];
      VoteStands(ds[..j], k, id, s.term, s.leader);
      HandledTerm(NodeAt(ds, j, id), ds[j].rpc);
      assert false;
    }
  }

  lemma GrantedVote(n: Node, m: Rpc)
    requires m.Vote? && Handled(n, m).1.accepted
    ensures n.term <= m.term && UpToDate(n.log, m)
  {
  }

  /** What the giver of the vote knew: the log the new leader took holds the entry. */
  lemma VoterKnew(ds: seq<Delivery>, members: set<Uuid>, reigns: iset<Reign>,
                  r: Reign, i: nat, s: Reign, id: Uuid, j: nat, k: nat)
    requires Reigning(ds, members, reigns) && r in reigns && s in reigns && r.term < s.term
    requires i < |r.log| && r.log[i].term == r.term && Between(reigns, r, i, s.term)
    requires j < |ds| && k < s.won <= |ds| && s.taken <= |ds|
    requires Acknowledges(ds, j, id, r, i) && Grants(ds, k, id, s.term, s.leader)
    requires NodeAt(ds, s.taken, s.leader).term < s.term
    ensures Covers(NodeAt(ds, s.taken, s.leader).log, r.log, i + 1)
  {
    hide Rises, NodeAt, Handled, UpToDate, Between, Covers, Follows, Grown, Authentic;
    AcknowledgedFirst(ds, r, i, s, id, j, k);
    var m := ds[k].rpc;
    assert m.Vote? && Handled(NodeAt(ds, k, id), m).1.accepted by {
      NodeAtIs(ds, k, id);
    }
    assert Spoken(ds, reigns, k);
    hide Reigning, Spoken;
    GrantedVote(NodeAt(ds, k, id), m);
    KeepsHolding(ds, members, reigns, r, i, s, id, j, k);
    EarlierGrown(ds, members, reigns, s.term);
    LeadersAuthentic(Earlier(reigns, s.term));
    EarlierGrown(ds, members, reigns, s.term + 1);
    LeadersAuthentic(Earlier(reigns, s.term + 1));
    FollowsEarlier(ds, members, reigns, s.term, s.taken, s.leader);
    FollowsEarlier(ds, members, reigns, s.term + 1, k, id);
    RunGrown(ds, members, reigns);
    UpToDateHolds(reigns, r, i, s.term, NodeAt(ds, k, id).log, NodeAt(ds, s.taken, s.leader).log, m);
  }

  lemma NodeAtIs(ds: seq<Delivery>, n: nat, id: Uuid)
    requires n <= |ds|
    ensures NodeAt(ds, n, id) == NodeOf(Delivered(map[], ds[..n]), id)
  {
  }

  /** Leader completeness: an entry of a leader's own term that a majority of the members acknowledged, and
      every entry before it, is in the log of every later leader. */
  lemma {:induction false} LeaderCompleteness(ds: seq<Delivery>, members: set<Uuid>, reigns: iset<Reign>,
                                              r: Reign, i: nat, holders: set<Uuid>, s: Reign)
    requires Reigning(ds, members, reigns) && r in reigns && s in reigns && r.term < s.term
    requires i < |r.log| && r.log[i].term == r.term
    requires holders <= members && 2 * |holders| > |members|
    requires forall id | id in holders :: exists j: nat | j < |ds| :: Acknowledges(ds, j, id, r, i)
    ensures Covers(s.log, r.log, i + 1)
    decreases s.term
  {
    hide Acknowledges, Grants, Spoken, NodeAt, Covers;
    forall q | q in reigns && r.term < q.term < s.term
      ensures Covers(q.log, r.log, i + 1)
    {
      hide Reigning;
      LeaderCompleteness(ds, members, reigns, r, i, holders, q);
    }
    assert Rises(ds, members, s);
    hide Reigning;
    var voters :| voters <= members && 2 * |voters| > |members| && Elected(ds[..s.won], voters, s.term, s.leader);
    MajoritiesMeet(members, holders, voters);
    var id :| id in holders && id in voters;
    var j: nat :| j < |ds| && Acknowledges(ds, j, id, r, i);
    var k: nat :| k < s.won && Grants(ds[..s.won], k, id, s.term, s.leader);
    GrantsLater(ds, s.won, k, id, s.term, s.leader);
    VoterKnew(ds, members, reigns, r, i, s, id, j, k);
    LongerHolds(NodeAt(ds, s.taken, s.leader).log, s.log, r.log, i);
  }

  lemma LongerHolds(base: Log, log: Log, lead: Log, i: nat)
    requires base <= log && Covers(base, lead, i + 1)
    ensures Covers(log, lead, i + 1)
  {
    assert log[..i + 1] == base[..i + 1];
  }

  // ---- A node as it runs ----

  class RaftNode {
    var term: nat
    var votedFor: Option<Uuid>
    var log: Log
    var commit: nat
    var leader: Option<Uuid>

    constructor ()
      ensures Now() == NEW_NODE
    {
      term, votedFor, log, commit, leader := 0, None, [], 0, None;
    }

    function Now(): (n: Node)
      reads this
    {
      Node(term, votedFor, log, commit, leader)
    }

    method FindTerm(index: nat) returns (t: Option<nat>)
      ensures t == TermAt(log, index)
    {
      if index == 0 {
        return Some(0);
      }
      for i := 0 to |log|
        invariant Find(log, index) == Find(log[i..], index)
      {
        assert log[i..][0] == log[i] && log[i..][1..] == log[i + 1..];
        if log[i].index == index {
          return Some(log[i].term);
        }
      }
      t := None;
    }

    method TruncateFrom(from: nat)
      modifies this
      ensures Now() == old(Now()).(log := Below(old(log), from))
    {
      var kept: Log := [];
      for i := 0 to |log|
        invariant log == old(log) && Now() == old(Now())
        invariant Below(log, from) == kept + Below(log[i..], from)
      {
        assert log[i..][0] == log[i] && log[i..][1..] == log[i + 1..];
        if log[i].index < from {
          assert kept + ([log[i]] + Below(log[i + 1..], from)) == (kept + [log[i]]) + Below(log[i + 1..], from);
          kept := kept + [log[i]];
        } else {
          assert [] + Below(log[i + 1..], from) == Below(log[i + 1..], from);
        }
      }
      assert kept + [] == kept;
      log := kept;
    }

    /** The loop over the entries of a message. */
    method MergeAll(entries: Log)
      modifies this
      ensures Now() == old(Now()).(log := Merged(old(log), entries))
    {
      hide Find, Below;
      ghost var start := log;
      for i := 0 to |entries|
        invariant Merged(start, entries) == Merged(log, entries[i..]) && Now() == old(Now()).(log := log)
      {
        assert entries[i..][0] == entries[i] && entries[i..][1..] == entries[i + 1..];
        var e := entries[i];
        var existing := FindTerm(e.index);
        if existing.Some? {
          if existing.value != e.term {
            TruncateFrom(e.index);
            log := log + [e];
          }
        } else {
          log := log + [e];
        }
      }
    }

    method AppendEntries(m: Rpc) returns (r: Reply)
      requires m.Append?
      modifies this
      ensures (Now(), r) == Appended(old(Now()), m)
    {
      hide Find, Merged;
      if m.term < term {
        return Reply(term, false);
      }
      if m.term > term {
        term, votedFor := m.term, None;
      }
      leader := Some(m.leader);
      var atPrev := FindTerm(m.prevIndex);
      if atPrev != Some(m.prevTerm) {
        return Reply(term, false);
      }
      MergeAll(m.entries);
      var last := LastIndex(log);
      if m.commit > commit {
        commit := if m.commit < last then m.commit else last;
      }
      r := Reply(term, true);
    }

    method RequestVote(m: Rpc) returns (r: Reply)
      requires m.Vote?
      modifies this
      ensures (Now(), r) == Voted(old(Now()), m)
    {
      if m.term < term {
        return Reply(term, false);
      }
      if m.term > term {
        term, votedFor := m.term, None;
      }
      var upToDate :=
        if m.lastTerm != LastTerm(log) then m.lastTerm > LastTerm(log) else m.lastIndex >= LastIndex(log);
      var grant := if votedFor.Some? && votedFor.value != m.candidate then false else upToDate;
      if grant {
        votedFor := Some(m.candidate);
      }
      r := Reply(term, grant);
    }
  }
}
