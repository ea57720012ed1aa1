/** That a Raft cluster can go on: when votes are granted and messages accepted, and that after every run some
    member can become leader and have a new entry acknowledged by all. */
module RaftProgress {
  import opened Bytes
  import opened Raft

  // ---- When a node says yes ----

  /** The log (given by the term and index of its last entry) is not behind another one: of a later term, or
      of the same term and not shorter. */
  predicate NotBehind(lastTerm: nat, lastIndex: nat, log: Log) {
    lastTerm > LastTerm(log) || (lastTerm == LastTerm(log) && lastIndex >= LastIndex(log))
  }

  /** A vote is granted exactly to a candidate that is not behind, by a node that has not gone past the term
      and has not voted for another in it. Nothing but the term and the vote changes. */
  lemma VoteGranted(n: Node, term: nat, candidate: Uuid, lastIndex: nat, lastTerm: nat)
    ensures var (r, y) := Handled(n, Vote(term, candidate, lastIndex, lastTerm));
            && (y.accepted <==>
                && NotBehind(lastTerm, lastIndex, n.log)
                && (n.term < term || (n.term == term && (n.votedFor.None? || n.votedFor == Some(candidate)))))
            && r.term == y.term == Max(n.term, term)
            && r.votedFor == (if y.accepted then Some(candidate) else if n.term < term then None else n.votedFor)
            && r.log == n.log && r.commit == n.commit && r.leader == n.leader
  {
  }

  /** A message is accepted exactly when its term is not past and the node's log has the term in front of
      the message's entries. The commit index moves only to a greater one, and no further than the log. */
  lemma AppendAccepted(n: Node, m: Rpc)
    requires m.Append? && Contiguous(n.log)
    ensures var (r, y) := Handled(n, m);
            && (y.accepted <==>
                && n.term <= m.term
                && (if m.prevIndex == 0 then m.prevTerm == 0
                    else m.prevIndex <= |n.log| && n.log[m.prevIndex - 1].term == m.prevTerm))
            && r.term == y.term == Max(n.term, m.term)
            && r.votedFor == (if n.term < m.term then None else n.votedFor)
            && r.leader == (if n.term <= m.term then Some(m.leader) else n.leader)
            && (!y.accepted ==> r.log == n.log && r.commit == n.commit)
            && (m.commit <= n.commit ==> r.commit == n.commit)
            && (y.accepted && n.commit < m.commit ==> r.commit == Min(m.commit, LastIndex(r.log)))
  {
    hide Merged, Find;
    FindIs(n.log, 1, m.prevIndex);
  }

  /** So a current message of a leader is accepted by every node that holds the leader's log up to it. */
  lemma HolderAccepts(n: Node, m: Rpc, lead: Log)
    requires m.Append? && CutFrom(m, lead) && Contiguous(lead) && Contiguous(n.log)
    requires n.term <= m.term && Covers(n.log, lead, m.prevIndex)
    ensures Handled(n, m).1.accepted
  {
    hide Handled;
    AppendAccepted(n, m);
    var i := m.prevIndex;
    if i > 0 {
      assert n.log[i - 1] == n.log[..i][i - 1] && lead[i - 1] == lead[..i][i - 1];
    }
  }

  lemma SnapshotAccepted(n: Node, term: nat)
    ensures var (r, y) := Handled(n, Snapshot(term));
            && (y.accepted <==> n.term <= term) && r.term == y.term == Max(n.term, term)
            && r.votedFor == (if n.term < term then None else n.votedFor)
            && r.log == n.log && r.commit == n.commit && r.leader == n.leader
  {
  }

  // ---- Rounds ----

  /** One message to each of a list of nodes. */
  function Round(order: seq<Uuid>, m: Rpc): (ds: seq<Delivery>)
    ensures |ds| == |order| && forall i | 0 <= i < |ds| :: ds[i] == Delivery(order[i], m)
  {
    seq(|order|, i requires 0 <= i < |order| => Delivery(order[i], m))
  }

  function NodeAfter(ds: seq<Delivery>, id: Uuid): (n: Node)
  {
    NodeOf(Delivered(map[], ds), id)
  }

  lemma AfterNext(ds: seq<Delivery>, d: Delivery, id: Uuid)
    ensures NodeAfter(ds + [d], id) == if d.to == id then Handled(NodeAfter(ds, id), d.rpc).0 else NodeAfter(ds, id)
  {
    hide Handled;
    assert (ds + [d])[..|ds|] == ds;
  }

  lemma RoundNext(ds: seq<Delivery>, order: seq<Uuid>, m: Rpc)
    requires order != []
    ensures var n := |order| - 1;
            ds + Round(order, m) == (ds + Round(order[..n], m)) + [Delivery(order[n], m)]
  {
  }

  lemma RoundPrefix(ds: seq<Delivery>, order: seq<Uuid>, m: Rpc, k: nat, more: seq<Delivery>)
    requires k < |order|
    ensures var all := ds + Round(order, m) + more;
            && |ds| + k < |all| && all[..|ds| + k] == ds + Round(order[..k], m)
            && all[|ds| + k] == Delivery(order[k], m)
  {
    var all := ds + Round(order, m) + more;
    assert all[..|ds|] == ds;
    assert all[|ds|..|ds| + k] == Round(order[..k], m);
    assert all[..|ds| + k] == all[..|ds|] + all[|ds|..|ds| + k];
  }

  // ---- An election ----

  /** Every voter is below the term and not ahead of the candidate. */
  ghost predicate Willing(ds: seq<Delivery>, order: seq<Uuid>, term: nat, lastIndex: nat, lastTerm: nat) {
    forall id | id in order :: NodeAfter(ds, id).term < term && NotBehind(lastTerm, lastIndex, NodeAfter(ds, id).log)
  }

  /** A node in the middle of the election: as before it, or with its vote given. */
  predicate Polled(before: Node, now: Node, term: nat, candidate: Uuid) {
    now.log == before.log && (now == before || (now.term == term && now.votedFor == Some(candidate)))
  }

  lemma PolledGrants(before: Node, now: Node, m: Rpc)
    requires m.Vote? && before.term < m.term && NotBehind(m.lastTerm, m.lastIndex, before.log)
    requires Polled(before, now, m.term, m.candidate)
    ensures Handled(now, m).1.accepted && Polled(before, Handled(now, m).0, m.term, m.candidate)
  {
  }

  lemma {:induction false} PolledAfter(ds: seq<Delivery>, order: seq<Uuid>, m: Rpc, id: Uuid)
    requires m.Vote? && Willing(ds, order, m.term, m.lastIndex, m.lastTerm)
    ensures Polled(NodeAfter(ds, id), NodeAfter(ds + Round(order, m), id), m.term, m.candidate)
    decreases |order|
  {
    hide Handled, NodeAfter, Polled, NotBehind;
    if order == [] {
      assert ds + Round(order, m) == ds;
      PolledSelf(NodeAfter(ds, id), m.term, m.candidate);
    } else {
      var n := |order| - 1;
      var front := ds + Round(order[..n], m);
      PolledAfter(ds, order[..n], m, id);
      RoundNext(ds, order, m);
      AfterNext(front, Delivery(order[n], m), id);
      if order[n] == id {
        PolledGrants(NodeAfter(ds, id), NodeAfter(front, id), m);
      }
    }
  }

  lemma PolledSelf(n: Node, term: nat, candidate: Uuid)
    ensures Polled(n, n, term, candidate)
  {
  }

  ghost function Members(order: seq<Uuid>): (s: set<Uuid>)
  {
    set id | id in order
  }

  /** A candidate whose request reaches nodes below its term and not ahead of it is elected by all of them. */
  lemma CandidateWins(ds: seq<Delivery>, order: seq<Uuid>, m: Rpc)
    requires m.Vote? && Willing(ds, order, m.term, m.lastIndex, m.lastTerm)
    ensures Elected(ds + Round(order, m), Members(order), m.term, m.candidate)
  {
    hide Handled, Polled, NotBehind, Delivered;
    var all := ds + Round(order, m);
    forall id | id in order
      ensures exists i: nat | i < |all| :: Grants(all, i, id, m.term, m.candidate)
    {
      var k: nat :| k < |order| && order[k] == id;
      RoundPrefix(ds, order, m, k, []);
      assert all + [] == all;
      PolledAfter(ds, order[..k], m, id);
      PolledGrants(NodeAfter(ds, id), NodeAfter(ds + Round(order[..k], m), id), m);
      assert Grants(all, |ds| + k, id, m.term, m.candidate);
    }
  }

  // ---- Terms ----

  /** No message of the run is of the term or a later one. */
  ghost predicate Fresh(ds: seq<Delivery>, term: nat) {
    term > 0 && forall d | d in ds :: d.rpc.term < term
  }

  lemma TermBound(n: Node, m: Rpc)
    ensures Handled(n, m).0.term == Max(n.term, m.term)
  {
    hide Merged, TermAt;
  }

  /** Terms come from messages: before a term is used every node is below it. */
  lemma {:induction false} TermsBelow(ds: seq<Delivery>, term: nat, id: Uuid)
    requires Fresh(ds, term)
    ensures NodeAfter(ds, id).term < term
    decreases |ds|
  {
    hide Handled;
    if ds != [] {
      var before, d := ds[..|ds| - 1], ds[|ds| - 1];
      assert ds == before + [d] && d in ds;
      TermsBelow(before, term, id);
      AfterNext(before, d, id);
      TermBound(NodeAfter(before, id), d.rpc);
    }
  }

  /** In a cluster with members a reign needs a vote, so its term was used. */
  lemma ReignsBelow(ds: seq<Delivery>, members: set<Uuid>, reigns: iset<Reign>, q: Reign, term: nat)
    requires Reigning(ds, members, reigns) && q in reigns && Fresh(ds, term)
    ensures q.term < term
  {
    hide Spoken, NodeAt, Extends;
    assert Rises(ds, members, q);
    var front := ds[..q.won];
    var voters :| voters <= members && 2 * |voters| > |members| && Elected(front, voters, q.term, q.leader);
    var id :| id in voters;
    var i: nat :| i < |front| && Grants(front, i, id, q.term, q.leader);
    assert ds[i] in ds;
  }

  /** After a round of votes of one term nobody has gone past it. */
  lemma {:induction false} RoundTerms(ds: seq<Delivery>, order: seq<Uuid>, m: Rpc, id: Uuid)
    requires NodeAfter(ds, id).term <= m.term
    ensures NodeAfter(ds + Round(order, m), id).term <= m.term
    decreases |order|
  {
    hide Handled, NodeAfter;
    if order == [] {
      assert ds + Round(order, m) == ds;
    } else {
      var n := |order| - 1;
      RoundTerms(ds, order[..n], m, id);
      RoundNext(ds, order, m);
      AfterNext(ds + Round(order[..n], m), Delivery(order[n], m), id);
      TermBound(NodeAfter(ds + Round(order[..n], m), id), m);
    }
  }

  // ---- A new leader ----

  /** What a candidate sends: a request for votes with the end of its log, then its log with one new entry. */
  function Request(ds: seq<Delivery>, c: Uuid, term: nat): (m: Rpc)
  {
    var log := NodeAfter(ds, c).log;
    Vote(term, c, LastIndex(log), LastTerm(log))
  }

  function Crowned(ds: seq<Delivery>, order: seq<Uuid>, c: Uuid, term: nat, x: seq<byte>): (r: Reign)
  {
    var log := NodeAfter(ds, c).log;
    Reign(term, c, log + [Entry(term, |log| + 1, x)], |ds|, |ds| + |order|)
  }

  function Announcement(r: Reign): (m: Rpc)
  {
    Append(r.term, r.leader, 0, 0, r.log, 0)
  }

  function Campaign(ds: seq<Delivery>, order: seq<Uuid>, c: Uuid, term: nat, x: seq<byte>): (all: seq<Delivery>)
  {
    ds + Round(order, Request(ds, c, term)) + Round(order, Announcement(Crowned(ds, order, c, term, x)))
  }

  lemma CampaignIs(ds: seq<Delivery>, order: seq<Uuid>, c: Uuid, term: nat, x: seq<byte>)
    ensures var all, n := Campaign(ds, order, c, term, x), |order|;
            && |all| == |ds| + n + n && all[..|ds|] == ds
            && all[..|ds| + n] == ds + Round(order, Request(ds, c, term))
            && (forall i | |ds| <= i < |ds| + n :: all[i] == Delivery(order[i - |ds|], Request(ds, c, term)))
            && (forall i | |ds| + n <= i < |all| ::
                  all[i] == Delivery(order[i - |ds| - n], Announcement(Crowned(ds, order, c, term, x))))
  {
    hide Request, Crowned, Announcement;
  }

  /** What was so in the run stays so when the run goes on. */
  lemma RisesLater(ds: seq<Delivery>, all: seq<Delivery>, members: set<Uuid>, q: Reign)
    requires ds <= all && Rises(ds, members, q)
    ensures Rises(all, members, q)
    ensures NodeAt(all, q.taken, q.leader) == NodeAt(ds, q.taken, q.leader)
  {
    hide HasMajority, Extends;
    assert all[..q.taken] == ds[..q.taken] && all[..q.won] == ds[..q.won];
  }

  lemma ElectedBy(ds: seq<Delivery>, members: set<Uuid>, r: Reign)
    requires members != {} && Elected(ds, members, r.term, r.leader)
    ensures HasMajority(ds, members, r)
  {
    hide Elected;
  }

  lemma NewRises(ds: seq<Delivery>, order: seq<Uuid>, c: Uuid, term: nat, x: seq<byte>)
    requires order != [] && Fresh(ds, term)
    requires Willing(ds, order, term, Request(ds, c, term).lastIndex, Request(ds, c, term).lastTerm)
    ensures Rises(Campaign(ds, order, c, term, x), Members(order), Crowned(ds, order, c, term, x))
    ensures NodeAt(Campaign(ds, order, c, term, x), |ds|, c) == NodeAfter(ds, c)
  {
    hide Elected, HasMajority, Willing, Fresh, Campaign, Delivered;
    var all, r := Campaign(ds, order, c, term, x), Crowned(ds, order, c, term, x);
    CampaignIs(ds, order, c, term, x);
    TermsBelow(ds, term, c);
    CandidateWins(ds, order, Request(ds, c, term));
    assert order[0] in Members(order);
    ElectedBy(all[..r.won], Members(order), r);
  }

  /** Old messages say nothing about the new leader: its term was not used. */
  lemma SpokenLater(ds: seq<Delivery>, all: seq<Delivery>, members: set<Uuid>, reigns: iset<Reign>, r: Reign, i: nat)
    requires Reigning(ds, members, reigns) && ds <= all && i < |ds| && ds[i].rpc.term < r.term
    ensures Spoken(all, reigns + iset{r}, i)
  {
    hide HasMajority, Extends, NodeAt, CutFrom;
    assert Spoken(ds, reigns, i);
    var m := ds[i].rpc;
    if m.Append? {
      var q :| q in reigns && q.term == m.term && q.won <= i && CutFrom(m, q.log);
      assert q in reigns + iset{r};
    }
    forall q | q in reigns + iset{r} && m.Vote? && q.term == m.term && q.leader == m.candidate
      ensures var base := NodeAt(all, q.taken, q.leader).log;
              q.taken <= |all| ==> m.lastIndex == LastIndex(base) && m.lastTerm == LastTerm(base)
    {
      assert q in reigns;
      RisesLater(ds, all, members, q);
    }
  }

  lemma CampaignSpoken(ds: seq<Delivery>, order: seq<Uuid>, c: Uuid, term: nat, x: seq<byte>, members: set<Uuid>,
                       reigns: iset<Reign>, i: nat)
    requires Reigning(ds, members, reigns) && members != {} && Fresh(ds, term)
    requires |ds| <= i < |Campaign(ds, order, c, term, x)|
    requires NodeAt(Campaign(ds, order, c, term, x), |ds|, c) == NodeAfter(ds, c)
    ensures Spoken(Campaign(ds, order, c, term, x), reigns + iset{Crowned(ds, order, c, term, x)}, i)
  {
    hide Campaign, Reigning, NodeAt, Fresh, Delivered;
    var all, r := Campaign(ds, order, c, term, x), Crowned(ds, order, c, term, x);
    CampaignIs(ds, order, c, term, x);
    if i < |ds| + |order| {
      forall q | q in reigns + iset{r} && q.term == term
        ensures q == r
      {
        if q in reigns {
          ReignsBelow(ds, members, reigns, q, term);
        }
      }
    } else {
      assert r.log[0..|r.log|] == r.log;
      assert r in reigns + iset{r} && CutFrom(all[i].rpc, r.log);
    }
  }

  ghost predicate Acknowledged(ds: seq<Delivery>, id: Uuid, r: Reign, i: nat) {
    exists j: nat | j < |ds| :: Acknowledges(ds, j, id, r, i)
  }

  lemma CampaignAcknowledged(ds: seq<Delivery>, order: seq<Uuid>, c: Uuid, term: nat, x: seq<byte>, id: Uuid)
    requires Fresh(ds, term) && id in order
    ensures var all, r := Campaign(ds, order, c, term, x), Crowned(ds, order, c, term, x);
            Acknowledged(all, id, r, |NodeAfter(ds, c).log|)
  {
    hide Handled, Fresh, Delivered;
    var all, r := Campaign(ds, order, c, term, x), Crowned(ds, order, c, term, x);
    var k: nat :| k < |order| && order[k] == id;
    var votes, m := ds + Round(order, Request(ds, c, term)), Announcement(r);
    RoundPrefix(votes, order, m, k, []);
    assert all == votes + Round(order, m) + [];
    TermsBelow(ds, term, id);
    RoundTerms(ds, order, Request(ds, c, term), id);
    RoundTerms(votes, order[..k], m, id);
    FromTheStart(NodeAfter(votes + Round(order[..k], m), id), m);
    assert Acknowledges(all, |votes| + k, id, r, |NodeAfter(ds, c).log|);
  }

  /** A message that starts at the first entry needs no match. */
  lemma FromTheStart(n: Node, m: Rpc)
    requires m.Append? && m.prevIndex == 0 && m.prevTerm == 0 && n.term <= m.term
    ensures Handled(n, m).1.accepted
  {
    hide Merged, Find;
  }

  /** A candidate that no member is ahead of, in a term not yet used, becomes leader: the run goes on with one
      more leader, and every member acknowledges its new entry. */
  lemma LeaderCanRise(ds: seq<Delivery>, order: seq<Uuid>, reigns: iset<Reign>, c: Uuid, term: nat, x: seq<byte>)
    requires order != [] && Reigning(ds, Members(order), reigns) && Fresh(ds, term)
    requires forall id | id in order ::
               var log := NodeAfter(ds, c).log; NotBehind(LastTerm(log), LastIndex(log), NodeAfter(ds, id).log)
    ensures var all, r := Campaign(ds, order, c, term, x), Crowned(ds, order, c, term, x);
            && Reigning(all, Members(order), reigns + iset{r})
            && forall id | id in order :: Acknowledged(all, id, r, |NodeAfter(ds, c).log|)
  {
    hide Rises, Spoken, Campaign, NodeAt, NotBehind, Delivered, Acknowledged;
    var all, r := Campaign(ds, order, c, term, x), Crowned(ds, order, c, term, x);
    var members := Members(order);
    assert order[0] in members;
    forall id | id in order
      ensures NodeAfter(ds, id).term < term && Acknowledged(all, id, r, |NodeAfter(ds, c).log|)
    {
      TermsBelow(ds, term, id);
      CampaignAcknowledged(ds, order, c, term, x, id);
    }
    CampaignIs(ds, order, c, term, x);
    NewRises(ds, order, c, term, x);
    forall q | q in reigns
      ensures Rises(all, members, q) && q.term < r.term
    {
      RisesLater(ds, all, members, q);
      ReignsBelow(ds, members, reigns, q, term);
    }
    forall i | 0 <= i < |all|
      ensures Spoken(all, reigns + iset{r}, i)
    {
      if i < |ds| {
        assert ds[i] in ds;
        SpokenLater(ds, all, members, reigns, r, i);
      } else {
        CampaignSpoken(ds, order, c, term, x, members, reigns, i);
      }
    }
  }

  // ---- Going on ----

  /** Among any members there is one that none is ahead of. */
  lemma {:induction false} SomeoneIsAhead(ds: seq<Delivery>, order: seq<Uuid>) returns (c: Uuid)
    requires order != []
    ensures c in order
    ensures forall id | id in order ::
              var log := NodeAfter(ds, c).log; NotBehind(LastTerm(log), LastIndex(log), NodeAfter(ds, id).log)
  {
    hide NodeAfter;
    c := order[0];
    if |order| > 1 {
      var best := SomeoneIsAhead(ds, order[1..]);
      var log := NodeAfter(ds, best).log;
      if NotBehind(LastTerm(log), LastIndex(log), NodeAfter(ds, c).log) {
        c := best;
      }
    }
  }

  /** A cluster is never stuck. After every run, for every entry and every term not yet used, the run can go on
      so that some member becomes leader in that term and every member acknowledges the entry. */
  lemma NeverStuck(ds: seq<Delivery>, order: seq<Uuid>, reigns: iset<Reign>, term: nat, x: seq<byte>)
    returns (all: seq<Delivery>, r: Reign, i: nat)
    requires order != [] && Reigning(ds, Members(order), reigns) && Fresh(ds, term)
    ensures ds <= all && Reigning(all, Members(order), reigns + iset{r})
    ensures r.term == term && r.leader in order
    ensures |r.log| == i + 1 && r.log[i].term == term && r.log[i].payload == x
    ensures forall id | id in order :: Acknowledged(all, id, r, i)
  {
    hide Reigning, NotBehind, NodeAfter, Acknowledged, Fresh;
    var c := SomeoneIsAhead(ds, order);
    LeaderCanRise(ds, order, reigns, c, term, x);
    all, r, i := Campaign(ds, order, c, term, x), Crowned(ds, order, c, term, x), |NodeAfter(ds, c).log|;
    CampaignIs(ds, order, c, term, x);
  }

  lemma {:induction false} UnusedTerm(ds: seq<Delivery>) returns (term: nat)
    ensures Fresh(ds, term)
    decreases |ds|
  {
    term := 1;
    if ds != [] {
      var before := UnusedTerm(ds[..|ds| - 1]);
      term := Max(before, ds[|ds| - 1].rpc.term + 1);
    }
  }

  lemma AcknowledgedLater(ds: seq<Delivery>, all: seq<Delivery>, id: Uuid, r: Reign, i: nat)
    requires ds <= all && Acknowledged(ds, id, r, i)
    ensures Acknowledged(all, id, r, i)
  {
    hide Handled, Delivered;
    var j: nat :| j < |ds| && Acknowledges(ds, j, id, r, i);
    assert all[..j] == ds[..j];
    assert Acknowledges(all, j, id, r, i);
  }

  lemma NewCluster(members: set<Uuid>)
    ensures Reigning([], members, iset{})
  {
  }

  /** After every run, that of a new cluster among them: a leader can rise whose entry all acknowledge, and
      after it a second leader, which has the entry. */
  lemma EntryOutlivesLeader(ds: seq<Delivery>, order: seq<Uuid>, reigns: iset<Reign>, x: seq<byte>, y: seq<byte>)
    returns (all: seq<Delivery>, r: Reign, i: nat, s: Reign, k: nat)
    requires order != [] && Reigning(ds, Members(order), reigns)
    ensures ds <= all && Reigning(all, Members(order), reigns + iset{r} + iset{s})
    ensures r.term < s.term && |r.log| == i + 1 && |s.log| == k + 1
    ensures r.log < s.log && r.log[i].payload == x && s.log[k].payload == y
  {
    hide Reigning, Acknowledged, Fresh, Covers;
    var t := UnusedTerm(ds);
    var first;
    first, r, i := NeverStuck(ds, order, reigns, t, x);
    t := UnusedTerm(first);
    all, s, k := NeverStuck(first, order, reigns + iset{r}, t, y);
    ReignsBelow(first, Members(order), reigns + iset{r}, r, t);
    forall id | id in order
      ensures exists j: nat | j < |all| :: Acknowledges(all, j, id, r, i)
    {
      AcknowledgedLater(first, all, id, r, i);
      AcknowledgedIs(all, id, r, i);
    }
    assert order[0] in Members(order);
    LeaderCompleteness(all, Members(order), reigns + iset{r} + iset{s}, r, i, Members(order), s);
    LaterHasMore(r, i, s, k);
  }

  lemma AcknowledgedIs(ds: seq<Delivery>, id: Uuid, r: Reign, i: nat)
    requires Acknowledged(ds, id, r, i)
    ensures exists j: nat | j < |ds| :: Acknowledges(ds, j, id, r, i)
  {
  }

  lemma LaterHasMore(r: Reign, i: nat, s: Reign, k: nat)
    requires |r.log| == i + 1 && |s.log| == k + 1 && r.log[i].term == r.term < s.term == s.log[k].term
    requires Covers(s.log, r.log, i + 1)
    ensures r.log < s.log
  {
    assert r.log[..i + 1] == r.log && s.log[..i + 1] == r.log;
    assert s.log[i] == s.log[..i + 1][i];
  }
}
