/** The UUID/SID mapping: two indexes in the store and two caches in front of them. */
module IdentityMap {
  import opened Bytes
  import opened Sids
  import opened OrderedKv

  datatype IdentityError = BadSid | Conflict | Corrupt

  // ---- Keys ----

  function ForwardKey(u: Uuid): (k: Key)
  {
    [0x0D, 0x01] + u
  }

  function ReverseKey(s: Sid): (k: Key)
    requires Encodable(s)
  {
    [0x0D, 0x02] + SidOctets(s)
  }

  function UidIndexKey(uid: Value): (k: Key)
  {
    [0x0D, 0x03] + uid
  }

  function UuidToUidKey(u: Uuid): (k: Key)
  {
    [0x0D, 0x04] + u
  }

  lemma KeysDiffer(u: Uuid, v: Uuid, s: Sid, t: Sid, uid: Value)
    requires Encodable(s) && Encodable(t)
    ensures ForwardKey(u) == ForwardKey(v) <==> u == v
    ensures ReverseKey(s) == ReverseKey(t) <==> s == t
    ensures ForwardKey(u) != ReverseKey(s)
    ensures UidIndexKey(uid) != ForwardKey(u) && UidIndexKey(uid) != ReverseKey(s)
    ensures UuidToUidKey(v) != ForwardKey(u) && UuidToUidKey(v) != ReverseKey(s)
  {
    hide SidOctets;
    assert ForwardKey(u)[2..] == u && ForwardKey(v)[2..] == v;
    assert ReverseKey(s)[2..] == SidOctets(s) && ReverseKey(t)[2..] == SidOctets(t);
    assert ForwardKey(u)[1] == 0x01 && ReverseKey(s)[1] == 0x02;
    assert UidIndexKey(uid)[1] == 0x03 && UuidToUidKey(v)[1] == 0x04;
    SidRoundTrip(s, SidOctets(s));
    SidRoundTrip(t, SidOctets(s));
  }

  // ---- The store alone ----

  function StoredSid(kv: Kv, u: Uuid): (r: Result<Option<Sid>, IdentityError>)
  {
    if ForwardKey(u) !in kv then Ok(None)
    else
      match SidOf(kv[ForwardKey(u)])
      case Ok(s) => Ok(Some(s))
      case Err(_) => Err(BadSid)
  }

  function StoredUuid(kv: Kv, s: Sid): (r: Result<Option<Uuid>, IdentityError>)
  {
    if !Encodable(s) then Err(BadSid)
    else if ReverseKey(s) !in kv then Ok(None)
    else if |kv[ReverseKey(s)]| != 16 then Err(Corrupt)
    else Ok(Some(kv[ReverseKey(s)]))
  }

  function Inserted(kv: Kv, u: Uuid, s: Sid): (r: Result<Kv, IdentityError>)
  {
    if !Encodable(s) then Err(BadSid)
    else if ReverseKey(s) in kv && |kv[ReverseKey(s)]| == 16 && kv[ReverseKey(s)] != u then Err(Conflict)
    else
      match StoredSid(kv, u)
      case Err(e) => Err(e)
      case Ok(Some(t)) => if t != s then Err(Conflict) else Ok(kv)
      case Ok(None) => Ok(kv[ForwardKey(u) := SidOctets(s)][ReverseKey(s) := u])
  }

  /** The POSIX identifier records that go with a UUID. */
  function UidKeys(kv: Kv, u: Uuid): (ks: set<Key>)
  {
    if UuidToUidKey(u) !in kv then {}
    else if |kv[UuidToUidKey(u)]| == 4 then {UuidToUidKey(u), UidIndexKey(kv[UuidToUidKey(u)])}
    else {UuidToUidKey(u)}
  }

  function Removed(kv: Kv, u: Uuid): (r: Result<Kv, IdentityError>)
  {
    match StoredSid(kv, u)
    case Err(e) => Err(e)
    case Ok(None) => Ok(kv)
    case Ok(Some(s)) =>
      StoredIsEncodable(kv, u);
      Ok(kv - ({ForwardKey(u), ReverseKey(s)} + UidKeys(kv, u)))
  }

  lemma StoredIsEncodable(kv: Kv, u: Uuid)
    ensures StoredSid(kv, u).Ok? && StoredSid(kv, u).value.Some? ==> Encodable(StoredSid(kv, u).value.value)
  {
    if ForwardKey(u) in kv && SidOf(kv[ForwardKey(u)]).Ok? {
      SidRoundTrip(SidOf(kv[ForwardKey(u)]).value, kv[ForwardKey(u)]);
    }
  }

  /** Both indexes are readable throughout, and each is the inverse of the other. */
  ghost predicate Inverse(kv: Kv) {
    && (forall u: Uuid :: StoredSid(kv, u).Ok?)
    && (forall s | Encodable(s) :: StoredUuid(kv, s).Ok?)
    && (forall u: Uuid, s | Encodable(s) :: StoredSid(kv, u) == Ok(Some(s)) <==> StoredUuid(kv, s) == Ok(Some(u)))
  }

  /** An insertion adds its pair and changes no other answer; it is refused exactly when the SID or the
      UUID is taken by another. */
  lemma InsertedReads(kv: Kv, u: Uuid, s: Sid, v: Uuid, t: Sid)
    requires Inverse(kv) && Encodable(s) && Encodable(t)
    ensures Inserted(kv, u, s).Ok? <==>
            StoredSid(kv, u) == Ok(Some(s)) || (StoredSid(kv, u) == Ok(None) && StoredUuid(kv, s) == Ok(None))
    ensures Inserted(kv, u, s).Err? ==> Inserted(kv, u, s).error == Conflict
    ensures Inserted(kv, u, s).Ok? ==>
              && StoredSid(Inserted(kv, u, s).value, v) == (if v == u then Ok(Some(s)) else StoredSid(kv, v))
              && StoredUuid(Inserted(kv, u, s).value, t) == (if t == s then Ok(Some(u)) else StoredUuid(kv, t))
  {
    hide SidOctets, SidOf, ForwardKey, ReverseKey, Encodable;
    KeysDiffer(u, v, s, t, []);
    KeysDiffer(v, u, s, t, []);
    KeysDiffer(u, v, t, s, []);
    SidRoundTrip(s, SidOctets(s));
    assert StoredSid(kv, u).Ok? && StoredUuid(kv, s).Ok?;
    assert StoredSid(kv, u) == Ok(Some(s)) <==> StoredUuid(kv, s) == Ok(Some(u));
  }

  /** A removal takes its pair away and changes no other answer. */
  lemma RemovedReads(kv: Kv, u: Uuid, v: Uuid, t: Sid)
    requires Inverse(kv) && Encodable(t)
    ensures Removed(kv, u).Ok?
    ensures StoredSid(Removed(kv, u).value, v) == (if v == u then Ok(None) else StoredSid(kv, v))
    ensures StoredUuid(Removed(kv, u).value, t) ==
            (if StoredSid(kv, u) == Ok(Some(t)) then Ok(None) else StoredUuid(kv, t))
  {
    hide SidOctets, SidOf, ForwardKey, ReverseKey, UuidToUidKey, UidIndexKey, Encodable;
    assert StoredSid(kv, u).Ok?;
    if StoredSid(kv, u).value.Some? {
      StoredIsEncodable(kv, u);
      var s := StoredSid(kv, u).value.value;
      var uid := if UuidToUidKey(u) in kv then kv[UuidToUidKey(u)] else [];
      KeysDiffer(v, u, t, s, uid);
      KeysDiffer(v, u, s, t, uid);
      KeysDiffer(u, v, t, s, uid);
    }
  }

  /** A removal takes the POSIX records of its UUID away, both directions of them, and no other UUID's. */
  lemma RemovedRecords(kv: Kv, u: Uuid, v: Uuid, uid: Value)
    requires StoredSid(kv, u).Ok? && StoredSid(kv, u).value.Some?
    ensures var kv' := Removed(kv, u).value;
            && Removed(kv, u).Ok? && UuidToUidKey(u) !in kv'
            && (UuidToUidKey(u) in kv && |kv[UuidToUidKey(u)]| == 4 ==> UidIndexKey(kv[UuidToUidKey(u)]) !in kv')
            && (v != u && UuidToUidKey(v) in kv ==>
                  UuidToUidKey(v) in kv' && kv'[UuidToUidKey(v)] == kv[UuidToUidKey(v)])
            && (UidIndexKey(uid) in kv && (UuidToUidKey(u) in kv ==> kv[UuidToUidKey(u)] != uid) ==>
                  UidIndexKey(uid) in kv' && kv'[UidIndexKey(uid)] == kv[UidIndexKey(uid)])
  {
    hide SidOctets, SidOf;
    StoredIsEncodable(kv, u);
    var s := StoredSid(kv, u).value.value;
    KeysDiffer(u, v, s, s, uid);
    assert UuidToUidKey(u)[2..] == u && UuidToUidKey(v)[2..] == v && UidIndexKey(uid)[2..] == uid;
    assert UidIndexKey(uid)[1] == 0x03 && UuidToUidKey(v)[1] == 0x04;
    if UuidToUidKey(u) in kv {
      var mine := kv[UuidToUidKey(u)];
      assert UidIndexKey(mine)[2..] == mine && UidIndexKey(mine)[1] == 0x03;
    }
  }

  lemma InsertedInverse(kv: Kv, u: Uuid, s: Sid)
    requires Inverse(kv) && Inserted(kv, u, s).Ok?
    ensures Inverse(Inserted(kv, u, s).value)
  {
    hide StoredSid, StoredUuid, Inserted, Encodable;
    InsertedIsEncodable(kv, u, s);
    var kv' := Inserted(kv, u, s).value;
    forall v: Uuid, t | Encodable(t)
      ensures StoredSid(kv', v) == (if v == u then Ok(Some(s)) else StoredSid(kv, v))
      ensures StoredUuid(kv', t) == (if t == s then Ok(Some(u)) else StoredUuid(kv, t))
    {
      InsertedReads(kv, u, s, v, t);
    }
    InsertedReads(kv, u, s, u, s);
    forall v: Uuid
      ensures StoredSid(kv', v).Ok?
    {
      InsertedReads(kv, u, s, v, s);
    }
  }

  lemma InsertedIsEncodable(kv: Kv, u: Uuid, s: Sid)
    requires Inserted(kv, u, s).Ok?
    ensures Encodable(s)
  {
  }

  lemma RemovedInverse(kv: Kv, u: Uuid)
    requires Inverse(kv)
    ensures Removed(kv, u).Ok? && Inverse(Removed(kv, u).value)
  {
    hide StoredSid, StoredUuid, Removed, Encodable;
    var none := Sid([0, 0, 0, 0, 0, 0], []);
    assert Encodable(none) by {
      NoneEncodable(none);
    }
    RemovedReads(kv, u, u, none);
    var kv' := Removed(kv, u).value;
    forall v: Uuid, t | Encodable(t)
      ensures StoredSid(kv', v) == (if v == u then Ok(None) else StoredSid(kv, v))
      ensures StoredUuid(kv', t) == (if StoredSid(kv, u) == Ok(Some(t)) then Ok(None) else StoredUuid(kv, t))
    {
      RemovedReads(kv, u, v, t);
    }
    forall v: Uuid
      ensures StoredSid(kv', v).Ok?
    {
      RemovedReads(kv, u, v, none);
    }
  }

  lemma NoneEncodable(s: Sid)
    requires s.subAuthorities == []
    ensures Encodable(s)
  {
  }

  // ---- The caches ----

  datatype Cache = Cache(sids: map<Uuid, Sid>, uuids: map<Sid, Uuid>)

  function Limit(capacity: nat): (n: nat)
  {
    if capacity < 1 then 1 else capacity
  }

  /** The two caches hold the same pairs. */
  ghost predicate Mirrored(c: Cache) {
    && (forall u | u in c.sids :: c.sids[u] in c.uuids && c.uuids[c.sids[u]] == u)
    && (forall s | s in c.uuids :: c.uuids[s] in c.sids && c.sids[c.uuids[s]] == s)
  }

  /** Every cached pair is in the store. */
  ghost predicate Coherent(kv: Kv, c: Cache) {
    forall u | u in c.sids :: StoredSid(kv, u) == Ok(Some(c.sids[u]))
  }

  function Evicted(c: Cache, victim: Uuid): (r: Cache)
    requires victim in c.sids
  {
    Cache(c.sids - {victim}, c.uuids - {c.sids[victim]})
  }

  function Entered(c: Cache, u: Uuid, s: Sid): (r: Cache)
  {
    Cache(c.sids[u := s], c.uuids[s := u])
  }

  /** A pair is entered; a full cache first gives up any one entry. */
  ghost predicate Puts(capacity: nat, c: Cache, u: Uuid, s: Sid, c': Cache) {
    if |c.sids| >= capacity && u !in c.sids && c.sids != map[] then
      exists victim | victim in c.sids :: c' == Entered(Evicted(c, victim), u, s)
    else c' == Entered(c, u, s)
  }

  function Dropped(c: Cache, u: Uuid): (r: Cache)
  {
    if u in c.sids then Evicted(c, u) else c
  }

  lemma EvictedMirrors(c: Cache, victim: Uuid)
    requires Mirrored(c) && victim in c.sids
    ensures Mirrored(Evicted(c, victim))
  {
    var r, gone := Evicted(c, victim), c.sids[victim];
    forall u | u in r.sids
      ensures r.sids[u] in r.uuids && r.uuids[r.sids[u]] == u
    {
      assert c.uuids[c.sids[u]] == u && c.uuids[gone] == victim;
    }
    forall s | s in r.uuids
      ensures r.uuids[s] in r.sids && r.sids[r.uuids[s]] == s
    {
      assert c.sids[c.uuids[s]] == s;
    }
  }

  lemma EvictedKeeps(kv: Kv, c: Cache, victim: Uuid)
    requires Mirrored(c) && Coherent(kv, c) && victim in c.sids
    ensures Mirrored(Evicted(c, victim)) && Coherent(kv, Evicted(c, victim))
    ensures |Evicted(c, victim).sids| == |c.sids| - 1
  {
    hide StoredSid, Mirrored;
    EvictedMirrors(c, victim);
    assert c.sids.Keys == Evicted(c, victim).sids.Keys + {victim};
    assert |Evicted(c, victim).sids.Keys| == |c.sids.Keys| - 1;
  }

  /** A forward pair and its mirror image. */
  predicate Pairs(c: Cache, u: Uuid, s: Sid) {
    u in c.sids && c.sids[u] == s && s in c.uuids && c.uuids[s] == u
  }

  lemma EnteredPairs(c: Cache, u: Uuid, s: Sid, v: Uuid, t: Sid)
    requires (s in c.uuids ==> c.uuids[s] == u) && (u in c.sids ==> c.sids[u] == s)
    requires (v == u && t == s) || Pairs(c, v, t)
    ensures Pairs(Entered(c, u, s), v, t)
  {
  }

  lemma EnteredMirrors(c: Cache, u: Uuid, s: Sid)
    requires Mirrored(c) && (s in c.uuids ==> c.uuids[s] == u) && (u in c.sids ==> c.sids[u] == s)
    ensures Mirrored(Entered(c, u, s))
  {
    var r := Entered(c, u, s);
    forall v | v in r.sids
      ensures r.sids[v] in r.uuids && r.uuids[r.sids[v]] == v
    {
      assert v != u ==> Pairs(c, v, c.sids[v]);
      EnteredPairs(c, u, s, v, r.sids[v]);
    }
    forall t | t in r.uuids
      ensures r.uuids[t] in r.sids && r.sids[r.uuids[t]] == t
    {
      assert t != s ==> Pairs(c, c.uuids[t], t);
      EnteredPairs(c, u, s, r.uuids[t], t);
    }
  }

  lemma EnteredSize(c: Cache, u: Uuid, s: Sid)
    ensures |Entered(c, u, s).sids| == if u in c.sids then |c.sids| else |c.sids| + 1
  {
    assert Entered(c, u, s).sids.Keys == c.sids.Keys + {u};
  }

  /** Entering a stored pair keeps the caches mirrored, because the store is one-to-one. */
  lemma EnteredKeeps(kv: Kv, c: Cache, u: Uuid, s: Sid)
    requires Inverse(kv) && Mirrored(c) && Coherent(kv, c) && StoredSid(kv, u) == Ok(Some(s))
    ensures Mirrored(Entered(c, u, s)) && Coherent(kv, Entered(c, u, s))
    ensures |Entered(c, u, s).sids| == if u in c.sids then |c.sids| else |c.sids| + 1
  {
    hide StoredSid, StoredUuid;
    StoredIsEncodable(kv, u);
    assert s in c.uuids ==> c.uuids[s] == u by {
      if s in c.uuids {
        assert StoredUuid(kv, s) == Ok(Some(u));
        assert StoredSid(kv, c.uuids[s]) == Ok(Some(s));
        assert StoredUuid(kv, s) == Ok(Some(c.uuids[s]));
      }
    }
    hide Inverse, Mirrored;
    EnteredMirrors(c, u, s);
    EnteredSize(c, u, s);
  }

  lemma PutsKeeps(kv: Kv, capacity: nat, c: Cache, u: Uuid, s: Sid, c': Cache)
    requires Inverse(kv) && Mirrored(c) && Coherent(kv, c) && StoredSid(kv, u) == Ok(Some(s))
    requires |c.sids| <= Limit(capacity) && Puts(capacity, c, u, s, c')
    ensures Mirrored(c') && Coherent(kv, c') && |c'.sids| <= Limit(capacity)
  {
    hide Inverse, Mirrored, Coherent, StoredSid, Entered, Evicted;
    if |c.sids| >= capacity && u !in c.sids && c.sids != map[] {
      var victim :| victim in c.sids && c' == Entered(Evicted(c, victim), u, s);
      EvictedKeeps(kv, c, victim);
      EnteredKeeps(kv, Evicted(c, victim), u, s);
    } else {
      EnteredKeeps(kv, c, u, s);
      assert c.sids == map[] ==> |c.sids| == 0;
    }
  }

  // ---- The mapping as a state machine ----

  datatype State = State(kv: Kv, cache: Cache)

  datatype Op = LookupSid(u: Uuid) | LookupUuid(s: Sid) | Insert(u: Uuid, s: Sid) | Remove(u: Uuid)

  datatype Answer = SidAnswer(sid: Option<Sid>) | UuidAnswer(uuid: Option<Uuid>) | Done | Refused(error: IdentityError)

  /** One call, with whatever entry a full cache chooses to give up. */
  ghost predicate Next(capacity: nat, a: State, op: Op, answer: Answer, b: State) {
    match op
    case LookupSid(u) =>
      b.kv == a.kv &&
      (if u in a.cache.sids then answer == SidAnswer(Some(a.cache.sids[u])) && b.cache == a.cache
       else
         match StoredSid(a.kv, u)
         case Err(e) => answer == Refused(e) && b.cache == a.cache
         case Ok(None) => answer == SidAnswer(None) && b.cache == a.cache
         case Ok(Some(s)) => answer == SidAnswer(Some(s)) && Puts(capacity, a.cache, u, s, b.cache))
    case LookupUuid(s) =>
      b.kv == a.kv &&
      (if s in a.cache.uuids then answer == UuidAnswer(Some(a.cache.uuids[s])) && b.cache == a.cache
       else
         match StoredUuid(a.kv, s)
         case Err(e) => answer == Refused(e) && b.cache == a.cache
         case Ok(None) => answer == UuidAnswer(None) && b.cache == a.cache
         case Ok(Some(u)) => answer == UuidAnswer(Some(u)) && Puts(capacity, a.cache, u, s, b.cache))
    case Insert(u, s) =>
      (match Inserted(a.kv, u, s)
       case Err(e) => answer == Refused(e) && b == a
       case Ok(kv) =>
         answer == Done && b.kv == kv &&
         if ForwardKey(u) in a.kv then b.cache == a.cache else Puts(capacity, a.cache, u, s, b.cache))
    case Remove(u) =>
      (match Removed(a.kv, u)
       case Err(e) => answer == Refused(e) && b == a
       case Ok(kv) =>
         answer == Done && b.kv == kv && b.cache == if ForwardKey(u) in a.kv then Dropped(a.cache, u) else a.cache)
  }

  /** What the store alone answers, and becomes. */
  function Uncached(kv: Kv, op: Op): (r: (Answer, Kv))
  {
    match op
    case LookupSid(u) => (match StoredSid(kv, u) case Ok(s) => (SidAnswer(s), kv) case Err(e) => (Refused(e), kv))
    case LookupUuid(s) => (match StoredUuid(kv, s) case Ok(u) => (UuidAnswer(u), kv) case Err(e) => (Refused(e), kv))
    case Insert(u, s) => (match Inserted(kv, u, s) case Ok(kv') => (Done, kv') case Err(e) => (Refused(e), kv))
    case Remove(u) => (match Removed(kv, u) case Ok(kv') => (Done, kv') case Err(e) => (Refused(e), kv))
  }

  ghost predicate Invariant(capacity: nat, a: State) {
    Inverse(a.kv) && Mirrored(a.cache) && Coherent(a.kv, a.cache) && |a.cache.sids| <= Limit(capacity)
  }

  lemma EmptyInvariant(capacity: nat)
    ensures Invariant(capacity, State(map[], Cache(map[], map[])))
  {
  }

  lemma LookupSidKeeps(capacity: nat, a: State, u: Uuid, answer: Answer, b: State)
    requires Invariant(capacity, a) && Next(capacity, a, LookupSid(u), answer, b)
    ensures Invariant(capacity, b) && (answer, b.kv) == Uncached(a.kv, LookupSid(u))
  {
    hide Inverse, Mirrored, Puts, StoredSid;
    if u !in a.cache.sids && StoredSid(a.kv, u).Ok? && StoredSid(a.kv, u).value.Some? {
      hide Coherent;
      PutsKeeps(a.kv, capacity, a.cache, u, StoredSid(a.kv, u).value.value, b.cache);
    }
  }

  lemma LookupUuidKeeps(capacity: nat, a: State, s: Sid, answer: Answer, b: State)
    requires Invariant(capacity, a) && Next(capacity, a, LookupUuid(s), answer, b)
    ensures Invariant(capacity, b) && (answer, b.kv) == Uncached(a.kv, LookupUuid(s))
  {
    hide Puts;
    if s in a.cache.uuids {
      var u := a.cache.uuids[s];
      assert StoredSid(a.kv, u) == Ok(Some(s));
      StoredIsEncodable(a.kv, u);
      assert StoredUuid(a.kv, s) == Ok(Some(u));
    } else if StoredUuid(a.kv, s).Ok? && StoredUuid(a.kv, s).value.Some? {
      var u := StoredUuid(a.kv, s).value.value;
      assert StoredSid(a.kv, u) == Ok(Some(s));
      hide Coherent, Inverse, Mirrored;
      PutsKeeps(a.kv, capacity, a.cache, u, s, b.cache);
    }
  }

  lemma InsertKeeps(capacity: nat, a: State, u: Uuid, s: Sid, answer: Answer, b: State)
    requires Invariant(capacity, a) && Next(capacity, a, Insert(u, s), answer, b)
    ensures Invariant(capacity, b) && (answer, b.kv) == Uncached(a.kv, Insert(u, s))
  {
    hide Inverse, Mirrored, Puts, StoredSid, StoredUuid, Inserted, ForwardKey;
    if Inserted(a.kv, u, s).Ok? {
      InsertedInverse(a.kv, u, s);
      InsertedIsEncodable(a.kv, u, s);
      forall v | v in a.cache.sids
        ensures StoredSid(b.kv, v) == Ok(Some(a.cache.sids[v]))
      {
        InsertedReads(a.kv, u, s, v, s);
      }
      InsertedReads(a.kv, u, s, u, s);
      if ForwardKey(u) !in a.kv {
        hide Coherent;
        PutsKeeps(b.kv, capacity, a.cache, u, s, b.cache);
      }
    }
  }

  lemma RemoveKeeps(capacity: nat, a: State, u: Uuid, answer: Answer, b: State)
    requires Invariant(capacity, a) && Next(capacity, a, Remove(u), answer, b)
    ensures Invariant(capacity, b) && (answer, b.kv) == Uncached(a.kv, Remove(u))
  {
    hide Inverse, Mirrored, StoredSid, StoredUuid, Removed, Encodable, ForwardKey;
    RemovedInverse(a.kv, u);
    if ForwardKey(u) !in a.kv {
      RemovedMiss(a, u);
    } else if u in a.cache.sids {
      EvictedKeeps(a.kv, a.cache, u);
    }
    var none := Sid([0, 0, 0, 0, 0, 0], []);
    NoneEncodable(none);
    forall v | v in b.cache.sids
      ensures StoredSid(b.kv, v) == Ok(Some(b.cache.sids[v]))
    {
      RemovedReads(a.kv, u, v, none);
    }
  }

  /** A UUID without a forward record is not cached. */
  lemma RemovedMiss(a: State, u: Uuid)
    requires Coherent(a.kv, a.cache) && ForwardKey(u) !in a.kv
    ensures u !in a.cache.sids
  {
  }

  lemma StepKeeps(capacity: nat, a: State, op: Op, answer: Answer, b: State)
    requires Invariant(capacity, a) && Next(capacity, a, op, answer, b)
    ensures Invariant(capacity, b) && (answer, b.kv) == Uncached(a.kv, op)
  {
    hide Invariant, Next, Uncached;
    match op
    case LookupSid(u) => LookupSidKeeps(capacity, a, u, answer, b);
    case LookupUuid(s) => LookupUuidKeeps(capacity, a, s, answer, b);
    case Insert(u, s) => InsertKeeps(capacity, a, u, s, answer, b);
    case Remove(u) => RemoveKeeps(capacity, a, u, answer, b);
  }

  /** A run: one more state than calls. */
  ghost predicate IsRun(capacity: nat, states: seq<State>, ops: seq<Op>, answers: seq<Answer>) {
    && |states| == |ops| + 1 && |answers| == |ops|
    && forall i | 0 <= i < |ops| :: Next(capacity, states[i], ops[i], answers[i], states[i + 1])
  }

  function UncachedRun(kv: Kv, ops: seq<Op>): (r: (seq<Answer>, Kv))
    decreases |ops|
  {
    if ops == [] then ([], kv)
    else
      var (answers, before) := UncachedRun(kv, ops[..|ops| - 1]);
      var (answer, after) := Uncached(before, ops[|ops| - 1]);
      (answers + [answer], after)
  }

  /** Over every run, whatever is evicted when, the cached mapping answers as the store alone would, the
      indexes stay inverse to each other, the caches stay mirror images of stored pairs, and the cache
      never holds more than max(1, capacity) entries. */
  lemma {:induction false} CachesAreInvisible(capacity: nat, states: seq<State>, ops: seq<Op>, answers: seq<Answer>)
    requires IsRun(capacity, states, ops, answers) && Invariant(capacity, states[0])
    ensures (answers, states[|ops|].kv) == UncachedRun(states[0].kv, ops)
    ensures forall i | 0 <= i < |states| :: Invariant(capacity, states[i])
    decreases |ops|
  {
    hide Invariant, Next, Uncached;
    if ops != [] {
      var n := |ops| - 1;
      CachesAreInvisible(capacity, states[..|ops|], ops[..n], answers[..n]);
      assert Next(capacity, states[n], ops[n], answers[n], states[n + 1]);
      assert states[..|ops|][n] == states[n];
      StepKeeps(capacity, states[n], ops[n], answers[n], states[n + 1]);
      assert answers == answers[..n] + [answers[n]];
    }
  }

  // ---- The mapping as it runs ----

  class IdentityMapping {
    const store: KvStore
    const capacity: nat
    var sids: map<Uuid, Sid>
    var uuids: map<Sid, Uuid>

    constructor (store: KvStore, capacity: nat)
      ensures this.store == store && this.capacity == capacity && sids == map[] && uuids == map[]
    {
      this.store, this.capacity, sids, uuids := store, capacity, map[], map[];
    }

    function Now(): (a: State)
      reads this, store
    {
      State(store.kv, Cache(sids, uuids))
    }

    method CachePut(u: Uuid, s: Sid)
      modifies this
      ensures Puts(capacity, Cache(old(sids), old(uuids)), u, s, Cache(sids, uuids))
    {
      ghost var before := Cache(sids, uuids);
      if |sids| >= capacity && u !in sids {
        if sids != map[] {
          var some: Uuid :| some in sids.Keys;
          var evicted := sids[some];
          sids := sids - {some};
          uuids := uuids - {evicted};
          assert Cache(sids, uuids) == Evicted(before, some);
        }
      }
      sids := sids[u := s];
      uuids := uuids[s := u];
    }

    method CacheRemove(u: Uuid)
      modifies this
      ensures Cache(sids, uuids) == Dropped(Cache(old(sids), old(uuids)), u)
    {
      if u in sids {
        var s := sids[u];
        sids := sids - {u};
        uuids := uuids - {s};
      }
    }

    method LookupSidOf(u: Uuid) returns (r: Result<Option<Sid>, IdentityError>)
      modifies this
      ensures Next(capacity, old(Now()), LookupSid(u), if r.Ok? then SidAnswer(r.value) else Refused(r.error), Now())
      ensures Invariant(capacity, old(Now())) ==> Invariant(capacity, Now()) && r == StoredSid(store.kv, u)
    {
      hide Invariant, Puts;
      ghost var before := Now();
      if u in sids {
        r := Ok(Some(sids[u]));
      } else if ForwardKey(u) !in store.kv {
        r := Ok(None);
      } else {
        var sid := SidOf(store.kv[ForwardKey(u)]);
        if sid.Err? {
          r := Err(BadSid);
        } else {
          CachePut(u, sid.value);
          r := Ok(Some(sid.value));
        }
      }
      if Invariant(capacity, before) {
        StepKeeps(capacity, before, LookupSid(u), if r.Ok? then SidAnswer(r.value) else Refused(r.error), Now());
      }
    }

    method LookupUuidOf(s: Sid) returns (r: Result<Option<Uuid>, IdentityError>)
      modifies this
      ensures Next(capacity, old(Now()), LookupUuid(s), if r.Ok? then UuidAnswer(r.value) else Refused(r.error), Now())
      ensures Invariant(capacity, old(Now())) ==> Invariant(capacity, Now()) && r == StoredUuid(store.kv, s)
    {
      hide Invariant, Puts, ReverseKey;
      ghost var before := Now();
      if s in uuids {
        r := Ok(Some(uuids[s]));
      } else if !Encodable(s) {
        r := Err(BadSid);
      } else if ReverseKey(s) !in store.kv {
        r := Ok(None);
      } else {
        var buf := store.kv[ReverseKey(s)];
        if |buf| != 16 {
          r := Err(Corrupt);
        } else {
          CachePut(buf, s);
          r := Ok(Some(buf));
        }
      }
      if Invariant(capacity, before) {
        StepKeeps(capacity, before, LookupUuid(s), if r.Ok? then UuidAnswer(r.value) else Refused(r.error), Now());
      }
    }

    method InsertPair(u: Uuid, s: Sid) returns (r: Result<(), IdentityError>)
      modifies this, store
      ensures Next(capacity, old(Now()), Insert(u, s), if r.Ok? then Done else Refused(r.error), Now())
      ensures Invariant(capacity, old(Now())) ==> Invariant(capacity, Now())
    {
      hide Invariant, Puts, ReverseKey, ForwardKey, SidOctets, SidOf;
      ghost var before := Now();
      var known := ForwardKey(u) in store.kv;
      r := Store(u, s);
      if r.Ok? && !known {
        CachePut(u, s);
      }
      if Invariant(capacity, before) {
        StepKeeps(capacity, before, Insert(u, s), if r.Ok? then Done else Refused(r.error), Now());
      }
    }

    /** The conflict checks and the two writes, in one transaction. */
    method Store(u: Uuid, s: Sid) returns (r: Result<(), IdentityError>)
      modifies store
      ensures match Inserted(old(store.kv), u, s)
              case Ok(kv) => r == Ok(()) && store.kv == kv
              case Err(e) => r == Err(e) && store.kv == old(store.kv)
    {
      hide ReverseKey, ForwardKey, SidOctets, SidOf;
      if !Encodable(s) {
        return Err(BadSid);
      }
      var txn := new WriteTxn(store.kv);
      assert Overlaid(txn.snapshot, txn.writes) == store.kv;
      var owner := txn.Get(ReverseKey(s));
      if owner.Some? && |owner.value| == 16 && owner.value != u {
        return Err(Conflict);
      }
      var existing := txn.Get(ForwardKey(u));
      if existing.Some? {
        var t := SidOf(existing.value);
        if t.Err? {
          return Err(BadSid);
        }
        return if t.value != s then Err(Conflict) else Ok(());
      }
      txn.Put(ForwardKey(u), SidOctets(s));
      txn.Put(ReverseKey(s), u);
      var _ := txn.Commit(store);
      r := Ok(());
    }

    method RemoveUuid(u: Uuid) returns (r: Result<(), IdentityError>)
      modifies this, store
      ensures Next(capacity, old(Now()), Remove(u), if r.Ok? then Done else Refused(r.error), Now())
      ensures Invariant(capacity, old(Now())) ==> Invariant(capacity, Now())
    {
      hide Invariant, ForwardKey, SidOf;
      ghost var before := Now();
      var known := ForwardKey(u) in store.kv;
      r := Unstore(u);
      if r.Ok? && known {
        CacheRemove(u);
      }
      if Invariant(capacity, before) {
        StepKeeps(capacity, before, Remove(u), if r.Ok? then Done else Refused(r.error), Now());
      }
    }

    /** Deletes both index records and the POSIX records of a UUID, in one transaction. */
    method Unstore(u: Uuid) returns (r: Result<(), IdentityError>)
      modifies store
      ensures match Removed(old(store.kv), u)
              case Ok(kv) => r == Ok(()) && store.kv == kv
              case Err(e) => r == Err(e) && store.kv == old(store.kv)
    {
      hide ReverseKey, ForwardKey, UuidToUidKey, UidIndexKey, SidOctets, SidOf;
      if ForwardKey(u) !in store.kv {
        return Ok(());
      }
      var sid := SidOf(store.kv[ForwardKey(u)]);
      if sid.Err? {
        return Err(BadSid);
      }
      StoredIsEncodable(store.kv, u);
      var txn := new WriteTxn(store.kv);
      assert Overlaid(txn.snapshot, txn.writes) == store.kv;
      hide Overlaid, UidKeys;
      txn.Delete(ForwardKey(u));
      txn.Delete(ReverseKey(sid.value));
      DeleteUid(txn, u);
      UidKeysApart(store.kv, u, sid.value);
      var _ := txn.Commit(store);
      r := Ok(());
    }

    method DeleteUid(txn: WriteTxn, u: Uuid)
      modifies txn
      ensures txn.adds == old(txn.adds)
      ensures var before := Overlaid(txn.snapshot, old(txn.writes));
              Overlaid(txn.snapshot, txn.writes) == before - UidKeys(before, u)
    {
      hide Overlaid, UuidToUidKey, UidIndexKey;
      ghost var before := Overlaid(txn.snapshot, txn.writes);
      var uid := txn.Get(UuidToUidKey(u));
      if uid.Some? {
        if |uid.value| == 4 {
          txn.Delete(UidIndexKey(uid.value));
        }
        txn.Delete(UuidToUidKey(u));
      }
      assert before - {} == before;
    }
  }

  lemma UidKeysApart(kv: Kv, u: Uuid, s: Sid)
    requires Encodable(s)
    ensures var rest := kv - {ForwardKey(u)} - {ReverseKey(s)};
            rest - UidKeys(rest, u) == kv - ({ForwardKey(u), ReverseKey(s)} + UidKeys(kv, u))
  {
    hide ForwardKey, ReverseKey, UuidToUidKey, UidIndexKey;
    KeysDiffer(u, u, s, s, []);
    var rest := kv - {ForwardKey(u)} - {ReverseKey(s)};
    assert UidKeys(rest, u) == UidKeys(kv, u);
  }
}
