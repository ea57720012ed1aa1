/** IDL_DRSGetNCChanges: which objects of a naming context a reply carries, and the handler as seen
    through the wire. */
module NcChanges {
  import opened Bytes
  import opened Ndr
  import opened Replication
  import opened Drsuapi
  import DrsuapiCodec

  /** An object of the candidate set. */
  datatype DirectoryObject = DirectoryObject(dn: string, uuid: Uuid, attributes: seq<Attribute>)

  // ---- Order on names ----

  /** Code-point order, which is also the octet order of the UTF-8 forms. */
  predicate AtMost(a: string, b: string) {
    a == [] || (b != [] && (a[0] < b[0] || (a[0] == b[0] && AtMost(a[1..], b[1..]))))
  }

  lemma {:induction false} AtMostTotal(a: string, b: string)
    ensures AtMost(a, b) || AtMost(b, a)
    ensures AtMost(a, b) && AtMost(b, a) ==> a == b
  {
    if a != [] && b != [] {
      AtMostTotal(a[1..], b[1..]);
      assert a == [a[0]] + a[1..] && b == [b[0]] + b[1..];
    }
  }

  lemma {:induction false} AtMostTransitive(a: string, b: string, c: string)
    requires AtMost(a, b) && AtMost(b, c)
    ensures AtMost(a, c)
  {
    if a != [] && a[0] == b[0] && b[0] == c[0] {
      AtMostTransitive(a[1..], b[1..], c[1..]);
    }
  }

  /** The two differ first at `i`, and `a` has the earlier character there. */
  predicate EarlierAt(a: string, b: string, i: nat) {
    i < |a| && i < |b| && a[..i] == b[..i] && a[i] < b[i]
  }

  lemma EarlierAtNext(a: string, b: string, i: nat)
    requires a != [] && b != []
    ensures EarlierAt(a, b, 0) <==> a[0] < b[0]
    ensures EarlierAt(a, b, i + 1) <==> a[0] == b[0] && EarlierAt(a[1..], b[1..], i)
  {
    if i + 1 < |a| && i + 1 < |b| {
      assert a[..i + 1] == [a[0]] + a[1..][..i] && b[..i + 1] == [b[0]] + b[1..][..i];
    }
  }

  /** The order is the lexicographic one: a beginning comes first, and otherwise the first difference
      decides. */
  lemma {:induction false} AtMostIs(a: string, b: string)
    ensures AtMost(a, b) <==> a <= b || exists i: nat :: EarlierAt(a, b, i)
  {
    if a != [] && b != [] {
      hide EarlierAt;
      var p, q := a[1..], b[1..];
      AtMostIs(p, q);
      EarlierAtNext(a, b, 0);
      assert a == [a[0]] + p && b == [b[0]] + q;
      if i: nat :| EarlierAt(a, b, i) {
        if i > 0 {
          EarlierAtNext(a, b, i - 1);
        }
      }
      if i: nat :| EarlierAt(p, q, i) {
        EarlierAtNext(a, b, i);
      }
    }
  }

  // ---- The stable sort by name ----

  predicate Ordered(xs: seq<ReplObject>) {
    forall i, j | 0 <= i < j < |xs| :: AtMost(xs[i].dn, xs[j].dn)
  }

  /** The objects of one name, in their order. */
  function Named(xs: seq<ReplObject>, dn: string): (r: seq<ReplObject>)
  {
    if xs == [] then [] else (if xs[0].dn == dn then [xs[0]] else []) + Named(xs[1..], dn)
  }

  function Inserted(x: ReplObject, xs: seq<ReplObject>): (r: seq<ReplObject>)
  {
    if xs == [] || AtMost(x.dn, xs[0].dn) then [x] + xs else [xs[0]] + Inserted(x, xs[1..])
  }

  function SortedByDn(xs: seq<ReplObject>): (r: seq<ReplObject>)
  {
    if xs == [] then [] else Inserted(xs[0], SortedByDn(xs[1..]))
  }

  lemma {:induction false} InsertedFacts(x: ReplObject, xs: seq<ReplObject>, dn: string)
    requires Ordered(xs)
    ensures Ordered(Inserted(x, xs))
    ensures forall y :: y in Inserted(x, xs) <==> y == x || y in xs
    ensures Named(Inserted(x, xs), dn) == Named([x] + xs, dn)
  {
    var r := Inserted(x, xs);
    assert ([x] + xs)[1..] == xs;
    if xs == [] || AtMost(x.dn, xs[0].dn) {
      forall j | 0 < j < |r|
        ensures AtMost(r[0].dn, r[j].dn)
      {
        if j > 1 {
          AtMostTransitive(x.dn, xs[0].dn, xs[j - 1].dn);
        }
      }
    } else {
      var head, rest := xs[0], xs[1..];
      InsertedFacts(x, rest, dn);
      AtMostTotal(x.dn, head.dn);
      assert r == [head] + Inserted(x, rest) && r[1..] == Inserted(x, rest);
      forall y | y in Inserted(x, rest)
        ensures AtMost(head.dn, y.dn)
      {
        if y != x {
          assert y in rest;
        }
      }
      OrderedCons(head, Inserted(x, rest));
      NamedSwap(x, head, rest, dn);
    }
  }

  lemma OrderedCons(x: ReplObject, xs: seq<ReplObject>)
    requires Ordered(xs) && forall y | y in xs :: AtMost(x.dn, y.dn)
    ensures Ordered([x] + xs)
  {
    var r := [x] + xs;
    forall i, j | 0 <= i < j < |r|
      ensures AtMost(r[i].dn, r[j].dn)
    {
      assert r[j] == xs[j - 1];
    }
  }

  /** Objects of different names may change places. */
  lemma NamedSwap(x: ReplObject, y: ReplObject, rest: seq<ReplObject>, dn: string)
    requires x.dn != y.dn
    ensures Named([x] + ([y] + rest), dn) == Named([y] + ([x] + rest), dn)
  {
    assert ([x] + ([y] + rest))[1..] == [y] + rest && ([y] + rest)[1..] == rest;
    assert ([y] + ([x] + rest))[1..] == [x] + rest && ([x] + rest)[1..] == rest;
  }

  /** Sorting puts the names in order and keeps, for every name, its objects in their order. */
  lemma {:induction false} SortedIsStable(xs: seq<ReplObject>, dn: string)
    ensures Ordered(SortedByDn(xs))
    ensures Named(SortedByDn(xs), dn) == Named(xs, dn)
    ensures forall y :: y in SortedByDn(xs) <==> y in xs
  {
    if xs != [] {
      SortedIsStable(xs[1..], dn);
      InsertedFacts(xs[0], SortedByDn(xs[1..]), dn);
      assert ([xs[0]] + SortedByDn(xs[1..]))[1..] == SortedByDn(xs[1..]);
    }
  }

  lemma {:induction false} NamedElements(xs: seq<ReplObject>, x: ReplObject)
    ensures multiset(Named(xs, x.dn))[x] == multiset(xs)[x]
  {
    if xs != [] {
      NamedElements(xs[1..], x);
      assert xs == [xs[0]] + xs[1..];
    }
  }

  lemma {:induction false} NamedHead(xs: seq<ReplObject>, dn: string)
    ensures Named(xs, dn) != [] ==> Named(xs, dn)[0] in xs && Named(xs, dn)[0].dn == dn
    ensures Named(xs, dn) == [] ==> forall x | x in xs :: x.dn != dn
  {
    if xs != [] {
      NamedHead(xs[1..], dn);
    }
  }

  /** Order and stability leave one result: every stable sort gives this one. */
  lemma {:induction false} StableSortIsUnique(xs: seq<ReplObject>, ys: seq<ReplObject>)
    requires Ordered(xs) && Ordered(ys)
    requires forall dn :: Named(xs, dn) == Named(ys, dn)
    ensures xs == ys
    decreases |xs|
  {
    if xs == [] {
      if ys != [] {
        SameHead(ys, xs);
      }
    } else {
      SameHead(xs, ys);
      forall dn
        ensures Named(xs[1..], dn) == Named(ys[1..], dn)
      {
        assert Named(xs, dn) == Named(ys, dn);
        var front := if xs[0].dn == dn then [xs[0]] else [];
        assert Named(xs, dn) == front + Named(xs[1..], dn);
        assert Named(ys, dn) == front + Named(ys[1..], dn);
        assert Named(xs, dn)[|front|..] == Named(xs[1..], dn);
        assert Named(ys, dn)[|front|..] == Named(ys[1..], dn);
      }
      StableSortIsUnique(xs[1..], ys[1..]);
      assert xs == [xs[0]] + xs[1..] && ys == [ys[0]] + ys[1..];
    }
  }

  lemma SameHead(xs: seq<ReplObject>, ys: seq<ReplObject>)
    requires Ordered(xs) && Ordered(ys) && xs != []
    requires forall dn :: Named(xs, dn) == Named(ys, dn)
    ensures ys != [] && xs[0] == ys[0]
  {
    var dn := xs[0].dn;
    assert Named(xs, dn) == Named(ys, dn) && Named(xs, dn)[0] == xs[0];
    NamedHead(ys, dn);
    assert xs[0] in ys;
    NamedHead(xs, ys[0].dn);
    assert Named(ys, ys[0].dn) == Named(xs, ys[0].dn);
    var y := Named(xs, ys[0].dn)[0];
    assert y in xs && y.dn == ys[0].dn;
    AtMostTotal(dn, y.dn);
    AtMostReflexive(dn);
    var i :| 0 <= i < |ys| && ys[i] == xs[0];
    var j :| 0 <= j < |xs| && xs[j] == y;
  }

  lemma AtMostReflexive(a: string)
    ensures AtMost(a, a)
  {
    AtMostTotal(a, a);
  }

  // ---- The listing and the handler ----

  predicate Under(nc: string, dn: string) {
    nc == [] || (|nc| <= |dn| && dn[|dn| - |nc|..] == nc)
  }

  function Image(o: DirectoryObject): (x: ReplObject)
  {
    ReplObject(o.dn, o.uuid, 0, o.attributes)
  }

  function Selected(objects: seq<DirectoryObject>, nc: string): (xs: seq<ReplObject>)
    ensures |xs| <= |objects|
  {
    if objects == [] then []
    else (if Under(nc, objects[0].dn) then [Image(objects[0])] else []) + Selected(objects[1..], nc)
  }

  function ListUnderNc(objects: seq<DirectoryObject>, nc: string): (xs: seq<ReplObject>)
  {
    SortedByDn(Selected(objects, nc))
  }

  /** The stored objects of one name, in their order. */
  function StoredAs(objects: seq<DirectoryObject>, dn: string): (r: seq<DirectoryObject>)
  {
    if objects == [] then [] else (if objects[0].dn == dn then [objects[0]] else []) + StoredAs(objects[1..], dn)
  }

  /** The listed object carries the name, identifier and attributes of the stored one, and no USN. */
  predicate Carries(x: ReplObject, o: DirectoryObject) {
    x.dn == o.dn && x.uuid == o.uuid && x.usn == 0 && x.attributes == o.attributes
  }

  predicate CarriesAll(xs: seq<ReplObject>, os: seq<DirectoryObject>) {
    |xs| == |os| && forall i | 0 <= i < |os| :: Carries(xs[i], os[i])
  }

  ghost predicate EndsIn(dn: string, nc: string) {
    exists p :: dn == p + nc
  }

  lemma UnderIs(nc: string, dn: string)
    ensures Under(nc, dn) <==> EndsIn(dn, nc)
  {
    if Under(nc, dn) {
      assert dn == dn[..|dn| - |nc|] + nc;
    }
  }

  lemma CarriesCons(xs: seq<ReplObject>, os: seq<DirectoryObject>, x: ReplObject, o: DirectoryObject)
    requires CarriesAll(xs, os) && Carries(x, o)
    ensures CarriesAll([x] + xs, [o] + os)
  {
  }

  lemma NamedCons(x: ReplObject, xs: seq<ReplObject>, dn: string)
    ensures Named([x] + xs, dn) == if x.dn == dn then [x] + Named(xs, dn) else Named(xs, dn)
  {
    assert ([x] + xs)[1..] == xs;
  }

  /** What is stored under a name that ends in the naming context; nothing under any other name. */
  ghost function Listed(objects: seq<DirectoryObject>, nc: string, dn: string): (r: seq<DirectoryObject>)
  {
    if EndsIn(dn, nc) then StoredAs(objects, dn) else []
  }

  lemma ListedCons(objects: seq<DirectoryObject>, nc: string, dn: string)
    requires objects != []
    ensures Listed(objects, nc, dn) ==
            if EndsIn(dn, nc) && objects[0].dn == dn
            then [objects[0]] + Listed(objects[1..], nc, dn) else Listed(objects[1..], nc, dn)
  {
    hide EndsIn;
  }

  lemma SelectedCons(objects: seq<DirectoryObject>, nc: string, dn: string)
    requires objects != []
    ensures var o, rest := objects[0], Named(Selected(objects[1..], nc), dn);
            Named(Selected(objects, nc), dn) == if EndsIn(dn, nc) && o.dn == dn then [Image(o)] + rest else rest
  {
    hide EndsIn, Under, Named;
    var o, rest := objects[0], Selected(objects[1..], nc);
    UnderIs(nc, o.dn);
    if Under(nc, o.dn) {
      NamedCons(Image(o), rest, dn);
    } else {
      assert [] + rest == rest;
    }
  }

  lemma {:induction false} SelectedAs(objects: seq<DirectoryObject>, nc: string, dn: string)
    ensures CarriesAll(Named(Selected(objects, nc), dn), Listed(objects, nc, dn))
  {
    if objects != [] {
      hide EndsIn, Named, Selected, Listed, CarriesAll;
      SelectedAs(objects[1..], nc, dn);
      SelectedCons(objects, nc, dn);
      ListedCons(objects, nc, dn);
      var rest := Named(Selected(objects[1..], nc), dn);
      CarriesCons(rest, Listed(objects[1..], nc, dn), Image(objects[0]), objects[0]);
    }
  }

  lemma {:induction false} StoredElements(objects: seq<DirectoryObject>, o: DirectoryObject)
    ensures multiset(StoredAs(objects, o.dn))[o] == multiset(objects)[o]
  {
    if objects != [] {
      StoredElements(objects[1..], o);
      assert objects == [objects[0]] + objects[1..];
    }
  }

  lemma {:induction false} CarriedCount(xs: seq<ReplObject>, os: seq<DirectoryObject>, x: ReplObject)
    requires CarriesAll(xs, os)
    ensures multiset(xs)[x] == if x.usn == 0 then multiset(os)[DirectoryObject(x.dn, x.uuid, x.attributes)] else 0
  {
    if xs != [] {
      CarriedCount(xs[1..], os[1..], x);
      assert xs == [xs[0]] + xs[1..] && os == [os[0]] + os[1..];
    }
  }

  /** The listing of a naming context: in name order; under every name that ends in the naming context all
      stored objects of that name, in their order, each with its identifier and attributes and USN 0; under
      any other name nothing. So every object is listed as often as it is stored. */
  lemma ListingIs(objects: seq<DirectoryObject>, nc: string)
    ensures Ordered(ListUnderNc(objects, nc))
    ensures forall dn :: CarriesAll(Named(ListUnderNc(objects, nc), dn), Listed(objects, nc, dn))
    ensures forall x :: multiset(ListUnderNc(objects, nc))[x] ==
                        if x.usn == 0 && EndsIn(x.dn, nc)
                        then multiset(objects)[DirectoryObject(x.dn, x.uuid, x.attributes)] else 0
  {
    hide SortedByDn, Selected, Named, Ordered, CarriesAll, EndsIn, StoredAs;
    var xs := Selected(objects, nc);
    SortedIsStable(xs, []);
    forall dn
      ensures CarriesAll(Named(SortedByDn(xs), dn), Listed(objects, nc, dn))
    {
      SortedIsStable(xs, dn);
      SelectedAs(objects, nc, dn);
    }
    forall x: ReplObject
      ensures multiset(SortedByDn(xs))[x] ==
              if x.usn == 0 && EndsIn(x.dn, nc)
              then multiset(objects)[DirectoryObject(x.dn, x.uuid, x.attributes)] else 0
    {
      NamedElements(SortedByDn(xs), x);
      CarriedCount(Named(SortedByDn(xs), x.dn), Listed(objects, nc, x.dn), x);
      StoredElements(objects, DirectoryObject(x.dn, x.uuid, x.attributes));
    }
  }

  /** A listed object is a stored one. */
  lemma ListedIsStored(objects: seq<DirectoryObject>, nc: string, x: ReplObject)
    requires x in ListUnderNc(objects, nc)
    ensures x.usn == 0 && EndsIn(x.dn, nc) && DirectoryObject(x.dn, x.uuid, x.attributes) in objects
  {
    hide ListUnderNc, EndsIn, Ordered, CarriesAll;
    ListingIs(objects, nc);
    assert multiset(ListUnderNc(objects, nc))[x] > 0;
  }

  function Changes(invocation: Uuid, objects: seq<DirectoryObject>, q: Request): (y: Reply)
  {
    var all := ListUnderNc(objects, q.nc.name);
    var max := if q.limits.maxObjects == 0 then |all| else q.limits.maxObjects;
    var sent := if |all| > max then all[..max] else all;
    Reply(AsU32(|sent|), 0, sent, |all| > max,
          Vector(0, Merged([], UtdEntry(q.usn.propertyUpdate, 0, invocation))))
  }

  lemma ListOrdered(objects: seq<DirectoryObject>, nc: string)
    ensures Ordered(ListUnderNc(objects, nc))
  {
    SortedIsStable(Selected(objects, nc), []);
  }

  lemma CutComesAfter(all: seq<ReplObject>, k: nat)
    requires Ordered(all) && k <= |all|
    ensures forall x, c | x in all[..k] && c in all[k..] :: AtMost(x.dn, c.dn)
  {
    hide AtMost;
    forall x, c | x in all[..k] && c in all[k..]
      ensures AtMost(x.dn, c.dn)
    {
      var i :| 0 <= i < k && all[i] == x;
      var j :| k <= j < |all| && all[j] == c;
    }
  }

  lemma OneEntry(e: UtdEntry, g: Uuid, u: int)
    ensures Merged([], e) == [e] && (IsUpToDate([e], g, u) <==> e.dsa == g && e.usnHigh >= u)
  {
    assert [e][0] in [e];
  }

  /** The reply carries the first min(cap, size) objects of the listing, all of them when the cap is 0.
      "More data" holds exactly when something was cut, and what was cut comes after everything sent.
      Merging the reply's vector makes the destination up to date with exactly the USN it asked from. */
  lemma ReplyIs(invocation: Uuid, objects: seq<DirectoryObject>, q: Request, v: seq<UtdEntry>, g: Uuid, u: int)
    ensures var y, all := Changes(invocation, objects, q), ListUnderNc(objects, q.nc.name);
            var cap: int := q.limits.maxObjects;
            && y.objects <= all
            && |y.objects| == (if cap == 0 || |all| <= cap then |all| else cap)
            && (y.more <==> |y.objects| < |all|)
            && y.numNcs == 0 && (Counts(|y.objects|) ==> y.numObjects == |y.objects|)
            && (forall x, c | x in y.objects && c in all[|y.objects|..] :: AtMost(x.dn, c.dn))
            && (IsUpToDate(MergedAll(v, y.utd.entries), g, u) <==>
                IsUpToDate(v, g, u) || (g == invocation && q.usn.propertyUpdate >= u))
  {
    hide ListUnderNc, Ordered, IsUpToDate, MergedAll;
    ListOrdered(objects, q.nc.name);
    var y, all := Changes(invocation, objects, q), ListUnderNc(objects, q.nc.name);
    CutComesAfter(all, |y.objects|);
    MergedAllFacts(v, y.utd.entries, g, u);
    OneEntry(UtdEntry(q.usn.propertyUpdate, 0, invocation), g, u);
  }

  // ---- The handler behind the wire ----

  function Dispatch(invocation: Uuid, objects: seq<DirectoryObject>, stub: seq<byte>): (r: Result<seq<byte>, NdrError>)
  {
    var (q, _) :- RequestAt(stub, 0);
    Ok(EmitAll(0, [U32(3)] + ReplyFields(Changes(invocation, objects, q))))
  }

  /** The reader's view of a dispatched reply: the version word, then the reply. */
  function ReplyOf(bytes: seq<byte>): (r: Read<Reply>)
  {
    var (version, p) :- ReadU32(bytes, 0);
    if version != 3 then Err(BadCount) else ReplyAt(bytes, p)
  }

  /** Encoding a request, dispatching it and decoding the answer is calling the handler on the request,
      exactly when the counts of the reply fit; octets after the request are ignored. */
  lemma DispatchCommutes(invocation: Uuid, objects: seq<DirectoryObject>, q: Request, more: seq<byte>)
    requires RequestFits(q)
    ensures var r := Dispatch(invocation, objects, EmitAll(0, RequestFields(q)) + more);
            var y := Changes(invocation, objects, q);
            r.Ok? && (ReplyOf(r.value) == Ok((y, |r.value|)) <==> ReplyFits(y))
  {
    hide EmitAll, Emit, At, RequestAt, ReplyAt, RequestFields, ReplyFields, Changes, RequestFits, ReplyFits, ReadU32;
    var stub := EmitAll(0, RequestFields(q));
    WholeAt(stub, more);
    RequestReadsBack(stub + more, 0, q);
    var y := Changes(invocation, objects, q);
    var out := EmitAll(0, [U32(3)] + ReplyFields(y));
    WholeAt(out, []);
    assert out + [] == out;
    var p := Step(out, 0, U32(3), ReplyFields(y));
    ReplyReadsBack(out, p, y);
    assert End(0, [U32(3)] + ReplyFields(y)) == |out|;
    assert ReadU32(out, 0) == Ok((3, p));
  }

  /** Objects that fit, and no more of them than 32 bits count, make a reply that fits. */
  lemma ReplyAlwaysFits(invocation: Uuid, objects: seq<DirectoryObject>, q: Request)
    requires forall o | o in objects :: ObjectFits(ReplObject(o.dn, o.uuid, 0, o.attributes))
    requires q.limits.maxObjects != 0 || Counts(|ListUnderNc(objects, q.nc.name)|)
    ensures ReplyFits(Changes(invocation, objects, q))
    ensures Changes(invocation, objects, q).numObjects == |Changes(invocation, objects, q).objects|
  {
    hide ListUnderNc, ObjectFits;
    var all := ListUnderNc(objects, q.nc.name);
    forall x | x in all
      ensures ObjectFits(x)
    {
      ListedIsStored(objects, q.nc.name, x);
      assert ObjectFits(ReplObject(x.dn, x.uuid, 0, x.attributes));
    }
  }

  method DispatchChanges(invocation: Uuid, objects: seq<DirectoryObject>, stub: seq<byte>)
    returns (r: Result<seq<byte>, NdrError>)
    ensures r == Dispatch(invocation, objects, stub)
  {
    hide EmitAll, RequestAt, ReplyFields, Changes;
    var reader := new NdrReader(stub);
    var q :- DrsuapiCodec.DecodeRequest(reader);
    var y := Changes(invocation, objects, q);
    var w := new NdrWriter();
    w.WriteU32(3);
    DrsuapiCodec.EncodeReply(w, y);
    assert w.fields == [U32(3)] + ReplyFields(y);
    r := Ok(w.buf);
  }
}
