/** Request handlers that work on directory objects: candidate gathering and modification. */
module DirectoryHandlers {
  import opened Bytes
  import opened LdapMessages
  import opened SubstringMatch
  import opened DistinguishedNames

  // ---- Search candidates ----

  datatype Entry = Entry(dn: seq<byte>, attributes: seq<StoredAttribute>)

  function Select(all: seq<Entry>, keep: Entry -> bool): (r: seq<Entry>)
  {
    if all == [] then []
    else (if keep(all[0]) then [all[0]] else []) + Select(all[1..], keep)
  }

  function ScopeTest(scope: byte, base: seq<byte>): (keep: Entry -> bool)
  {
    (e: Entry) => if scope == 1 then IsChildOf(e.dn, base) else IsDescendantOf(e.dn, base)
  }

  function Found(base: Option<Entry>): (r: seq<Entry>)
  {
    if base.Some? then [base.value] else []
  }

  /** The candidates for a scope: `all` is the enumeration of the store, `found` the lookup of the base
      name. Scopes other than 0, 1 and 2 are refused. */
  function Candidates(all: seq<Entry>, found: Option<Entry>, base: seq<byte>, scope: byte)
    : (r: Result<seq<Entry>, byte>)
    ensures r.Ok? <==> scope <= 2
  {
    if scope == 0 then Ok(Found(found))
    else if scope == 1 then Ok(Select(all, ScopeTest(1, base)))
    else if scope == 2 then Ok(Select(all, ScopeTest(2, base)) + Found(found))
    else Err(scope)
  }

  lemma {:induction false} SelectMembers(all: seq<Entry>, keep: Entry -> bool, e: Entry)
    ensures e in Select(all, keep) <==> e in all && keep(e)
    ensures keep(e) ==> multiset(Select(all, keep))[e] == multiset(all)[e]
  {
    if all != [] {
      SelectMembers(all[1..], keep, e);
      assert all == [all[0]] + all[1..];
    }
  }

  lemma SelectNext(all: seq<Entry>, keep: Entry -> bool)
    requires all != []
    ensures Select(all, keep) == (if keep(all[0]) then [all[0]] else []) + Select(all[1..], keep)
  {
  }

  lemma SelectNothing(all: seq<Entry>, keep: Entry -> bool)
    requires all == []
    ensures Select(all, keep) == []
  {
  }

  /** The imperative gathering loop. */
  method GatherCandidates(all: seq<Entry>, found: Option<Entry>, base: seq<byte>, scope: byte)
    returns (r: Result<seq<Entry>, byte>)
    ensures r == Candidates(all, found, base, scope)
  {
    hide IsChildOf, IsDescendantOf, ScopeTest, Select;
    if scope == 0 {
      return Ok(Found(found));
    }
    if scope != 1 && scope != 2 {
      return Err(scope);
    }
    var keep := ScopeTest(scope, base);
    var out: seq<Entry> := [];
    for i := 0 to |all|
      invariant Select(all, keep) == out + Select(all[i..], keep)
    {
      assert all[i..][0] == all[i] && all[i..][1..] == all[i + 1..];
      SelectNext(all[i..], keep);
      Regroup(out, if keep(all[i]) then [all[i]] else [], Select(all[i + 1..], keep));
      if keep(all[i]) {
        out := out + [all[i]];
      } else {
        assert out + [] == out;
      }
    }
    SelectNothing(all[|all|..], keep);
    assert out + [] == out;
    if scope == 2 {
      out := out + Found(found);
    }
    r := Ok(out);
  }

  lemma CandidateIs(all: seq<Entry>, found: Option<Entry>, base: seq<byte>, e: Entry)
    ensures e in Candidates(all, found, base, 2).value <==>
            found == Some(e) || (e in all && IsDescendantOf(e.dn, base))
    ensures e in Candidates(all, found, base, 1).value <==> e in all && IsChildOf(e.dn, base)
    ensures e in Candidates(all, found, base, 0).value <==> found == Some(e)
  {
    hide IsDescendantOf, IsChildOf;
    SelectMembers(all, ScopeTest(2, base), e);
    SelectMembers(all, ScopeTest(1, base), e);
  }

  /** How often an entry comes back from a search of the base alone, and of one level. */
  lemma CandidateCounts(all: seq<Entry>, found: Option<Entry>, base: seq<byte>, e: Entry)
    ensures multiset(Candidates(all, found, base, 0).value)[e] == if found == Some(e) then 1 else 0
    ensures multiset(Candidates(all, found, base, 1).value)[e] == if IsChildOf(e.dn, base) then multiset(all)[e] else 0
  {
    hide IsChildOf;
    SelectMembers(all, ScopeTest(1, base), e);
  }

  /** One-level and subtree searches list the store in its order: a store of two halves gives the listing of
      the one before that of the other. */
  lemma {:induction false} SelectInOrder(a: seq<Entry>, b: seq<Entry>, keep: Entry -> bool)
    ensures Select(a + b, keep) == Select(a, keep) + Select(b, keep)
    decreases |a|
  {
    if a == [] {
      assert a + b == b && [] + Select(b, keep) == Select(b, keep);
    } else {
      SelectInOrder(a[1..], b, keep);
      assert (a + b)[1..] == a[1..] + b && (a + b)[0] == a[0];
      var one := if keep(a[0]) then [a[0]] else [];
      SelectNext(a, keep);
      SelectNext(a + b, keep);
      Regroup(one, Select(a[1..], keep), Select(b, keep));
    }
  }

  /** As a set, a subtree search returns the looked-up base and exactly the stored entries with a
      normalised name from which steps to a parent name, stored or not, lead to the base. */
  lemma SubtreeIsClosure(all: seq<Entry>, found: Option<Entry>, p: seq<seq<byte>>, c: seq<seq<byte>>, e: Entry)
    requires Normal(p) && Normal(c) && e.dn == Join(c)
    ensures e in Candidates(all, found, Join(p), 2).value <==>
            found == Some(e) || (e in all && c != [] && exists k: nat :: Reaches(c, p, k))
  {
    hide IsDescendantOf, Reaches, Candidates;
    CandidateIs(all, found, Join(p), e);
    DescendantIsClosure(c, p);
  }

  // ---- Subtree searches as repeated one-level searches ----

  /** Round `k` of one-level searches: the first starts at the base, each next one at every entry the
      round before returned. */
  ghost predicate Gathered(all: seq<Entry>, base: seq<byte>, e: Entry, k: nat)
    decreases k
  {
    k > 0 &&
    if k == 1 then e in Candidates(all, None, base, 1).value
    else exists d | d in all :: Gathered(all, base, d, k - 1) && e in Candidates(all, None, d.dn, 1).value
  }

  ghost predicate NormalStore(all: seq<Entry>) {
    forall e | e in all :: exists c :: Normal(c) && e.dn == Join(c)
  }

  /** Below the base, and not the base under another spelling. */
  predicate Below(e: Entry, base: seq<byte>) {
    IsDescendantOf(e.dn, base) && Lower(e.dn) != Lower(base)
  }

  /** Every stored entry below the base is its child or has its own parent stored. */
  predicate NoOrphans(all: seq<Entry>, base: seq<byte>) {
    forall e | e in all && Below(e, base) ::
      IsChildOf(e.dn, base) || exists d | d in all :: IsChildOf(e.dn, d.dn)
  }

  lemma BelowIs(e: Entry, c: seq<seq<byte>>, p: seq<seq<byte>>)
    requires Normal(c) && Normal(p) && e.dn == Join(c)
    ensures Below(e, Join(p)) <==> |c| > |p| && IsSuffix(LowerAll(p), LowerAll(c))
  {
    hide IsDescendantOf, Join, LowerAll;
    ScopeTests(c, p);
    LowerJoin(c);
    LowerJoin(p);
    LowerAllNormal(c);
    LowerAllNormal(p);
    if Lower(Join(c)) == Lower(Join(p)) {
      JoinInjective(LowerAll(c), LowerAll(p));
    }
    if |c| == |p| && IsSuffix(LowerAll(p), LowerAll(c)) {
      assert LowerAll(c)[0..] == LowerAll(c);
    }
  }

  lemma SuffixesNest(a: seq<seq<byte>>, b: seq<seq<byte>>, c: seq<seq<byte>>)
    requires IsSuffix(a, c) && IsSuffix(b, c) && |a| <= |b|
    ensures IsSuffix(a, b)
  {
    assert b[|b| - |a|..] == c[|c| - |b|..][|b| - |a|..] == c[|c| - |a|..];
  }

  lemma {:induction false} GatheredIsBelow(all: seq<Entry>, p: seq<seq<byte>>, e: Entry, c: seq<seq<byte>>, k: nat)
    requires Normal(p) && Normal(c) && e.dn == Join(c) && NormalStore(all) && Gathered(all, Join(p), e, k)
    ensures e in all && |c| == |p| + k && IsSuffix(LowerAll(p), LowerAll(c))
    decreases k
  {
    hide Candidates, IsChildOf, Join, LowerAll;
    if k == 1 {
      CandidateIs(all, None, Join(p), e);
      ScopeTests(c, p);
    } else {
      var d :| d in all && Gathered(all, Join(p), d, k - 1) && e in Candidates(all, None, d.dn, 1).value;
      var cd :| Normal(cd) && d.dn == Join(cd);
      GatheredIsBelow(all, p, d, cd, k - 1);
      CandidateIs(all, None, d.dn, e);
      ScopeTests(c, cd);
      SuffixTransitive(LowerAll(p), LowerAll(cd), LowerAll(c));
    }
  }

  lemma {:induction false} BelowIsGathered(all: seq<Entry>, p: seq<seq<byte>>, e: Entry, c: seq<seq<byte>>, k: nat)
    requires Normal(p) && Normal(c) && e.dn == Join(c) && NormalStore(all) && NoOrphans(all, Join(p))
    requires e in all && k > 0 && |c| == |p| + k && IsSuffix(LowerAll(p), LowerAll(c))
    ensures Gathered(all, Join(p), e, k)
    decreases k
  {
    hide Candidates, IsChildOf, IsDescendantOf, Join, LowerAll, Below;
    CandidateIs(all, None, Join(p), e);
    ScopeTests(c, p);
    if k > 1 {
      BelowIs(e, c, p);
      var d :| d in all && IsChildOf(e.dn, d.dn);
      var cd :| Normal(cd) && d.dn == Join(cd);
      ScopeTests(c, cd);
      SuffixesNest(LowerAll(p), LowerAll(cd), LowerAll(c));
      BelowIsGathered(all, p, d, cd, k - 1);
      CandidateIs(all, None, d.dn, e);
    }
  }

  /** What the base itself contributes: the looked-up entry, and, except at the root, whatever is stored
      under its name. */
  predicate AtBase(found: Option<Entry>, base: seq<byte>, e: Entry) {
    found == Some(e) || (base != [] && Lower(e.dn) == Lower(base))
  }

  /** The subtree search returns what repeated one-level searches return, with the base. */
  ghost predicate SubtreeIsRepeated(all: seq<Entry>, found: Option<Entry>, base: seq<byte>) {
    forall e :: e in Candidates(all, found, base, 2).value <==>
                found == Some(e) || (e in all && (AtBase(found, base, e) || exists k: nat :: Gathered(all, base, e, k)))
  }

  lemma RepeatedAt(all: seq<Entry>, found: Option<Entry>, p: seq<seq<byte>>, e: Entry)
    requires Normal(p) && NormalStore(all) && NoOrphans(all, Join(p)) && found != Some(e)
    ensures e in Candidates(all, found, Join(p), 2).value <==>
            e in all && (AtBase(found, Join(p), e) || exists k: nat :: Gathered(all, Join(p), e, k))
  {
    hide Candidates, NoOrphans, Below, Gathered;
    CandidateIs(all, found, Join(p), e);
    if e in all {
      var c :| Normal(c) && e.dn == Join(c);
      BelowIs(e, c, p);
      BelowSplits(e, Join(p));
      if Below(e, Join(p)) {
        BelowIsGathered(all, p, e, c, |c| - |p|);
      }
      if exists k: nat :: Gathered(all, Join(p), e, k) {
        var k: nat :| Gathered(all, Join(p), e, k);
        GatheredIsPositive(all, Join(p), e, k);
        GatheredIsBelow(all, p, e, c, k);
      }
    }
  }

  lemma GatheredIsPositive(all: seq<Entry>, base: seq<byte>, e: Entry, k: nat)
    requires Gathered(all, base, e, k)
    ensures k > 0
  {
  }

  lemma BelowSplits(e: Entry, base: seq<byte>)
    ensures IsDescendantOf(e.dn, base) <==> Below(e, base) || (base != [] && Lower(e.dn) == Lower(base))
  {
    assert |Lower(base)| == |base| && |Lower(e.dn)| == |e.dn|;
  }

  /** A subtree search and repeated one-level searches return the same entries exactly when no stored
      entry below the base lacks its parent. */
  lemma SubtreeIsIterated(all: seq<Entry>, found: Option<Entry>, p: seq<seq<byte>>)
    requires Normal(p) && NormalStore(all) && (found.Some? ==> Lower(found.value.dn) == Lower(Join(p)))
    ensures SubtreeIsRepeated(all, found, Join(p)) <==> NoOrphans(all, Join(p))
  {
    hide Candidates, IsDescendantOf, IsChildOf, Gathered, Join;
    var base := Join(p);
    if NoOrphans(all, base) {
      forall e
        ensures e in Candidates(all, found, base, 2).value <==>
                found == Some(e) || (e in all && (AtBase(found, base, e) || exists k: nat :: Gathered(all, base, e, k)))
      {
        CandidateIs(all, found, base, e);
        if found != Some(e) {
          RepeatedAt(all, found, p, e);
        }
      }
    }
    if SubtreeIsRepeated(all, found, base) {
      forall e | e in all && Below(e, base)
        ensures IsChildOf(e.dn, base) || exists d | d in all :: IsChildOf(e.dn, d.dn)
      {
        CandidateIs(all, found, base, e);
        var k: nat :| Gathered(all, base, e, k);
        LastRound(all, base, e, k);
      }
    }
  }

  lemma LastRound(all: seq<Entry>, base: seq<byte>, e: Entry, k: nat)
    requires Gathered(all, base, e, k)
    ensures IsChildOf(e.dn, base) || exists d | d in all :: IsChildOf(e.dn, d.dn)
  {
    hide Candidates, IsChildOf;
    CandidateIs(all, None, base, e);
    if k > 1 {
      var d :| d in all && Gathered(all, base, d, k - 1) && e in Candidates(all, None, d.dn, 1).value;
      CandidateIs(all, None, d.dn, e);
    }
  }

  /** A name two levels below another. */
  lemma OrphanNames(p: seq<seq<byte>>, a: seq<byte>, b: seq<byte>)
    requires Normal(p) && NormalRdn(a) && NormalRdn(b)
    ensures var c := [a, b] + p;
            && Normal(c) && IsSuffix(LowerAll(p), LowerAll(c)) && IsDescendantOf(Join(c), Join(p))
            && !IsChildOf(Join(c), Join(p)) && !IsChildOf(Join(p), Join(p)) && !IsChildOf(Join(c), Join(c))
  {
    hide IsDescendantOf, IsChildOf, Join;
    var c := [a, b] + p;
    assert Normal(c);
    assert LowerAll(c)[2..] == LowerAll(p);
    ScopeTests(c, p);
    ScopeTests(p, p);
    ScopeTests(c, c);
  }

  /** A store with an entry two levels below the base and nothing between: the subtree search returns it,
      the one-level search of the base returns nothing. */
  lemma OrphanIsMissed(p: seq<seq<byte>>, a: seq<byte>, b: seq<byte>, top: Entry, e: Entry)
    requires Normal(p) && p != [] && NormalRdn(a) && NormalRdn(b)
    requires top.dn == Join(p) && e.dn == Join([a, b] + p)
    ensures e in Candidates([top, e], Some(top), top.dn, 2).value
    ensures Candidates([top, e], None, top.dn, 1).value == []
    ensures !SubtreeIsRepeated([top, e], Some(top), top.dn)
  {
    hide IsDescendantOf, IsChildOf, Join, SubtreeIsRepeated, Candidates, Below, LowerAll, IsSuffix, Normal;
    var c, all := [a, b] + p, [top, e];
    OrphanNames(p, a, b);
    BelowIs(e, c, p);
    CandidateIs(all, Some(top), top.dn, e);
    NothingSelected(all, top.dn);
    assert e in all && Below(e, top.dn);
    assert !NoOrphans(all, top.dn);
    StoreIsNormal(p, c, top, e);
    SubtreeIsIterated(all, Some(top), p);
  }

  lemma StoreIsNormal(p: seq<seq<byte>>, c: seq<seq<byte>>, top: Entry, e: Entry)
    requires Normal(p) && Normal(c) && top.dn == Join(p) && e.dn == Join(c)
    ensures NormalStore([top, e])
  {
    hide Join, Normal;
  }

  lemma NothingSelected(all: seq<Entry>, base: seq<byte>)
    requires forall e | e in all :: !IsChildOf(e.dn, base)
    ensures Candidates(all, None, base, 1).value == []
  {
    hide IsChildOf;
    var r := Candidates(all, None, base, 1).value;
    if r != [] {
      CandidateIs(all, None, base, r[0]);
    }
  }

  // ---- Subtree searches as lists ----

  /** How often an entry comes back: as often as it is stored below the base, and once more when the
      lookup of the base found it. */
  lemma BaseComesBackTwice(all: seq<Entry>, found: Option<Entry>, base: seq<byte>, e: Entry)
    ensures multiset(Candidates(all, found, base, 2).value)[e] ==
            (if IsDescendantOf(e.dn, base) then multiset(all)[e] else 0) + (if found == Some(e) then 1 else 0)
  {
    hide IsDescendantOf;
    var keep := ScopeTest(2, base);
    SelectMembers(all, keep, e);
    assert multiset(Select(all, keep) + Found(found)) == multiset(Select(all, keep)) + multiset(Found(found));
  }

  /** Every candidate comes back as often as it is stored. */
  ghost predicate ComesBackAsStored(all: seq<Entry>, found: Option<Entry>, base: seq<byte>) {
    forall e | e in Candidates(all, found, base, 2).value ::
      multiset(Candidates(all, found, base, 2).value)[e] == multiset(all)[e]
  }

  /** That is so exactly when the lookup found nothing, or found an entry that the scope test does not
      list and that is stored once. Away from the root the entry found has the base's name and is listed, so
      there it is so exactly when the lookup found nothing. */
  lemma ComesBackAsStoredWhen(all: seq<Entry>, found: Option<Entry>, base: seq<byte>)
    ensures ComesBackAsStored(all, found, base) <==>
            found.None? || (!IsDescendantOf(found.value.dn, base) && multiset(all)[found.value] == 1)
    ensures base != [] && (found.Some? ==> Lower(found.value.dn) == Lower(base)) ==>
              (ComesBackAsStored(all, found, base) <==> found.None?)
  {
    hide IsDescendantOf, Candidates;
    forall e
      ensures e in Candidates(all, found, base, 2).value <==>
              found == Some(e) || (e in all && IsDescendantOf(e.dn, base))
      ensures multiset(Candidates(all, found, base, 2).value)[e] ==
              (if IsDescendantOf(e.dn, base) then multiset(all)[e] else 0) + (if found == Some(e) then 1 else 0)
    {
      CandidateIs(all, found, base, e);
      BaseComesBackTwice(all, found, base, e);
    }
    if found.Some? {
      BelowSplits(found.value, base);
      assert found.value in Candidates(all, found, base, 2).value;
    }
  }

  // ---- Modification (section 4.6 of RFC 4511) ----

  function Pushed(attributes: seq<StoredAttribute>, name: seq<byte>, values: seq<seq<byte>>): (r: seq<StoredAttribute>)
    decreases |values|
  {
    if values == [] then attributes
    else Pushed(attributes + [StoredAttribute(name, values[0])], name, values[1..])
  }

  /** What survives the deletion of `values` of `name`, or of all its values when none are listed. */
  function Retained(attributes: seq<StoredAttribute>, name: seq<byte>, values: seq<seq<byte>>)
    : (r: seq<StoredAttribute>)
  {
    if attributes == [] then []
    else
      var a := attributes[0];
      (if SameName(a.name, name) && (values == [] || a.value in values) then [] else [a])
      + Retained(attributes[1..], name, values)
  }

  lemma RetainedNext(attributes: seq<StoredAttribute>, name: seq<byte>, values: seq<seq<byte>>)
    ensures Retained(attributes, name, values) ==
            if attributes == [] then []
            else
              (if SameName(attributes[0].name, name) && (values == [] || attributes[0].value in values)
               then [] else [attributes[0]]) + Retained(attributes[1..], name, values)
  {
    hide SameName;
  }

  function Applied(attributes: seq<StoredAttribute>, c: Change): (r: seq<StoredAttribute>)
  {
    var Attribute(name, values) := c.modification;
    match c.operation
    case AddValues => Pushed(attributes, name, values)
    case DeleteValues => Retained(attributes, name, values)
    case ReplaceValues => Pushed(Retained(attributes, name, []), name, values)
  }

  function AppliedAll(attributes: seq<StoredAttribute>, changes: seq<Change>): (r: seq<StoredAttribute>)
    decreases |changes|
  {
    if changes == [] then attributes else AppliedAll(Applied(attributes, changes[0]), changes[1..])
  }

  /** The values of one attribute, in order. */
  function ValuesOf(attributes: seq<StoredAttribute>, name: seq<byte>): (vs: seq<seq<byte>>)
  {
    if attributes == [] then []
    else (if SameName(attributes[0].name, name) then [attributes[0].value] else []) + ValuesOf(attributes[1..], name)
  }

  function Without(vs: seq<seq<byte>>, drop: seq<seq<byte>>): (r: seq<seq<byte>>)
  {
    if vs == [] then [] else (if vs[0] in drop then [] else [vs[0]]) + Without(vs[1..], drop)
  }

  /** What one change means for the values of the attribute it names. */
  function Step(vs: seq<seq<byte>>, c: Change): (r: seq<seq<byte>>)
  {
    match c.operation
    case AddValues => vs + c.modification.values
    case DeleteValues => if c.modification.values == [] then [] else Without(vs, c.modification.values)
    case ReplaceValues => c.modification.values
  }

  /** The changes that name `name`, folded over a list of values. */
  function Folding(vs: seq<seq<byte>>, changes: seq<Change>, name: seq<byte>): (r: seq<seq<byte>>)
    decreases |changes|
  {
    if changes == [] then vs
    else
      Folding(if SameName(changes[0].modification.name, name) then Step(vs, changes[0]) else vs, changes[1..], name)
  }

  lemma {:induction false} ValuesAppend(a: seq<StoredAttribute>, b: seq<StoredAttribute>, name: seq<byte>)
    ensures ValuesOf(a + b, name) == ValuesOf(a, name) + ValuesOf(b, name)
  {
    hide SameName, ValuesOf;
    ValuesNext(a, name);
    ValuesNext(a + b, name);
    if a == [] {
      assert a + b == b && [] + ValuesOf(b, name) == ValuesOf(b, name);
    } else {
      assert (a + b)[1..] == a[1..] + b && (a + b)[0] == a[0];
      ValuesAppend(a[1..], b, name);
      var one := if SameName(a[0].name, name) then [a[0].value] else [];
      Regroup(one, ValuesOf(a[1..], name), ValuesOf(b, name));
    }
  }

  lemma ValuesNext(attributes: seq<StoredAttribute>, name: seq<byte>)
    ensures ValuesOf(attributes, name) ==
            if attributes == [] then []
            else
              (if SameName(attributes[0].name, name) then [attributes[0].value] else [])
              + ValuesOf(attributes[1..], name)
  {
    hide SameName;
  }

  lemma {:induction false} PushedValues(attributes: seq<StoredAttribute>, n: seq<byte>, values: seq<seq<byte>>,
                                        name: seq<byte>)
    ensures ValuesOf(Pushed(attributes, n, values), name)
            == ValuesOf(attributes, name) + if SameName(n, name) then values else []
    decreases |values|
  {
    hide SameName;
    if values == [] {
      assert ValuesOf(attributes, name) + [] == ValuesOf(attributes, name);
    } else {
      var one := [StoredAttribute(n, values[0])];
      PushedValues(attributes + one, n, values[1..], name);
      ValuesAppend(attributes, one, name);
      assert one[1..] == [];
      assert [values[0]] + values[1..] == values;
    }
  }

  lemma {:induction false} RetainedValues(attributes: seq<StoredAttribute>, n: seq<byte>, drop: seq<seq<byte>>,
                                          name: seq<byte>)
    ensures ValuesOf(Retained(attributes, n, drop), name)
            == if !SameName(n, name) then ValuesOf(attributes, name)
               else if drop == [] then [] else Without(ValuesOf(attributes, name), drop)
  {
    if attributes != [] {
      var a, rest := attributes[0], Retained(attributes[1..], n, drop);
      RetainedValues(attributes[1..], n, drop, name);
      WithoutCons(a.value, ValuesOf(attributes[1..], name), drop);
      assert ([a] + rest)[1..] == rest;
      assert [] + rest == rest && [] + ValuesOf(attributes[1..], name) == ValuesOf(attributes[1..], name);
      assert SameName(a.name, n) ==> (SameName(a.name, name) <==> SameName(n, name));
    }
  }

  lemma WithoutCons(v: seq<byte>, vs: seq<seq<byte>>, drop: seq<seq<byte>>)
    ensures Without([v] + vs, drop) == (if v in drop then [] else [v]) + Without(vs, drop)
  {
    assert ([v] + vs)[1..] == vs;
  }

  /** One change acts on the attribute it names and on nothing else. */
  lemma AppliedValues(attributes: seq<StoredAttribute>, c: Change, name: seq<byte>)
    ensures ValuesOf(Applied(attributes, c), name)
            == if SameName(c.modification.name, name) then Step(ValuesOf(attributes, name), c)
               else ValuesOf(attributes, name)
  {
    hide SameName, ValuesOf, Pushed, Retained, Without;
    var Attribute(n, values) := c.modification;
    PushedValues(attributes, n, values, name);
    RetainedValues(attributes, n, values, name);
    RetainedValues(attributes, n, [], name);
    PushedValues(Retained(attributes, n, []), n, values, name);
    assert [] + values == values;
    assert ValuesOf(attributes, name) + [] == ValuesOf(attributes, name);
  }

  /** Any list of changes acts independently per attribute: the values of `name` afterwards are the fold
      of the changes that name it, in order, over the values it had. */
  lemma {:induction false} ModifyPerAttribute(attributes: seq<StoredAttribute>, changes: seq<Change>, name: seq<byte>)
    ensures ValuesOf(AppliedAll(attributes, changes), name) == Folding(ValuesOf(attributes, name), changes, name)
    decreases |changes|
  {
    hide SameName, ValuesOf, Applied, Step;
    if changes != [] {
      AppliedValues(attributes, changes[0], name);
      ModifyPerAttribute(Applied(attributes, changes[0]), changes[1..], name);
    }
  }

  /** The stored attributes that are not called `name`, spelling and order included. */
  function Others(attributes: seq<StoredAttribute>, name: seq<byte>): (r: seq<StoredAttribute>)
  {
    Retained(attributes, name, [])
  }

  lemma {:induction false} OthersAppend(a: seq<StoredAttribute>, b: seq<StoredAttribute>, name: seq<byte>)
    ensures Others(a + b, name) == Others(a, name) + Others(b, name)
  {
    hide SameName, Others;
    OthersNext(a, name);
    OthersNext(a + b, name);
    if a == [] {
      assert a + b == b && [] + Others(b, name) == Others(b, name);
    } else {
      assert (a + b)[1..] == a[1..] + b && (a + b)[0] == a[0];
      OthersAppend(a[1..], b, name);
      var one := if SameName(a[0].name, name) then [] else [a[0]];
      Regroup(one, Others(a[1..], name), Others(b, name));
    }
  }

  lemma OthersNext(attributes: seq<StoredAttribute>, name: seq<byte>)
    ensures Others(attributes, name) ==
            if attributes == [] then []
            else (if SameName(attributes[0].name, name) then [] else [attributes[0]]) + Others(attributes[1..], name)
  {
    hide SameName;
  }

  lemma {:induction false} PushedOthers(attributes: seq<StoredAttribute>, name: seq<byte>, values: seq<seq<byte>>)
    ensures Others(Pushed(attributes, name, values), name) == Others(attributes, name)
    decreases |values|
  {
    if values != [] {
      var one := [StoredAttribute(name, values[0])];
      PushedOthers(attributes + one, name, values[1..]);
      OthersAppend(attributes, one, name);
      assert Others(one, name) == [] + Others(one[1..], name) == [];
    }
  }

  lemma {:induction false} RetainedOthers(attributes: seq<StoredAttribute>, name: seq<byte>, drop: seq<seq<byte>>)
    ensures Others(Retained(attributes, name, drop), name) == Others(attributes, name)
  {
    if attributes != [] {
      var a, rest := attributes[0], Retained(attributes[1..], name, drop);
      RetainedOthers(attributes[1..], name, drop);
      assert ([a] + rest)[1..] == rest && [] + rest == rest;
    }
  }

  /** Every stored attribute of another name is untouched: same spelling, same value, same order. */
  lemma ChangeLeavesOthers(attributes: seq<StoredAttribute>, c: Change)
    ensures Others(Applied(attributes, c), c.modification.name) == Others(attributes, c.modification.name)
  {
    hide Pushed, Retained, Others;
    var Attribute(n, values) := c.modification;
    PushedOthers(attributes, n, values);
    RetainedOthers(attributes, n, values);
    RetainedOthers(attributes, n, []);
    PushedOthers(Retained(attributes, n, []), n, values);
  }

  /** A stored object, modified in place. */
  class StoredObject {
    var attributes: seq<StoredAttribute>

    constructor (attributes: seq<StoredAttribute>)
      ensures this.attributes == attributes
    {
      this.attributes := attributes;
    }

    method Push(name: seq<byte>, values: seq<seq<byte>>)
      modifies this
      ensures attributes == Pushed(old(attributes), name, values)
    {
      for i := 0 to |values|
        invariant Pushed(attributes, name, values[i..]) == Pushed(old(attributes), name, values)
      {
        assert values[i..][0] == values[i] && values[i..][1..] == values[i + 1..];
        attributes := attributes + [StoredAttribute(name, values[i])];
      }
    }

    method Retain(name: seq<byte>, values: seq<seq<byte>>)
      modifies this
      ensures attributes == Retained(old(attributes), name, values)
    {
      hide SameName, Retained;
      var kept: seq<StoredAttribute> := [];
      for i := 0 to |attributes|
        invariant attributes == old(attributes)
        invariant Retained(attributes, name, values) == kept + Retained(attributes[i..], name, values)
      {
        var a, rest := attributes[i], attributes[i + 1..];
        assert attributes[i..][0] == a && attributes[i..][1..] == rest;
        RetainedNext(attributes[i..], name, values);
        var drops := SameName(a.name, name) && (values == [] || a.value in values);
        Regroup(kept, if drops then [] else [a], Retained(rest, name, values));
        if !drops {
          kept := kept + [a];
        } else {
          assert kept + [] == kept;
        }
      }
      RetainedNext(attributes[|attributes|..], name, values);
      assert kept + [] == kept;
      attributes := kept;
    }

    method Apply(c: Change)
      modifies this
      ensures attributes == Applied(old(attributes), c)
    {
      var Attribute(name, values) := c.modification;
      match c.operation {
        case AddValues => Push(name, values);
        case DeleteValues => Retain(name, values);
        case ReplaceValues =>
          Retain(name, []);
          Push(name, values);
      }
    }

    method ApplyAll(changes: seq<Change>)
      modifies this
      ensures attributes == AppliedAll(old(attributes), changes)
      ensures forall name :: ValuesOf(attributes, name) == Folding(ValuesOf(old(attributes), name), changes, name)
    {
      for i := 0 to |changes|
        invariant AppliedAll(attributes, changes[i..]) == AppliedAll(old(attributes), changes)
      {
        assert changes[i..][0] == changes[i] && changes[i..][1..] == changes[i + 1..];
        Apply(changes[i]);
      }
      forall name
        ensures ValuesOf(attributes, name) == Folding(ValuesOf(old(attributes), name), changes, name)
      {
        ModifyPerAttribute(old(attributes), changes, name);
      }
    }
  }
}
