/** What search filters mean: the laws of evaluation, the evaluator, and the meaning of a filter's text. */
module FilterMeaning {
  import opened Bytes
  import opened Utf8
  import opened Filters
  import opened SubstringMatch
  import opened FilterText
  import opened FilterValues

  type Entry = seq<StoredAttribute>

  // ---- Connectives ----

  /** A conjunction holds when all its members hold, a disjunction when one does, a negation when its member
      does not. */
  lemma ConnectiveLaws(view: View, e: Entry, f: Filter, fs: seq<Filter>)
    ensures Matches(view, e, And([])) && !Matches(view, e, Or([]))
    ensures Matches(view, e, And([f] + fs)) <==> Matches(view, e, f) && Matches(view, e, And(fs))
    ensures Matches(view, e, Or([f] + fs)) <==> Matches(view, e, f) || Matches(view, e, Or(fs))
    ensures Matches(view, e, Not(f)) <==> !Matches(view, e, f)
  {
    assert forall s :: s in [f] + fs <==> s == f || s in fs;
    assert f in [f] + fs;
  }

  /** The filter, or its negation, with every Not pushed inwards to a single test. */
  function Pushed(f: Filter, negated: bool): (r: Filter)
    decreases f, 1
  {
    match f
    case And(subs) => if negated then Or(PushedAll(subs, true)) else And(PushedAll(subs, false))
    case Or(subs) => if negated then And(PushedAll(subs, true)) else Or(PushedAll(subs, false))
    case Not(inner) => Pushed(inner, !negated)
    case _ => if negated then Not(f) else f
  }

  function PushedAll(fs: seq<Filter>, negated: bool): (r: seq<Filter>)
    decreases fs, 0
  {
    if fs == [] then [] else [Pushed(fs[0], negated)] + PushedAll(fs[1..], negated)
  }

  /** Every Not stands on a single test. */
  predicate NotsInside(f: Filter)
    decreases f
  {
    match f
    case And(subs) => forall s | s in subs :: NotsInside(s)
    case Or(subs) => forall s | s in subs :: NotsInside(s)
    case Not(inner) => Simple(inner)
    case _ => true
  }

  /** Pushing negations inwards keeps the verdict. */
  lemma {:induction false} PushedMatches(view: View, e: Entry, f: Filter, negated: bool)
    ensures NotsInside(Pushed(f, negated))
    ensures Matches(view, e, Pushed(f, negated)) <==> Matches(view, e, f) != negated
    decreases f, 1
  {
    match f
    case And(subs) => PushedAllMatch(view, e, subs, negated);
    case Or(subs) => PushedAllMatch(view, e, subs, negated);
    case Not(inner) => PushedMatches(view, e, inner, !negated);
    case _ =>
  }

  lemma {:induction false} PushedAllMatch(view: View, e: Entry, fs: seq<Filter>, negated: bool)
    ensures forall s | s in PushedAll(fs, negated) :: NotsInside(s)
    ensures Matches(view, e, And(PushedAll(fs, negated))) <==> forall s | s in fs :: Matches(view, e, s) != negated
    ensures Matches(view, e, Or(PushedAll(fs, negated))) <==> exists s | s in fs :: Matches(view, e, s) != negated
    decreases fs, 0
  {
    if fs != [] {
      var f, rest := fs[0], fs[1..];
      PushedMatches(view, e, f, negated);
      PushedAllMatch(view, e, rest, negated);
      ConnectiveLaws(view, e, Pushed(f, negated), PushedAll(rest, negated));
      assert forall s :: s in fs <==> s == f || s in rest;
    }
  }

  // ---- Single tests ----

  /** A single test holds of an entry when it holds of one of its values. */
  lemma SomeValue(view: View, e: Entry, f: Filter)
    requires Simple(f)
    ensures Matches(view, e, f) <==> exists a | a in e :: Matches(view, [a], f)
  {
    hide ValueMatches, SameName;
    forall a
      ensures Matches(view, [a], f) <==> SameName(a.name, f.attribute) && ValueMatches(view, f, a.value)
    {
      assert a in [a];
    }
  }

  predicate SameLetter(x: byte, y: byte) {
    x == y || (0x41 <= x <= 0x5A && y == x + 0x20) || (0x41 <= y <= 0x5A && x == y + 0x20)
  }

  /** Equal up to the case of ASCII letters. */
  predicate SameLetters(a: seq<byte>, b: seq<byte>) {
    |a| == |b| && forall i | 0 <= i < |a| :: SameLetter(a[i], b[i])
  }

  lemma LowerIs(a: seq<byte>, b: seq<byte>)
    ensures Lower(a) == Lower(b) <==> SameLetters(a, b)
  {
    if Lower(a) == Lower(b) {
      forall i | 0 <= i < |a|
        ensures SameLetter(a[i], b[i])
      {
        assert Lower(a)[i] == Lower(b)[i];
      }
    }
    if SameLetters(a, b) {
      assert forall i | 0 <= i < |a| :: Lower(a)[i] == Lower(b)[i];
    }
  }

  /** Lexicographically less. */
  ghost predicate Precedes(a: seq<byte>, b: seq<byte>) {
    a < b || LowerFirst(a, b)
  }

  lemma {:induction false} LessTotal(a: seq<byte>, b: seq<byte>)
    ensures !Less(a, b) <==> a == b || Less(b, a)
  {
    if a != [] && b != [] {
      LessTotal(a[1..], b[1..]);
      assert a == [a[0]] + a[1..] && b == [b[0]] + b[1..];
    }
  }

  lemma OrderIs(a: seq<byte>, b: seq<byte>)
    ensures !Less(a, b) <==> a == b || Precedes(b, a)
  {
    hide Less, LowerFirst;
    LessTotal(a, b);
    LessIs(b, a);
  }

  lemma OneHolds(view: View, a: StoredAttribute, f: Filter)
    requires Simple(f)
    ensures Matches(view, [a], f) <==> SameLetters(a.name, f.attribute) && ValueMatches(view, f, a.value)
  {
    hide ValueMatches, Lower, SameLetters;
    LowerIs(a.name, f.attribute);
    assert a in [a];
  }

  /** What a single test says of one value. */
  lemma OneValue(view: View, a: StoredAttribute, name: Utf8String, b: seq<byte>)
    ensures Matches(view, [a], Present(name)) <==> SameLetters(a.name, name)
    ensures Matches(view, [a], Equality(name, b)) <==> SameLetters(a.name, name) && a.value == b
    ensures Matches(view, [a], Approx(name, b)) <==>
            SameLetters(a.name, name) && SameLetters(view(a.value), view(b))
    ensures Matches(view, [a], GreaterOrEqual(name, b)) <==>
            SameLetters(a.name, name) && (view(a.value) == view(b) || Precedes(view(b), view(a.value)))
    ensures Matches(view, [a], LessOrEqual(name, b)) <==>
            SameLetters(a.name, name) && (view(a.value) == view(b) || Precedes(view(a.value), view(b)))
  {
    hide Matches, Lower, SameLetters, Less, Precedes;
    LowerIs(view(a.value), view(b));
    OrderIs(view(a.value), view(b));
    OrderIs(view(b), view(a.value));
    OneHolds(view, a, Present(name));
    OneHolds(view, a, Equality(name, b));
    OneHolds(view, a, Approx(name, b));
    OneHolds(view, a, GreaterOrEqual(name, b));
    OneHolds(view, a, LessOrEqual(name, b));
  }

  /** An equality is the strongest test of a value, and a presence the weakest. */
  lemma TestStrength(view: View, e: Entry, name: Utf8String, b: seq<byte>)
    ensures Matches(view, e, Equality(name, b)) ==>
              && Matches(view, e, Approx(name, b))
              && Matches(view, e, GreaterOrEqual(name, b)) && Matches(view, e, LessOrEqual(name, b))
    ensures (Matches(view, e, Approx(name, b)) || Matches(view, e, GreaterOrEqual(name, b))
             || Matches(view, e, LessOrEqual(name, b))) ==> Matches(view, e, Present(name))
  {
    hide Matches, SameLetters, Precedes;
    SomeValue(view, e, Present(name));
    SomeValue(view, e, Equality(name, b));
    SomeValue(view, e, Approx(name, b));
    SomeValue(view, e, GreaterOrEqual(name, b));
    SomeValue(view, e, LessOrEqual(name, b));
    forall a | a in e
      ensures Matches(view, [a], Equality(name, b)) ==>
                && Matches(view, [a], Approx(name, b))
                && Matches(view, [a], GreaterOrEqual(name, b)) && Matches(view, [a], LessOrEqual(name, b))
      ensures (Matches(view, [a], Approx(name, b)) || Matches(view, [a], GreaterOrEqual(name, b))
               || Matches(view, [a], LessOrEqual(name, b))) ==> Matches(view, [a], Present(name))
    {
      OneValue(view, a, name, b);
      SameLettersSelf(view(b));
    }
  }

  lemma SameLettersSelf(a: seq<byte>)
    ensures SameLetters(a, a)
  {
  }

  /** Of one value, some ordering of a bound always holds, and both hold exactly when the texts are equal. */
  lemma OrderingsMeet(view: View, a: StoredAttribute, name: Utf8String, b: seq<byte>)
    requires SameLetters(a.name, name)
    ensures Matches(view, [a], GreaterOrEqual(name, b)) || Matches(view, [a], LessOrEqual(name, b))
    ensures Matches(view, [a], GreaterOrEqual(name, b)) && Matches(view, [a], LessOrEqual(name, b)) <==>
            view(a.value) == view(b)
  {
    hide Matches, SameLetters, Precedes, Less;
    OneValue(view, a, name, b);
    OrderIs(view(a.value), view(b));
    OrderIs(view(b), view(a.value));
    LessTotal(view(a.value), view(b));
    LessTotal(view(b), view(a.value));
  }

  // ---- The parts of a substring pattern ----

  /** Of several initial or final parts the last one counts; the any parts keep their order. */
  lemma {:induction false} PartsCollected(parts: seq<Substring>, p: Substring)
    ensures InitialOf([]) == None && FinalOf([]) == None && AnysOf([]) == []
    ensures InitialOf(parts + [p]) == if p.Initial? then Some(p.text) else InitialOf(parts)
    ensures FinalOf(parts + [p]) == if p.Final? then Some(p.text) else FinalOf(parts)
    ensures AnysOf(parts + [p]) == if p.Any? then AnysOf(parts) + [p.text] else AnysOf(parts)
    decreases |parts|
  {
    if parts == [] {
      assert parts + [p] == [p] && [p][1..] == [];
    } else {
      assert (parts + [p])[1..] == parts[1..] + [p];
      PartsCollected(parts[1..], p);
    }
  }

  // ---- The meaning of a pattern's text ----

  /** The pieces that are not empty. */
  function Solid(ps: seq<seq<byte>>): (r: seq<seq<byte>>)
  {
    if ps == [] then [] else (if ps[0] == [] then [] else [ps[0]]) + Solid(ps[1..])
  }

  predicate AtMostFinal(last: seq<Substring>) {
    last == [] || (|last| == 1 && last[0].Final?)
  }

  lemma {:induction false} MiddleCollected(ps: seq<seq<byte>>, last: seq<Substring>)
    requires AtMostFinal(last)
    ensures var parts := MiddleParts(ps) + last;
            && InitialOf(parts) == None && AnysOf(parts) == Solid(ps)
            && FinalOf(parts) == if last == [] then None else Some(last[0].text)
    decreases |ps|
  {
    if ps == [] {
      assert MiddleParts(ps) + last == last;
      assert last != [] ==> last[1..] == [];
    } else {
      MiddleCollected(ps[1..], last);
      var rest := MiddleParts(ps[1..]) + last;
      if ps[0] == [] {
        assert MiddleParts(ps) + last == rest;
      } else {
        assert MiddleParts(ps) + last == [Any(ps[0])] + rest && ([Any(ps[0])] + rest)[1..] == rest;
      }
    }
  }

  function Unless(p: seq<byte>): (r: Option<seq<byte>>)
  {
    if p == [] then None else Some(p)
  }

  lemma PatternCollected(ps: seq<seq<byte>>)
    requires |ps| > 1
    ensures InitialOf(Pattern(ps)) == Unless(ps[0]) && FinalOf(Pattern(ps)) == Unless(ps[|ps| - 1])
    ensures AnysOf(Pattern(ps)) == Solid(ps[1..|ps| - 1])
  {
    hide MiddleParts, Solid;
    var n := |ps| - 1;
    var last := LastPart(ps[n]);
    MiddleCollected(ps[1..n], last);
    var rest := MiddleParts(ps[1..n]) + last;
    if ps[0] == [] {
      assert Pattern(ps) == rest;
    } else {
      assert Pattern(ps) == [Initial(ps[0])] + rest && ([Initial(ps[0])] + rest)[1..] == rest;
    }
  }

  lemma FoldedCons(view: View, p: seq<byte>, ps: seq<seq<byte>>)
    ensures FoldedAll(view, [p] + ps) == [Folded(view, p)] + FoldedAll(view, ps)
  {
    hide Folded;
    var all, whole := [p] + ps, [Folded(view, p)] + FoldedAll(view, ps);
    forall i | 0 <= i < |all|
      ensures FoldedAll(view, all)[i] == whole[i]
    {
      if i > 0 {
        assert all[i] == ps[i - 1] && whole[i] == FoldedAll(view, ps)[i - 1];
      }
    }
  }

  /** Empty pieces make no difference to the matcher. */
  lemma {:induction false} SolidGreedy(view: View, v: seq<byte>, pos: nat, ps: seq<seq<byte>>)
    requires view([]) == []
    ensures Greedy(v, pos, FoldedAll(view, ps)) == Greedy(v, pos, FoldedAll(view, Solid(ps)))
    decreases |ps|
  {
    hide Find, FoldedAll;
    if ps != [] {
      var p, rest := ps[0], ps[1..];
      assert ps == [p] + rest;
      FoldedCons(view, p, rest);
      var fs := FoldedAll(view, ps);
      assert fs[0] == Folded(view, p) && fs[1..] == FoldedAll(view, rest);
      if p == [] {
        SolidGreedy(view, v, pos, rest);
        assert Solid(ps) == Solid(rest);
      } else {
        FoldedCons(view, p, Solid(rest));
        var gs := FoldedAll(view, Solid(ps));
        assert Solid(ps) == [p] + Solid(rest);
        assert gs[0] == Folded(view, p) && gs[1..] == FoldedAll(view, Solid(rest));
        if fs[0] == [] {
          SolidGreedy(view, v, pos, rest);
        } else if Find(v, pos, fs[0]).Some? {
          SolidGreedy(view, v, Find(v, pos, fs[0]).value + |fs[0]|, rest);
        }
      }
    }
  }

  lemma SolidSplits(view: View, v: seq<byte>, initial: seq<byte>, ps: seq<seq<byte>>, final: seq<byte>)
    requires view([]) == []
    ensures Splits(v, initial, FoldedAll(view, ps), final) <==> Splits(v, initial, FoldedAll(view, Solid(ps)), final)
  {
    hide Splits, Greedy, FoldedAll, Solid;
    AcceptsExactlySplits(v, initial, FoldedAll(view, ps), final);
    AcceptsExactlySplits(v, initial, FoldedAll(view, Solid(ps)), final);
    SolidGreedy(view, v, |initial|, ps);
  }

  /** The value of an attribute, folded, is the folded pieces in order with arbitrary gaps between them. */
  ghost predicate FitsPieces(view: View, a: StoredAttribute, name: Utf8String, ps: seq<seq<byte>>)
    requires |ps| > 1
  {
    var n := |ps| - 1;
    && SameLetters(a.name, name)
    && Splits(Folded(view, a.value), Folded(view, ps[0]), FoldedAll(view, ps[1..n]), Folded(view, ps[n]))
  }

  lemma PatternHolds(view: View, e: Entry, name: Utf8String, ps: seq<seq<byte>>)
    requires |ps| > 1 && view([]) == []
    ensures Matches(view, e, Substrings(name, Pattern(ps))) <==> exists a | a in e :: FitsPieces(view, a, name, ps)
  {
    hide Matches, Splits, FoldedAll, Pattern, Lower, SameLetters;
    var f, n := Substrings(name, Pattern(ps)), |ps| - 1;
    SubstringFilterMeaning(view, e, f);
    PatternCollected(ps);
    assert Lower([]) == [];
    forall a | a in e
      ensures FitsPieces(view, a, name, ps) <==>
              && SameName(a.name, f.attribute)
              && Splits(Folded(view, a.value), FoldedOrEmpty(view, InitialOf(f.parts)),
                        FoldedAll(view, AnysOf(f.parts)), FoldedOrEmpty(view, FinalOf(f.parts)))
    {
      LowerIs(a.name, name);
      SolidSplits(view, Folded(view, a.value), Folded(view, ps[0]), ps[1..n], Folded(view, ps[n]));
    }
  }

  lemma {:induction false} EmptySolid(ps: seq<seq<byte>>)
    requires AllEmpty(ps)
    ensures Solid(ps) == []
  {
    if ps != [] {
      AllEmptyParts(ps);
      EmptySolid(ps[1..]);
    }
  }

  lemma AnythingFits(view: View, v: seq<byte>, ps: seq<seq<byte>>)
    requires view([]) == [] && AllEmpty(ps)
    ensures Splits(v, [], FoldedAll(view, ps), [])
  {
    EmptySolid(ps);
    SolidSplits(view, v, [], ps, []);
    var none: seq<seq<byte>> := [];
    assert FoldedAll(view, none) == none && Woven([v], none) == v;
    assert v == [] + (Woven([v], none) + []);
  }

  lemma EmptiesHold(view: View, e: Entry, name: Utf8String, ps: seq<seq<byte>>)
    requires |ps| > 1 && view([]) == [] && AllEmpty(ps)
    ensures Matches(view, e, Present(name)) <==> exists a | a in e :: FitsPieces(view, a, name, ps)
  {
    hide Matches, Splits, SameLetters, FoldedAll;
    SomeValue(view, e, Present(name));
    forall a | a in e
      ensures Matches(view, [a], Present(name)) <==> FitsPieces(view, a, name, ps)
    {
      OneValue(view, a, name, []);
      AnythingFits(view, Folded(view, a.value), ps[1..|ps| - 1]);
      assert Folded(view, []) == [];
    }
  }

  /** The text `(name=p1*p2*...*pn)` of two pieces or more, empty ones included, is satisfied by an entry
      exactly when some value of the named attribute is, up to case, those pieces in order with arbitrary
      gaps between them. */
  lemma PatternTextMeaning(view: View, e: Entry, name: Utf8String, ts: seq<seq<byte>>)
    requires PrintableName(name) && |ts| > 1 && AllPlain(ts) && view([]) == []
    ensures Parse(Layout(name, [EQUALS], StarJoin(ts))).Ok?
    ensures Matches(view, e, Parse(Layout(name, [EQUALS], StarJoin(ts))).value) <==>
            exists a | a in e :: FitsPieces(view, a, name, Spelled(ts))
  {
    hide Parse, Layout, Matches, FitsPieces, Pattern, StarCut, StarJoin, WellEscaped, Unescaped, AllStars, AllEmpty;
    var t := StarJoin(ts);
    StarCutOfJoin(ts);
    StarCutIs(t);
    var ps := Spelled(ts);
    EqualityText(name, t);
    if AllStars(t) {
      AllStarsCut(t);
      SpelledEmpty(ts);
      EmptiesHold(view, e, name, ps);
    } else {
      PatternHolds(view, e, name, ps);
    }
  }

  /** `(name=a*b)`: some value of the attribute is, up to case, what `a` spells, then anything, then what `b`
      spells. */
  lemma TwoPieceMeaning(view: View, e: Entry, name: Utf8String, a: seq<byte>, b: seq<byte>)
    requires PrintableName(name) && Plain(a) && Plain(b) && view([]) == []
    ensures Parse(Layout(name, [EQUALS], a + [STAR] + b)).Ok?
    ensures Matches(view, e, Parse(Layout(name, [EQUALS], a + [STAR] + b)).value) <==>
            exists x, gap | x in e ::
              && SameLetters(x.name, name)
              && Folded(view, x.value) == Folded(view, Unescaped(a)) + (gap + Folded(view, Unescaped(b)))
  {
    hide Parse, Layout, Matches, Folded, Plain, Unescaped, SameLetters;
    var ts := [a, b];
    PlainIs(a);
    PlainIs(b);
    TwoSpelled(a, b);
    PatternTextMeaning(view, e, name, ts);
    assert ts[1..] == [b] && StarJoin([b]) == b;
    assert StarJoin(ts) == a + [STAR] + b;
    var ps := [Unescaped(a), Unescaped(b)];
    forall x | x in e
      ensures FitsPieces(view, x, name, ps) <==>
              && SameLetters(x.name, name)
              && exists gap :: Folded(view, x.value) == Folded(view, ps[0]) + (gap + Folded(view, ps[1]))
    {
      OneGap(view, Folded(view, x.value), ps);
    }
  }

  lemma OneGap(view: View, v: seq<byte>, ps: seq<seq<byte>>)
    requires |ps| == 2
    ensures Splits(v, Folded(view, ps[0]), FoldedAll(view, ps[1..1]), Folded(view, ps[1])) <==>
            exists gap :: v == Folded(view, ps[0]) + (gap + Folded(view, ps[1]))
  {
    hide Folded;
    var none := FoldedAll(view, ps[1..1]);
    if gap :| v == Folded(view, ps[0]) + (gap + Folded(view, ps[1])) {
      assert Woven([gap], none) == gap;
    }
  }

  // ---- The evaluator ----

  method AnyValue(view: View, e: Entry, f: Filter) returns (holds: bool)
    requires Simple(f) && !f.Substrings?
    ensures holds == Matches(view, e, f)
  {
    hide SameName, Less, Folded;
    for i := 0 to |e|
      invariant forall k | 0 <= k < i :: !(SameName(e[k].name, f.attribute) && ValueMatches(view, f, e[k].value))
    {
      if SameName(e[i].name, f.attribute) {
        var v := e[i].value;
        var meets;
        match f {
          case Present(_) => meets := true;
          case Equality(_, b) => meets := v == b;
          case Approx(_, b) => meets := Folded(view, v) == Folded(view, b);
          case GreaterOrEqual(_, b) => meets := !Less(view(v), view(b));
          case LessOrEqual(_, b) => meets := !Less(view(b), view(v));
        }
        if meets {
          return true;
        }
      }
    }
    holds := false;
  }

  method AnySplit(view: View, e: Entry, f: Filter) returns (holds: bool)
    requires f.Substrings?
    ensures holds == Matches(view, e, f)
  {
    hide SameName, Matches, Splits, FoldedAll, FoldedOrEmpty, Folded;
    var initial, anys, final := CollectParts(f.parts);
    SubstringFilterMeaning(view, e, f);
    for i := 0 to |e|
      invariant forall k | 0 <= k < i ::
                  !(SameName(e[k].name, f.attribute) &&
                    Splits(Folded(view, e[k].value), FoldedOrEmpty(view, initial), FoldedAll(view, anys),
                           FoldedOrEmpty(view, final)))
    {
      if SameName(e[i].name, f.attribute) {
        var splits := SubstringsMatch(view, e[i].value, initial, anys, final);
        if splits {
          return true;
        }
      }
    }
    holds := false;
  }

  /** The recursive evaluator: it stops at the first member that decides a conjunction or disjunction, and at
      the first value that passes a single test. */
  method FilterMatches(view: View, e: Entry, f: Filter) returns (holds: bool)
    ensures holds == Matches(view, e, f)
    decreases f
  {
    match f {
      case And(subs) =>
        for i := 0 to |subs|
          invariant forall k | 0 <= k < i :: Matches(view, e, subs[k])
        {
          var one := FilterMatches(view, e, subs[i]);
          if !one {
            return false;
          }
        }
        holds := true;
      case Or(subs) =>
        for i := 0 to |subs|
          invariant forall k | 0 <= k < i :: !Matches(view, e, subs[k])
        {
          var one := FilterMatches(view, e, subs[i]);
          if one {
            return true;
          }
        }
        holds := false;
      case Not(inner) =>
        var one := FilterMatches(view, e, inner);
        holds := !one;
      case Substrings(_, _) => holds := AnySplit(view, e, f);
      case _ => holds := AnyValue(view, e, f);
    }
  }
}
