/** Search filter evaluation against an entry, in particular the greedy substring matcher. */
module SubstringMatch {
  import opened Bytes
  import opened Filters

  /** The text view of a value; ill-formed octets are replaced by the library conversion. */
  type View = seq<byte> -> seq<byte>

  function LowerOctet(b: byte): (r: byte)
  {
    if 0x41 <= b <= 0x5A then b + 0x20 else b
  }

  function Lower(s: seq<byte>): (r: seq<byte>)
    ensures |r| == |s|
    ensures forall i | 0 <= i < |s| :: r[i] == LowerOctet(s[i])
  {
    seq(|s|, i requires 0 <= i < |s| => LowerOctet(s[i]))
  }

  predicate SameName(a: seq<byte>, b: seq<byte>) {
    Lower(a) == Lower(b)
  }

  // ---- The meaning of a pattern (section 4.5.1.7.2 of RFC 4511) ----

  /** Gaps and parts in turn: a gap, a part, a gap, ..., a part, a gap. */
  function Woven(gaps: seq<seq<byte>>, anys: seq<seq<byte>>): (s: seq<byte>)
    requires |gaps| == |anys| + 1
  {
    if anys == [] then gaps[0] else gaps[0] + (anys[0] + Woven(gaps[1..], anys[1..]))
  }

  /** The value splits into the initial part, the any parts in order with arbitrary gaps around them,
      and the final part, none of them overlapping. */
  ghost predicate Splits(v: seq<byte>, initial: seq<byte>, anys: seq<seq<byte>>, final: seq<byte>) {
    exists gaps: seq<seq<byte>> | |gaps| == |anys| + 1 :: v == initial + (Woven(gaps, anys) + final)
  }

  // ---- The greedy matcher ----

  /** The leftmost occurrence from `pos` on. */
  function Find(v: seq<byte>, pos: nat, part: seq<byte>): (r: Option<nat>)
    ensures r.Some? ==> pos <= r.value && At(v, r.value, part)
    ensures r.Some? ==> forall i | pos <= i < r.value :: !At(v, i, part)
    ensures r.None? ==> forall i | pos <= i :: !At(v, i, part)
    decreases |v| - pos
  {
    if pos + |part| > |v| then None
    else if At(v, pos, part) then Some(pos)
    else Find(v, pos + 1, part)
  }

  /** Where the matcher stands after taking the leftmost occurrence of each part in turn. */
  function Greedy(v: seq<byte>, pos: nat, anys: seq<seq<byte>>): (r: Option<nat>)
    decreases |anys|
  {
    if anys == [] then Some(pos)
    else if anys[0] == [] then Greedy(v, pos, anys[1..])
    else
      match Find(v, pos, anys[0])
      case Some(i) => Greedy(v, i + |anys[0]|, anys[1..])
      case None => None
  }

  /** The parts fit somewhere, in order and without overlap, between `pos` and `end`. */
  ghost predicate FitsBetween(v: seq<byte>, pos: nat, anys: seq<seq<byte>>, end: nat)
    decreases |anys|
  {
    if anys == [] then pos <= end
    else exists i | pos <= i :: At(v, i, anys[0]) && FitsBetween(v, i + |anys[0]|, anys[1..], end)
  }

  lemma {:induction false} FitsEarlier(v: seq<byte>, p: nat, q: nat, anys: seq<seq<byte>>, end: nat)
    requires p <= q && FitsBetween(v, q, anys, end)
    ensures FitsBetween(v, p, anys, end)
  {
    if anys != [] {
      var i :| q <= i && At(v, i, anys[0]) && FitsBetween(v, i + |anys[0]|, anys[1..], end);
    }
  }

  /** Any occurrence may be exchanged for an earlier one. */
  lemma FitsFrom(v: seq<byte>, pos: nat, i: nat, anys: seq<seq<byte>>, end: nat)
    requires anys != [] && pos <= i && At(v, i, anys[0])
    requires forall j | pos <= j < i :: !At(v, j, anys[0])
    ensures FitsBetween(v, pos, anys, end) <==> FitsBetween(v, i + |anys[0]|, anys[1..], end)
  {
    if FitsBetween(v, pos, anys, end) {
      var j :| pos <= j && At(v, j, anys[0]) && FitsBetween(v, j + |anys[0]|, anys[1..], end);
      FitsEarlier(v, i + |anys[0]|, j + |anys[0]|, anys[1..], end);
    }
  }

  /** Taking the leftmost occurrence never loses a match. */
  lemma {:induction false} GreedyIsComplete(v: seq<byte>, pos: nat, anys: seq<seq<byte>>, end: nat)
    requires pos <= |v|
    ensures FitsBetween(v, pos, anys, end) <==> Greedy(v, pos, anys).Some? && Greedy(v, pos, anys).value <= end
    decreases |anys|
  {
    hide Find;
    if anys != [] {
      var i := if anys[0] == [] then Some(pos) else Find(v, pos, anys[0]);
      if i.Some? {
        assert At(v, i.value, anys[0]);
        GreedyIsComplete(v, i.value + |anys[0]|, anys[1..], end);
        FitsFrom(v, pos, i.value, anys, end);
      }
    }
  }

  lemma ThreeParts(v: seq<byte>, pos: nat, i: nat, next: nat, end: nat)
    requires pos <= i <= next <= end <= |v|
    ensures v[pos..end] == v[pos..i] + (v[i..next] + v[next..end])
  {
    assert v[i..end] == v[i..next] + v[next..end];
    assert v[pos..end] == v[pos..i] + v[i..end];
  }

  lemma {:induction false} FitsWoven(v: seq<byte>, pos: nat, anys: seq<seq<byte>>, end: nat)
    returns (gaps: seq<seq<byte>>)
    requires pos <= |v| && end <= |v| && FitsBetween(v, pos, anys, end)
    ensures pos <= end && |gaps| == |anys| + 1 && v[pos..end] == Woven(gaps, anys)
    decreases |anys|
  {
    if anys == [] {
      gaps := [v[pos..end]];
    } else {
      var i :| pos <= i && At(v, i, anys[0]) && FitsBetween(v, i + |anys[0]|, anys[1..], end);
      var next := i + |anys[0]|;
      hide FitsBetween;
      var rest := FitsWoven(v, next, anys[1..], end);
      gaps := [v[pos..i]] + rest;
      assert gaps[1..] == rest;
      ThreeParts(v, pos, i, next, end);
    }
  }

  lemma Slices(v: seq<byte>, pos: nat, end: nat, g: seq<byte>, a: seq<byte>, rest: seq<byte>)
    requires pos <= end <= |v| && v[pos..end] == g + (a + rest)
    ensures pos + |g| + |a| <= end
    ensures v[pos + |g|..pos + |g| + |a|] == a && v[pos + |g| + |a|..end] == rest
  {
    var s := v[pos..end];
    assert |s| == |g| + |a| + |rest|;
    assert v[pos + |g|..end] == s[|g|..] == a + rest;
    assert v[pos + |g|..pos + |g| + |a|] == (a + rest)[..|a|] == a;
    assert v[pos + |g| + |a|..end] == (a + rest)[|a|..] == rest;
  }

  lemma {:induction false} WovenFits(v: seq<byte>, pos: nat, gaps: seq<seq<byte>>, anys: seq<seq<byte>>, end: nat)
    requires pos <= end <= |v| && |gaps| == |anys| + 1 && v[pos..end] == Woven(gaps, anys)
    ensures FitsBetween(v, pos, anys, end)
    decreases |anys|
  {
    if anys != [] {
      var g, a, rest := gaps[0], anys[0], Woven(gaps[1..], anys[1..]);
      Slices(v, pos, end, g, a, rest);
      WovenFits(v, pos + |g| + |a|, gaps[1..], anys[1..], end);
      assert At(v, pos + |g|, a);
    }
  }

  predicate StartsWith(v: seq<byte>, s: seq<byte>) {
    |s| <= |v| && v[..|s|] == s
  }

  predicate EndsWith(v: seq<byte>, s: seq<byte>) {
    |s| <= |v| && v[|v| - |s|..] == s
  }

  /** The matcher's verdict in one expression. */
  predicate Accepts(v: seq<byte>, initial: seq<byte>, anys: seq<seq<byte>>, final: seq<byte>) {
    && StartsWith(v, initial)
    && Greedy(v, |initial|, anys).Some?
    && EndsWith(v, final)
    && Greedy(v, |initial|, anys).value <= |v| - |final|
  }

  lemma AcceptsSplits(v: seq<byte>, initial: seq<byte>, anys: seq<seq<byte>>, final: seq<byte>)
    requires Accepts(v, initial, anys, final)
    ensures Splits(v, initial, anys, final)
  {
    hide FitsBetween, Greedy;
    var end := |v| - |final|;
    GreedyIsComplete(v, |initial|, anys, end);
    var gaps := FitsWoven(v, |initial|, anys, end);
    assert v == v[..|initial|] + (v[|initial|..end] + v[end..]);
  }

  lemma SplitsAccepts(v: seq<byte>, initial: seq<byte>, anys: seq<seq<byte>>, final: seq<byte>)
    requires Splits(v, initial, anys, final)
    ensures Accepts(v, initial, anys, final)
  {
    hide FitsBetween, Greedy, Woven;
    var gaps: seq<seq<byte>> :| |gaps| == |anys| + 1 && v == initial + (Woven(gaps, anys) + final);
    var end := |v| - |final|;
    var middle := Woven(gaps, anys);
    assert v[..|initial|] == initial && v[|initial| + |middle|..] == final;
    assert v[|initial|..|initial| + |middle|] == middle;
    WovenFits(v, |initial|, gaps, anys, end);
    GreedyIsComplete(v, |initial|, anys, end);
  }

  /** Sound and complete, for any number of parts, empty ones included. */
  lemma AcceptsExactlySplits(v: seq<byte>, initial: seq<byte>, anys: seq<seq<byte>>, final: seq<byte>)
    ensures Accepts(v, initial, anys, final) <==> Splits(v, initial, anys, final)
  {
    hide Accepts, Splits;
    if Accepts(v, initial, anys, final) {
      AcceptsSplits(v, initial, anys, final);
    }
    if Splits(v, initial, anys, final) {
      SplitsAccepts(v, initial, anys, final);
    }
  }

  function Folded(view: View, s: seq<byte>): (r: seq<byte>)
  {
    Lower(view(s))
  }

  function FoldedAll(view: View, ss: seq<seq<byte>>): (r: seq<seq<byte>>)
    ensures |r| == |ss|
  {
    seq(|ss|, i requires 0 <= i < |ss| => Folded(view, ss[i]))
  }

  function FoldedOrEmpty(view: View, s: Option<seq<byte>>): (r: seq<byte>)
  {
    if s.Some? then Folded(view, s.value) else []
  }

  /** The imperative matcher. It accepts exactly the values that split as the pattern says. */
  method SubstringsMatch(view: View, value: seq<byte>, initial: Option<seq<byte>>, anys: seq<seq<byte>>,
                         final: Option<seq<byte>>)
    returns (matched: bool)
    ensures matched <==>
            Splits(Folded(view, value), FoldedOrEmpty(view, initial), FoldedAll(view, anys), FoldedOrEmpty(view, final))
  {
    hide Splits, Folded, FoldedAll, Greedy, StartsWith, EndsWith;
    var v := Folded(view, value);
    var parts := FoldedAll(view, anys);
    AcceptsExactlySplits(v, FoldedOrEmpty(view, initial), parts, FoldedOrEmpty(view, final));
    var pos: nat := 0;
    EmptyEnds(v);
    if initial.Some? {
      var prefix := Folded(view, initial.value);
      if !StartsWith(v, prefix) {
        return false;
      }
      pos := |prefix|;
    }
    var reached := TakeLeftmost(v, pos, parts);
    if reached.None? {
      return false;
    }
    GreedyWithin(v, pos, parts);
    if final.Some? {
      var suffix := Folded(view, final.value);
      if !EndsWith(v, suffix) || |v| - |suffix| < reached.value {
        return false;
      }
    }
    return true;
  }

  /** The loop over the any parts, from one leftmost occurrence to the next. */
  method TakeLeftmost(v: seq<byte>, start: nat, parts: seq<seq<byte>>) returns (r: Option<nat>)
    ensures r == Greedy(v, start, parts)
  {
    hide Find;
    var pos: nat := start;
    assert parts[0..] == parts;
    for k := 0 to |parts|
      invariant Greedy(v, start, parts) == Greedy(v, pos, parts[k..])
    {
      assert parts[k..][0] == parts[k] && parts[k..][1..] == parts[k + 1..];
      if parts[k] != [] {
        match Find(v, pos, parts[k]) {
          case Some(i) => pos := i + |parts[k]|;
          case None => return None;
        }
      }
    }
    r := Some(pos);
  }

  lemma EmptyEnds(v: seq<byte>)
    ensures StartsWith(v, []) && EndsWith(v, [])
    ensures forall p :: StartsWith(v, p) ==> |p| <= |v|
  {
  }

  lemma {:induction false} GreedyWithin(v: seq<byte>, pos: nat, parts: seq<seq<byte>>)
    requires pos <= |v|
    ensures Greedy(v, pos, parts).Some? ==> Greedy(v, pos, parts).value <= |v|
    decreases |parts|
  {
    hide Find;
    if parts != [] {
      if parts[0] == [] {
        GreedyWithin(v, pos, parts[1..]);
      } else if Find(v, pos, parts[0]).Some? {
        GreedyWithin(v, Find(v, pos, parts[0]).value + |parts[0]|, parts[1..]);
      }
    }
  }

  // ---- Filters ----

  datatype StoredAttribute = StoredAttribute(name: seq<byte>, value: seq<byte>)

  /** The last initial part, the any parts in order, the last final part. */
  function InitialOf(parts: seq<Substring>): (r: Option<seq<byte>>)
  {
    if parts == [] then None
    else if InitialOf(parts[1..]).Some? then InitialOf(parts[1..])
    else if parts[0].Initial? then Some(parts[0].text) else None
  }

  function FinalOf(parts: seq<Substring>): (r: Option<seq<byte>>)
  {
    if parts == [] then None
    else if FinalOf(parts[1..]).Some? then FinalOf(parts[1..])
    else if parts[0].Final? then Some(parts[0].text) else None
  }

  function AnysOf(parts: seq<Substring>): (r: seq<seq<byte>>)
  {
    if parts == [] then [] else (if parts[0].Any? then [parts[0].text] else []) + AnysOf(parts[1..])
  }

  predicate ValueMatches(view: View, f: Filter, value: seq<byte>)
    requires !f.And? && !f.Or? && !f.Not?
  {
    match f
    case Present(_) => true
    case Equality(_, v) => value == v
    case Approx(_, v) => Folded(view, value) == Folded(view, v)
    case GreaterOrEqual(_, v) => !Less(view(value), view(v))
    case LessOrEqual(_, v) => !Less(view(v), view(value))
    case Substrings(_, parts) =>
      Accepts(Folded(view, value), FoldedOrEmpty(view, InitialOf(parts)), FoldedAll(view, AnysOf(parts)),
              FoldedOrEmpty(view, FinalOf(parts)))
  }

  /** Whether an entry satisfies a filter. */
  predicate Matches(view: View, attributes: seq<StoredAttribute>, f: Filter)
    decreases f
  {
    match f
    case And(subs) => forall s | s in subs :: Matches(view, attributes, s)
    case Or(subs) => exists s | s in subs :: Matches(view, attributes, s)
    case Not(inner) => !Matches(view, attributes, inner)
    case _ => exists a | a in attributes :: SameName(a.name, f.attribute) && ValueMatches(view, f, a.value)
  }

  /** A substring filter holds of an entry exactly when some value of the named attribute splits as the
      pattern says. */
  lemma SubstringFilterMeaning(view: View, attributes: seq<StoredAttribute>, f: Filter)
    requires f.Substrings?
    ensures Matches(view, attributes, f) <==>
            exists a | a in attributes ::
              && SameName(a.name, f.attribute)
              && Splits(Folded(view, a.value), FoldedOrEmpty(view, InitialOf(f.parts)),
                        FoldedAll(view, AnysOf(f.parts)), FoldedOrEmpty(view, FinalOf(f.parts)))
  {
    hide Splits, Accepts, Lower, Folded, FoldedAll, FoldedOrEmpty, SameName;
    forall a | a in attributes
      ensures ValueMatches(view, f, a.value) <==>
              Splits(Folded(view, a.value), FoldedOrEmpty(view, InitialOf(f.parts)),
                     FoldedAll(view, AnysOf(f.parts)), FoldedOrEmpty(view, FinalOf(f.parts)))
    {
      AcceptsExactlySplits(Folded(view, a.value), FoldedOrEmpty(view, InitialOf(f.parts)),
                           FoldedAll(view, AnysOf(f.parts)), FoldedOrEmpty(view, FinalOf(f.parts)));
    }
  }

  /** The parts of a pattern as the evaluator collects them, in one pass over the list. */
  method CollectParts(parts: seq<Substring>)
    returns (initial: Option<seq<byte>>, anys: seq<seq<byte>>, final: Option<seq<byte>>)
    ensures initial == InitialOf(parts) && anys == AnysOf(parts) && final == FinalOf(parts)
  {
    hide InitialOf, FinalOf, AnysOf;
    initial, anys, final := None, [], None;
    assert parts[0..] == parts && [] + AnysOf(parts) == AnysOf(parts);
    for k := 0 to |parts|
      invariant InitialOf(parts) == if InitialOf(parts[k..]).Some? then InitialOf(parts[k..]) else initial
      invariant FinalOf(parts) == if FinalOf(parts[k..]).Some? then FinalOf(parts[k..]) else final
      invariant AnysOf(parts) == anys + AnysOf(parts[k..])
    {
      PartsFrom(parts, k);
      var rest := AnysOf(parts[k + 1..]);
      match parts[k] {
        case Initial(v) => initial := Some(v);
        case Any(v) =>
          assert anys + ([v] + rest) == (anys + [v]) + rest;
          anys := anys + [v];
        case Final(v) => final := Some(v);
      }
    }
    NoParts(parts[|parts|..]);
    assert anys + [] == anys;
  }

  lemma PartsFrom(parts: seq<Substring>, k: nat)
    requires k < |parts|
    ensures var p, rest := parts[k], parts[k + 1..];
            && InitialOf(parts[k..]) ==
               (if InitialOf(rest).Some? then InitialOf(rest) else if p.Initial? then Some(p.text) else None)
            && FinalOf(parts[k..]) ==
               (if FinalOf(rest).Some? then FinalOf(rest) else if p.Final? then Some(p.text) else None)
            && AnysOf(parts[k..]) == (if p.Any? then [p.text] + AnysOf(rest) else AnysOf(rest))
  {
    assert parts[k..][0] == parts[k] && parts[k..][1..] == parts[k + 1..];
    assert [] + AnysOf(parts[k + 1..]) == AnysOf(parts[k + 1..]);
  }

  lemma NoParts(parts: seq<Substring>)
    requires parts == []
    ensures InitialOf(parts) == None && FinalOf(parts) == None && AnysOf(parts) == []
  {
  }
}
