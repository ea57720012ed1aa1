/** Suffix-based scoping of searches by distinguished name, and what it means for lists of RDNs. */
module DistinguishedNames {
  import opened Bytes
  import opened SubstringMatch

  const COMMA: byte := 0x2C
  const SPACE: byte := 0x20

  predicate HasComma(s: seq<byte>) {
    COMMA in s
  }

  /** A single RDN stands in front of `suffix`. */
  predicate OneRdnBefore(s: seq<byte>, suffix: seq<byte>)
    requires EndsWith(s, suffix)
  {
    var prefix := s[..|s| - |suffix|];
    prefix != [] && !HasComma(prefix)
  }

  /** The test for a direct child: case-insensitive, on the text of the names. */
  predicate IsChildOf(child: seq<byte>, parent: seq<byte>) {
    var c, p := Lower(child), Lower(parent);
    if p == [] then c != [] && !HasComma(c)
    else if EndsWith(c, [COMMA, SPACE] + p) then OneRdnBefore(c, [COMMA, SPACE] + p)
    else if EndsWith(c, [COMMA] + p) then OneRdnBefore(c, [COMMA] + p)
    else false
  }

  /** The test for the base itself or anything below it. */
  predicate IsDescendantOf(child: seq<byte>, ancestor: seq<byte>) {
    var c, a := Lower(child), Lower(ancestor);
    if a == [] then c != []
    else c == a || EndsWith(c, [COMMA, SPACE] + a) || EndsWith(c, [COMMA] + a)
  }

  // ---- Names as lists of RDNs, leaf first ----

  predicate NormalRdn(r: seq<byte>) {
    r != [] && !HasComma(r) && r[0] != SPACE
  }

  predicate Normal(rdns: seq<seq<byte>>) {
    forall i | 0 <= i < |rdns| :: NormalRdn(rdns[i])
  }

  function Join(rdns: seq<seq<byte>>): (s: seq<byte>)
  {
    if rdns == [] then [] else if |rdns| == 1 then rdns[0] else rdns[0] + ([COMMA] + Join(rdns[1..]))
  }

  function LowerAll(rdns: seq<seq<byte>>): (r: seq<seq<byte>>)
    ensures |r| == |rdns|
    ensures forall i | 0 <= i < |rdns| :: r[i] == Lower(rdns[i])
  {
    seq(|rdns|, i requires 0 <= i < |rdns| => Lower(rdns[i]))
  }

  lemma NoCommaIn(r: seq<byte>)
    requires NormalRdn(r)
    ensures forall i | 0 <= i < |r| :: r[i] != COMMA
  {
    forall i | 0 <= i < |r|
      ensures r[i] != COMMA
    {
      assert r[i] in r;
    }
  }

  lemma LowerKeepsNormal(r: seq<byte>)
    requires NormalRdn(r)
    ensures NormalRdn(Lower(r))
  {
    NoCommaIn(r);
    assert forall i | 0 <= i < |r| :: Lower(r)[i] != COMMA;
  }

  lemma LowerAllNormal(rdns: seq<seq<byte>>)
    requires Normal(rdns)
    ensures Normal(LowerAll(rdns))
  {
    forall i | 0 <= i < |rdns|
      ensures NormalRdn(LowerAll(rdns)[i])
    {
      LowerKeepsNormal(rdns[i]);
    }
  }

  lemma LowerConcat(a: seq<byte>, b: seq<byte>)
    ensures Lower(a + b) == Lower(a) + Lower(b)
  {
  }

  lemma {:induction false} LowerJoin(rdns: seq<seq<byte>>)
    ensures Lower(Join(rdns)) == Join(LowerAll(rdns))
  {
    if |rdns| > 1 {
      LowerJoin(rdns[1..]);
      LowerConcat(rdns[0], [COMMA] + Join(rdns[1..]));
      LowerConcat([COMMA], Join(rdns[1..]));
      assert Lower([COMMA]) == [COMMA];
      assert LowerAll(rdns)[1..] == LowerAll(rdns[1..]);
    }
  }

  lemma {:induction false} JoinEmpty(rdns: seq<seq<byte>>)
    requires Normal(rdns)
    ensures Join(rdns) == [] <==> rdns == []
  {
    if rdns != [] {
      assert NormalRdn(rdns[0]);
    }
  }

  /** A joined name has a comma exactly when it has more than one RDN. */
  lemma JoinComma(rdns: seq<seq<byte>>)
    requires Normal(rdns)
    ensures HasComma(Join(rdns)) <==> |rdns| > 1
  {
    if |rdns| == 1 {
      assert NormalRdn(rdns[0]);
    } else if |rdns| > 1 {
      assert Join(rdns)[|rdns[0]|] == COMMA;
    }
  }

  /** The first comma stands after the first RDN. */
  lemma CommaPast(rdns: seq<seq<byte>>, at: nat)
    requires Normal(rdns) && at < |Join(rdns)| && Join(rdns)[at] == COMMA
    ensures |rdns| > 1 && at >= |rdns[0]| && Join(rdns) == rdns[0] + ([COMMA] + Join(rdns[1..]))
  {
    var r := rdns[0];
    assert NormalRdn(r);
    NoCommaIn(r);
    assert Join(rdns)[..|r|] == r;
  }

  lemma CutPast(r: seq<byte>, rest: seq<byte>, at: nat)
    requires |r| < at < |r| + 1 + |rest|
    ensures var s, b := r + ([COMMA] + rest), at - |r| - 1;
            s[at] == rest[b] && s[..at] == r + ([COMMA] + rest[..b]) && s[at + 1..] == rest[b + 1..]
  {
  }

  lemma JoinFront(rdns: seq<seq<byte>>, j: nat)
    requires 0 < j < |rdns|
    ensures Join(rdns[..j + 1]) == rdns[0] + ([COMMA] + Join(rdns[1..][..j]))
  {
    assert rdns[..j + 1][1..] == rdns[1..][..j];
  }

  /** Where a comma stands in a joined name, a whole front of RDNs ends. */
  lemma {:induction false} CommaSplits(rdns: seq<seq<byte>>, at: nat) returns (k: nat)
    requires Normal(rdns) && at < |Join(rdns)| && Join(rdns)[at] == COMMA
    ensures 0 < k < |rdns|
    ensures Join(rdns[..k]) == Join(rdns)[..at] && Join(rdns[k..]) == Join(rdns)[at + 1..]
  {
    hide Join, Normal;
    CommaPast(rdns, at);
    var r, rest := rdns[0], Join(rdns[1..]);
    if at == |r| {
      k := 1;
      JoinOne(r);
      assert rdns[..1] == [r];
    } else {
      CutPast(r, rest, at);
      TailNormal(rdns, 1);
      var j := CommaSplits(rdns[1..], at - |r| - 1);
      k := j + 1;
      JoinFront(rdns, j);
      assert rdns[1..][j..] == rdns[k..];
    }
  }

  lemma JoinOne(r: seq<byte>)
    ensures Join([r]) == r
  {
  }

  /** Joining loses nothing. */
  lemma {:induction false} JoinInjective(a: seq<seq<byte>>, b: seq<seq<byte>>)
    requires Normal(a) && Normal(b) && Join(a) == Join(b)
    ensures a == b
  {
    JoinEmpty(a);
    JoinEmpty(b);
    JoinComma(a);
    JoinComma(b);
    if |a| > 1 {
      NoCommaIn(a[0]);
      NoCommaIn(b[0]);
      var s := Join(a);
      var i, j := |a[0]|, |b[0]|;
      assert s[i] == COMMA && s[j] == COMMA && s[..i] == a[0] && s[..j] == b[0];
      assert i == j;
      assert a[0] == s[..i] == b[0];
      assert Join(a[1..]) == s[i + 1..] == Join(b[1..]);
      JoinInjective(a[1..], b[1..]);
      assert a == [a[0]] + a[1..] && b == [b[0]] + b[1..];
    } else if |a| == 1 {
      assert a == [a[0]] && b == [b[0]];
    }
  }

  /** The RDNs of `p` are the last ones of `c`. */
  predicate IsSuffix(p: seq<seq<byte>>, c: seq<seq<byte>>) {
    |p| <= |c| && c[|c| - |p|..] == p
  }

  lemma TailNormal(c: seq<seq<byte>>, k: nat)
    requires Normal(c) && k <= |c|
    ensures Normal(c[k..])
  {
  }

  lemma CutText(s: seq<byte>, t: seq<byte>)
    requires EndsWith(s, [COMMA] + t)
    ensures var at := |s| - |t| - 1; 0 <= at < |s| && s[at] == COMMA && s[at + 1..] == t
  {
    var at := |s| - |t| - 1;
    assert s[at] == s[at..][0] && s[at + 1..] == s[at..][1..];
  }

  lemma EndingIsSuffix(c: seq<seq<byte>>, p: seq<seq<byte>>)
    requires Normal(c) && Normal(p) && EndsWith(Join(c), [COMMA] + Join(p))
    ensures IsSuffix(p, c) && |c| > |p| && Join(c[..|c| - |p|]) == Join(c)[..|Join(c)| - |Join(p)| - 1]
  {
    hide Join, Normal, EndsWith;
    var s, t := Join(c), Join(p);
    CutText(s, t);
    var k := CommaSplits(c, |s| - |t| - 1);
    TailNormal(c, k);
    JoinInjective(c[k..], p);
  }

  lemma SuffixIsEnding(c: seq<seq<byte>>, p: seq<seq<byte>>)
    requires p != [] && IsSuffix(p, c) && |c| > |p|
    ensures EndsWith(Join(c), [COMMA] + Join(p))
  {
    hide Join;
    var front := c[..|c| - |p|];
    JoinAppend(front, p);
    assert c == front + p;
    var s, t := Join(c), [COMMA] + Join(p);
    assert s[|s| - |t|..] == t;
  }

  /** Ending in a comma and a name is ending in its RDNs, with at least one more in front. */
  lemma EndsWithName(c: seq<seq<byte>>, p: seq<seq<byte>>)
    requires Normal(c) && Normal(p) && p != []
    ensures EndsWith(Join(c), [COMMA] + Join(p)) <==> IsSuffix(p, c) && |c| > |p|
    ensures EndsWith(Join(c), [COMMA] + Join(p)) ==>
              Join(c[..|c| - |p|]) == Join(c)[..|Join(c)| - |Join(p)| - 1]
  {
    hide Join, Normal, IsSuffix;
    if EndsWith(Join(c), [COMMA] + Join(p)) {
      EndingIsSuffix(c, p);
    }
    if IsSuffix(p, c) && |c| > |p| {
      SuffixIsEnding(c, p);
    }
  }

  lemma {:induction false} JoinAppend(a: seq<seq<byte>>, b: seq<seq<byte>>)
    requires a != [] && b != []
    ensures Join(a + b) == Join(a) + ([COMMA] + Join(b))
  {
    assert (a + b)[1..] == a[1..] + b;
    if |a| == 1 {
      assert a[1..] + b == b;
    } else {
      JoinAppend(a[1..], b);
      assert a[0] + ([COMMA] + (Join(a[1..]) + ([COMMA] + Join(b))))
          == (a[0] + ([COMMA] + Join(a[1..]))) + ([COMMA] + Join(b));
    }
  }

  /** In a joined name no comma is followed by a blank. */
  lemma NoBlankAfterComma(c: seq<seq<byte>>, at: nat)
    requires Normal(c) && at + 1 < |Join(c)| && Join(c)[at] == COMMA
    ensures Join(c)[at + 1] != SPACE
  {
    var k := CommaSplits(c, at);
    assert NormalRdn(c[k]) && c[k..][0] == c[k];
    assert Join(c)[at + 1] == Join(c)[at + 1..][0] == Join(c[k..])[0] == c[k][0];
  }

  lemma NeverBlankSuffix(c: seq<seq<byte>>, t: seq<byte>)
    requires Normal(c)
    ensures !EndsWith(Join(c), [COMMA, SPACE] + t)
  {
    var s := Join(c);
    var at := |s| - |t| - 2;
    if at >= 0 && s[at] == COMMA {
      NoBlankAfterComma(c, at);
      assert s[at..][1] == s[at + 1];
    } else if at >= 0 {
      assert s[at..][0] == s[at];
    }
  }

  lemma SuffixShorter(p: seq<seq<byte>>, c: seq<seq<byte>>)
    ensures IsSuffix(p, c) ==> |p| <= |c|
    ensures |p| == |c| ==> (IsSuffix(p, c) <==> p == c)
    ensures IsSuffix([], c)
  {
    assert c[0..] == c && c[|c|..] == [];
  }

  /** The tests against the root. */
  lemma RootTests(c: seq<seq<byte>>)
    requires Normal(c)
    ensures Join(c) != [] <==> c != []
    ensures Join(c) != [] && !HasComma(Join(c)) <==> |c| == 1
  {
    JoinEmpty(c);
    JoinComma(c);
  }

  /** The tests on lists already in lower case. */
  lemma LoweredTests(c: seq<seq<byte>>, p: seq<seq<byte>>)
    requires Normal(c) && Normal(p) && p != []
    ensures var s, t := Join(c), Join(p);
            && t != [] && !EndsWith(s, [COMMA, SPACE] + t)
            && (EndsWith(s, [COMMA] + t) <==> IsSuffix(p, c) && |c| > |p|)
            && (EndsWith(s, [COMMA] + t) ==> (OneRdnBefore(s, [COMMA] + t) <==> |c| == |p| + 1))
            && (s == t <==> c == p)
  {
    hide Join, IsSuffix, Normal;
    RootTests(p);
    NeverBlankSuffix(c, Join(p));
    EndsWithName(c, p);
    if EndsWith(Join(c), [COMMA] + Join(p)) {
      SuffixShorter(p, c);
      FrontNormal(c, |c| - |p|);
      RootTests(c[..|c| - |p|]);
    }
    if Join(c) == Join(p) {
      JoinInjective(c, p);
    }
  }

  lemma FrontNormal(c: seq<seq<byte>>, k: nat)
    requires Normal(c) && k <= |c|
    ensures Normal(c[..k])
  {
  }

  /** On normalised names the string tests decide exactly the relations on RDN lists, up to case. */
  lemma ScopeTests(c: seq<seq<byte>>, p: seq<seq<byte>>)
    requires Normal(c) && Normal(p)
    ensures IsChildOf(Join(c), Join(p)) <==> |c| == |p| + 1 && IsSuffix(LowerAll(p), LowerAll(c))
    ensures IsDescendantOf(Join(c), Join(p)) <==> c != [] && IsSuffix(LowerAll(p), LowerAll(c))
  {
    hide Join, LowerAll, IsSuffix, Normal, HasComma, EndsWith, OneRdnBefore;
    var lc, lp := LowerAll(c), LowerAll(p);
    LowerAllNormal(c);
    LowerAllNormal(p);
    LowerJoin(c);
    LowerJoin(p);
    RootTests(lc);
    RootTests(lp);
    SuffixShorter(lp, lc);
    if p != [] {
      LoweredTests(lc, lp);
    }
  }

  // ---- Subtrees as iterated one-level searches ----

  /** `c` reaches `p` through `k` steps to a parent. */
  ghost predicate Reaches(c: seq<seq<byte>>, p: seq<seq<byte>>, k: nat)
    decreases k
  {
    if k == 0 then LowerAll(c) == LowerAll(p)
    else exists d: seq<seq<byte>> :: Normal(d) && IsChildOf(Join(c), Join(d)) && Reaches(d, p, k - 1)
  }

  lemma {:induction false} ReachesSuffix(c: seq<seq<byte>>, p: seq<seq<byte>>, k: nat)
    requires Normal(c) && Normal(p)
    ensures Reaches(c, p, k) <==> |c| == |p| + k && IsSuffix(LowerAll(p), LowerAll(c))
    decreases k
  {
    hide IsChildOf, LowerAll, Join;
    var lc, lp := LowerAll(c), LowerAll(p);
    if k == 0 {
      assert lc[0..] == lc;
    } else {
      if Reaches(c, p, k) {
        var d: seq<seq<byte>> :| Normal(d) && IsChildOf(Join(c), Join(d)) && Reaches(d, p, k - 1);
        ScopeTests(c, d);
        ReachesSuffix(d, p, k - 1);
        SuffixTransitive(lp, LowerAll(d), lc);
      }
      if |c| == |p| + k && IsSuffix(lp, lc) {
        StepUp(c, p);
        ReachesSuffix(c[1..], p, k - 1);
        assert Normal(c[1..]) && IsChildOf(Join(c), Join(c[1..]));
      }
    }
  }

  lemma SuffixTransitive(a: seq<seq<byte>>, b: seq<seq<byte>>, c: seq<seq<byte>>)
    requires IsSuffix(a, b) && IsSuffix(b, c)
    ensures IsSuffix(a, c)
  {
    assert c[|c| - |a|..] == c[|c| - |b|..][|b| - |a|..];
  }

  /** Dropping the leaf RDN is a step to the parent. */
  lemma StepUp(c: seq<seq<byte>>, p: seq<seq<byte>>)
    requires Normal(c) && |c| > |p| && IsSuffix(LowerAll(p), LowerAll(c))
    ensures Normal(c[1..]) && IsChildOf(Join(c), Join(c[1..])) && IsSuffix(LowerAll(p), LowerAll(c[1..]))
  {
    hide IsChildOf, Join, LowerAll, IsSuffix, Normal;
    LowerTail(c);
    TailNormal(c, 1);
    TailSuffix(LowerAll(p), LowerAll(c));
    ScopeTests(c, c[1..]);
  }

  lemma LowerTail(c: seq<seq<byte>>)
    requires c != []
    ensures LowerAll(c[1..]) == LowerAll(c)[1..]
  {
    hide Lower;
  }

  lemma TailSuffix(p: seq<seq<byte>>, c: seq<seq<byte>>)
    requires IsSuffix(p, c) && |c| > |p|
    ensures IsSuffix(p, c[1..]) && IsSuffix(c[1..], c)
  {
    assert c[1..][|c| - 1 - |p|..] == c[|c| - |p|..];
  }

  /** A subtree is the base with everything that one-level searches, repeated, lead to: being a
      descendant is the reflexive-transitive closure of being a child. The root has no entry. */
  lemma DescendantIsClosure(c: seq<seq<byte>>, p: seq<seq<byte>>)
    requires Normal(c) && Normal(p)
    ensures IsDescendantOf(Join(c), Join(p)) <==> c != [] && exists k: nat :: Reaches(c, p, k)
  {
    hide IsDescendantOf, IsChildOf, Join, Reaches, LowerAll, IsSuffix, Normal;
    ScopeTests(c, p);
    SuffixShorter(LowerAll(p), LowerAll(c));
    if IsSuffix(LowerAll(p), LowerAll(c)) {
      ReachesSuffix(c, p, |c| - |p|);
    }
    if exists k: nat :: Reaches(c, p, k) {
      var k: nat :| Reaches(c, p, k);
      ReachesSuffix(c, p, k);
    }
  }
}
