/** What the parser makes of a value, over any value text: escapes, stars, and the operator in front. */
module FilterValues {
  import opened Bytes
  import opened Utf8
  import opened Filters
  import opened FilterText
  import Utf8Text

  /** The blanks around a filter are the ASCII ones among those around a name, but for the vertical tab. */
  lemma AsciiBlanks(b: byte)
    ensures Blank(b) <==> b < 0x80 && b != 0x0B && Utf8Text.IsBlank(b as char)
  {
  }

  predicate IsHex(b: byte) {
    HexValue(b).Ok?
  }

  /** The digits of an escape may be of either case. */
  lemma HexEitherCase(b: byte)
    ensures IsHex(b) <==> 0x30 <= b <= 0x39 || 0x61 <= b <= 0x66 || 0x41 <= b <= 0x46
    ensures IsHex(b) ==> HexDigit(HexValue(b).value) == if b <= 0x46 && b > 0x39 then b + 0x20 else b
  {
  }

  /** The octets of the first character of a value text: an escape takes three. */
  function TokenSize(t: seq<byte>): (n: nat)
    requires t != []
    ensures 1 <= n <= 3
  {
    if t[0] == BACKSLASH then 3 else 1
  }

  /** A value text in which every backslash starts an escape and no parenthesis closes it early. */
  predicate WellEscaped(t: seq<byte>) {
    || t == []
    || (t[0] != CLOSE && TokenSize(t) <= |t| && (t[0] == BACKSLASH ==> IsHex(t[1]) && IsHex(t[2]))
        && WellEscaped(t[TokenSize(t)..]))
  }

  /** Somewhere outside an escape stands a star. */
  predicate Starred(t: seq<byte>)
    requires WellEscaped(t)
  {
    t != [] && (t[0] == STAR || Starred(t[TokenSize(t)..]))
  }

  /** The octets a value text spells, a star outside an escape being one of them. */
  function Unescaped(t: seq<byte>): (v: seq<byte>)
    requires WellEscaped(t)
    ensures t != [] ==> v != []
  {
    if t == [] then []
    else
      [if t[0] == BACKSLASH then 16 * HexValue(t[1]).value + HexValue(t[2]).value else t[0]]
      + Unescaped(t[TokenSize(t)..])
  }

  lemma TextRest(bytes: seq<byte>, pos: nat, t: seq<byte>, k: nat)
    requires At(bytes, pos, t) && k <= |t|
    ensures At(bytes, pos + k, t[k..])
    ensures forall i | 0 <= i < |t| :: bytes[pos + i] == t[i]
  {
    assert t == t[..k] + t[k..];
    AtSplit(bytes, pos, t[..k], t[k..]);
    forall i | 0 <= i < |t|
      ensures bytes[pos + i] == t[i]
    {
      assert bytes[pos..pos + |t|][i] == bytes[pos + i];
    }
  }

  /** A text without stars outside escapes. */
  predicate Plain(t: seq<byte>) {
    WellEscaped(t) && !Starred(t)
  }

  predicate AllPlain(ts: seq<seq<byte>>) {
    ts == [] || (Plain(ts[0]) && AllPlain(ts[1..]))
  }

  /** The texts with a star between each two. */
  function StarJoin(ts: seq<seq<byte>>): (t: seq<byte>)
    requires |ts| > 0
  {
    if |ts| == 1 then ts[0] else ts[0] + ([STAR] + StarJoin(ts[1..]))
  }

  /** The octet that the first character of a text spells. */
  function FirstOctet(t: seq<byte>): (b: byte)
    requires t != [] && WellEscaped(t)
  {
    if t[0] == BACKSLASH then 16 * HexValue(t[1]).value + HexValue(t[2]).value else t[0]
  }

  /** A character other than a star, in front of a text. */
  lemma TokenFront(t: seq<byte>, a: seq<byte>)
    requires t != [] && WellEscaped(t) && t[0] != STAR && WellEscaped(a)
    ensures var c := t[..TokenSize(t)];
            && WellEscaped(c + a) && Unescaped(c + a) == [FirstOctet(t)] + Unescaped(a) && (Plain(c + a) <==> Plain(a))
  {
    var n := TokenSize(t);
    var c := t[..n];
    assert (c + a)[n..] == a && (c + a)[..n] == c;
  }

  lemma GrowIs(v: seq<byte>, ts: seq<seq<byte>>)
    requires |ts| > 0
    ensures Grow(v, ts)[0] == v + ts[0] && Grow(v, ts)[1..] == ts[1..]
  {
  }

  lemma PlainGrow(t: seq<byte>, ts: seq<seq<byte>>)
    requires t != [] && WellEscaped(t) && t[0] != STAR && |ts| > 0 && AllPlain(ts)
    ensures AllPlain(Grow(t[..TokenSize(t)], ts))
  {
    hide Grow, Unescaped;
    TokenFront(t, ts[0]);
    GrowIs(t[..TokenSize(t)], ts);
  }

  lemma PlainCons(ts: seq<seq<byte>>)
    requires AllPlain(ts)
    ensures AllPlain([[]] + ts)
  {
    assert ([[]] + ts)[1..] == ts;
  }

  /** The text cut at its stars outside escapes. */
  function StarCut(t: seq<byte>): (ts: seq<seq<byte>>)
    requires WellEscaped(t)
    ensures |ts| > 0 && AllPlain(ts)
  {
    if t == [] then [[]]
    else
      var rest := StarCut(t[TokenSize(t)..]);
      if t[0] == STAR then PlainCons(rest); [[]] + rest
      else PlainGrow(t, rest); Grow(t[..TokenSize(t)], rest)
  }

  function Spelled(ts: seq<seq<byte>>): (vs: seq<seq<byte>>)
    requires AllPlain(ts)
    ensures |vs| == |ts|
  {
    if ts == [] then [] else [Unescaped(ts[0])] + Spelled(ts[1..])
  }

  lemma HeadAndTail(a: seq<seq<byte>>, b: seq<seq<byte>>)
    requires a != [] && b != [] && a[0] == b[0] && a[1..] == b[1..]
    ensures a == b
  {
    assert a == [a[0]] + a[1..] && b == [b[0]] + b[1..];
  }

  lemma StarJoinIs(ts: seq<seq<byte>>)
    requires |ts| > 0
    ensures StarJoin(ts) == if |ts| == 1 then ts[0] else ts[0] + ([STAR] + StarJoin(ts[1..]))
  {
  }

  lemma StarJoinGrow(v: seq<byte>, ts: seq<seq<byte>>)
    requires |ts| > 0
    ensures StarJoin(Grow(v, ts)) == v + StarJoin(ts)
  {
    hide Grow, StarJoin;
    var g := Grow(v, ts);
    GrowIs(v, ts);
    StarJoinIs(ts);
    StarJoinIs(g);
    if |ts| > 1 {
      Regroup(v, ts[0], [STAR] + StarJoin(ts[1..]));
    }
  }

  lemma StarJoinCons(ts: seq<seq<byte>>)
    requires |ts| > 0
    ensures StarJoin([[]] + ts) == [STAR] + StarJoin(ts)
  {
    hide StarJoin;
    StarJoinIs([[]] + ts);
    assert ([[]] + ts)[1..] == ts;
  }

  lemma StarCutNext(t: seq<byte>)
    requires t != [] && WellEscaped(t)
    ensures TokenSize(t) <= |t| && WellEscaped(t[TokenSize(t)..])
    ensures var rest := StarCut(t[TokenSize(t)..]);
            StarCut(t) == if t[0] == STAR then [[]] + rest else Grow(t[..TokenSize(t)], rest)
    ensures Starred(t) <==> t[0] == STAR || Starred(t[TokenSize(t)..])
  {
    hide Grow, AllPlain, Unescaped;
  }

  lemma StarCutNothing()
    ensures WellEscaped([]) && StarCut([]) == [[]] && !Starred([])
  {
  }

  /** The pieces of the cut, joined by stars, are the text again. */
  lemma {:induction false} StarCutIs(t: seq<byte>)
    requires WellEscaped(t)
    ensures StarJoin(StarCut(t)) == t
    ensures |StarCut(t)| == 1 <==> !Starred(t)
    decreases |t|
  {
    hide StarJoin, AllPlain, Grow, StarCut, WellEscaped, Starred;
    if t == [] {
      StarCutNothing();
      StarJoinIs([[]]);
    } else {
      StarCutNext(t);
      var n := TokenSize(t);
      var rest := StarCut(t[n..]);
      StarCutIs(t[n..]);
      if t[0] == STAR {
        StarJoinCons(rest);
        assert t == [STAR] + t[1..];
      } else {
        StarJoinGrow(t[..n], rest);
        GrowIs(t[..n], rest);
        assert t == t[..n] + t[n..];
      }
    }
  }

  lemma StarFront(a: seq<byte>)
    requires WellEscaped(a)
    ensures WellEscaped([STAR] + a) && StarCut([STAR] + a) == [[]] + StarCut(a)
  {
    assert ([STAR] + a)[1..] == a;
  }

  lemma TokenCut(t: seq<byte>, a: seq<byte>)
    requires t != [] && WellEscaped(t) && t[0] != STAR && WellEscaped(a)
    ensures var c := t[..TokenSize(t)];
            WellEscaped(c + a) && StarCut(c + a) == Grow(c, StarCut(a))
  {
    hide Grow, AllPlain, Unescaped;
    var n := TokenSize(t);
    var c := t[..n];
    TokenFront(t, a);
    assert (c + a)[n..] == a && (c + a)[..n] == c && TokenSize(c + a) == n;
  }

  lemma {:induction false} StarCutPlainFront(a: seq<byte>, b: seq<byte>)
    requires Plain(a) && WellEscaped(b)
    ensures WellEscaped(a + b) && StarCut(a + b) == Grow(a, StarCut(b))
    decreases |a|
  {
    hide StarCut, Grow, Unescaped;
    GrowTwice([], [], StarCut(b));
    if a == [] {
      assert a + b == b;
    } else {
      var n := TokenSize(a);
      var c, rest := a[..n], a[n..];
      StarCutPlainFront(rest, b);
      TokenCut(a, rest + b);
      Regroup(c, rest, b);
      assert a == c + rest;
      GrowTwice(c, rest, StarCut(b));
    }
  }

  /** The cut is the only way to write the text as plain texts joined by stars. */
  lemma {:induction false} StarCutOfJoin(ts: seq<seq<byte>>)
    requires |ts| > 0 && AllPlain(ts)
    ensures WellEscaped(StarJoin(ts)) && StarCut(StarJoin(ts)) == ts
  {
    hide StarCut, Grow, Plain, StarJoin, WellEscaped;
    PlainIs(ts[0]);
    StarJoinIs(ts);
    if |ts| == 1 {
      StarCutOfPlain(ts[0]);
    } else {
      StarCutOfJoin(ts[1..]);
      var rest := StarJoin(ts[1..]);
      StarFront(rest);
      StarCutPlainFront(ts[0], [STAR] + rest);
      GrowIs(ts[0], [[]] + ts[1..]);
      HeadAndTail(Grow(ts[0], [[]] + ts[1..]), ts);
    }
  }

  lemma StarCutOfPlain(t: seq<byte>)
    requires Plain(t)
    ensures StarCut(t) == [t]
  {
    hide StarCut, WellEscaped;
    StarCutIs(t);
    assert StarCut(t) == [StarCut(t)[0]];
  }

  lemma PlainIs(t: seq<byte>)
    requires Plain(t)
    ensures WellEscaped(t) && !Starred(t)
  {
  }

  lemma SpelledGrow(t: seq<byte>, ts: seq<seq<byte>>)
    requires t != [] && WellEscaped(t) && t[0] != STAR && |ts| > 0 && AllPlain(ts)
    ensures AllPlain(Grow(t[..TokenSize(t)], ts))
    ensures Spelled(Grow(t[..TokenSize(t)], ts)) == Grow([FirstOctet(t)], Spelled(ts))
  {
    hide Unescaped, Grow, WellEscaped, Plain;
    StarCutNext(t);
    var c := t[..TokenSize(t)];
    PlainGrow(t, ts);
    PlainIs(ts[0]);
    TokenFront(t, ts[0]);
    GrowIs(c, ts);
    GrowIs([FirstOctet(t)], Spelled(ts));
    HeadAndTail(Spelled(Grow(c, ts)), Grow([FirstOctet(t)], Spelled(ts)));
  }

  lemma SpelledCons(ts: seq<seq<byte>>)
    requires AllPlain(ts)
    ensures AllPlain([[]] + ts) && Spelled([[]] + ts) == [[]] + Spelled(ts)
  {
    hide Plain;
    PlainCons(ts);
    NothingSpelled();
    assert ([[]] + ts)[1..] == ts;
  }

  lemma NothingSpelled()
    ensures Plain([]) && Unescaped([]) == []
  {
  }

  /** How the parser reads on: past a star, or past another character. */
  lemma PiecesNext(bytes: seq<byte>, pos: nat, t: seq<byte>)
    requires WellEscaped(t) && t != [] && At(bytes, pos, t) && pos + |t| < |bytes|
    requires PiecesAt(bytes, pos + TokenSize(t)).Ok?
    ensures var (ps, end) := PiecesAt(bytes, pos + TokenSize(t)).value;
            PiecesAt(bytes, pos) == Ok((if t[0] == STAR then [[]] + ps else Grow([FirstOctet(t)], ps), end))
  {
    hide Grow;
    TextRest(bytes, pos, t, TokenSize(t));
  }

  lemma NoPieces(bytes: seq<byte>, pos: nat)
    requires pos < |bytes| && bytes[pos] == CLOSE
    ensures WellEscaped([]) && PiecesAt(bytes, pos) == Ok((Spelled(StarCut([])), pos))
  {
    var none: seq<seq<byte>> := [];
    SpelledCons(none);
    assert [[]] + none == [[]] && Spelled(none) == none;
  }

  /** The pieces the parser reads are those of the cut, spelled out. */
  lemma {:induction false} WellEscapedPieces(bytes: seq<byte>, pos: nat, t: seq<byte>)
    requires WellEscaped(t) && At(bytes, pos, t) && pos + |t| < |bytes| && bytes[pos + |t|] == CLOSE
    ensures PiecesAt(bytes, pos) == Ok((Spelled(StarCut(t)), pos + |t|))
    decreases |t|
  {
    hide AllPlain, Starred, Spelled, Grow, PiecesAt, StarCut, WellEscaped, FirstOctet;
    if t == [] {
      NoPieces(bytes, pos);
    } else {
      StarCutNext(t);
      var n := TokenSize(t);
      TextRest(bytes, pos, t, n);
      WellEscapedPieces(bytes, pos + n, t[n..]);
      PiecesNext(bytes, pos, t);
      if t[0] == STAR {
        SpelledCons(StarCut(t[1..]));
      } else {
        SpelledGrow(t, StarCut(t[n..]));
      }
    }
  }

  /** Any other text is refused, or ends at a parenthesis inside it. */
  lemma {:induction false} IllEscapedPieces(bytes: seq<byte>, pos: nat, t: seq<byte>)
    requires !WellEscaped(t) && At(bytes, pos, t) && pos + |t| < |bytes| && bytes[pos + |t|] == CLOSE
    ensures PiecesAt(bytes, pos).Ok? ==>
              pos <= PiecesAt(bytes, pos).value.1 < pos + |t| && bytes[PiecesAt(bytes, pos).value.1] == CLOSE
    decreases |t|
  {
    hide Grow;
    var n := TokenSize(t);
    if t[0] != CLOSE && n <= |t| {
      TextRest(bytes, pos, t, n);
      if t[0] == BACKSLASH ==> IsHex(t[1]) && IsHex(t[2]) {
        IllEscapedPieces(bytes, pos + n, t[n..]);
      }
    } else {
      TextRest(bytes, pos, t, 0);
    }
  }

  lemma RawPieces(name: Utf8String, o: seq<byte>, t: seq<byte>)
    requires ReadableName(name) && Trim(name) != [] && Operator(o)
    ensures var bytes, at := Layout(name, o, t), 1 + |name| + |o|;
            && At(bytes, at, t) && at + |t| + 1 == |bytes| && bytes[at + |t|] == CLOSE
            && bytes[0] == OPEN && !Mark(bytes[1])
    ensures var bytes, at := Layout(name, o, t), 1 + |name| + |o|;
            && (PiecesAt(bytes, at).Err? ==> SimpleAt(bytes, 1).Err?)
            && (PiecesAt(bytes, at).Ok? ==>
                  var (ps, end) := PiecesAt(bytes, at).value;
                  SimpleAt(bytes, 1) == Ok((Assemble(o[0], Trim(name), TokensOf(ps)), end)))
  {
    hide Layout, IsUtf8, AttributeEnd, PiecesAt, SimpleAt, Assemble, TokensOf, Trim, Mark, Operator, ReadableName;
    var bytes: seq<byte> := Layout(name, o, t);
    assert bytes[0..|bytes|] == bytes;
    OperatorSize(o);
    LayoutAt(bytes, 0, name, o, t);
    var at := 1 + |name| + |o|;
    TextRest(bytes, at + |t|, [CLOSE], 0);
    if PiecesAt(bytes, at).Ok? {
      var (ps, end) := PiecesAt(bytes, at).value;
      HeadReadsBack(bytes, 1, name, o, at, ps, end);
    } else {
      HeadThenFails(bytes, 1, name, o, at);
    }
  }

  lemma SimpleAtFails(bytes: seq<byte>, pos: nat, end: nat, at: nat)
    requires pos <= end < |bytes| && end == AttributeEnd(bytes, pos) && at <= |bytes| && PiecesAt(bytes, at).Err?
    requires || (bytes[end] == EQUALS && at == end + 1)
             || (bytes[end] != EQUALS && at == end + 2 && bytes[end + 1] == EQUALS)
    ensures SimpleAt(bytes, pos).Err?
  {
    hide Trim, IsUtf8, PiecesAt, Assemble, TokensOf, AttributeEnd;
  }

  lemma HeadThenFails(bytes: seq<byte>, pos: nat, name: Utf8String, o: seq<byte>, at: nat)
    requires ReadableName(name) && Operator(o) && at == pos + |name| + |o| <= |bytes|
    requires At(bytes, pos, name + [o[0]]) && At(bytes, pos + |name|, o)
    requires PiecesAt(bytes, at).Err?
    ensures SimpleAt(bytes, pos).Err? && !Mark(bytes[pos])
  {
    hide IsUtf8, AttributeEnd, Trim, PiecesAt, SimpleAt, ReadableName, Operator, Delimiter, At, Mark;
    OperatorSize(o);
    var end := pos + |name|;
    OperatorAt(bytes, end, o);
    NameReadsBack(bytes, pos, name, o[0]);
    SimpleAtFails(bytes, pos, end, at);
  }

  lemma FilterAtFails(bytes: seq<byte>, pos: nat)
    requires pos + 1 < |bytes| && bytes[pos] == OPEN && !Mark(bytes[pos + 1])
    requires SimpleAt(bytes, pos + 1).Err?
    ensures FilterAt(bytes, pos).Err?
  {
    hide SimpleAt, ListAt;
  }

  lemma {:induction false} BlanksStop(bytes: seq<byte>, pos: nat, end: nat)
    requires pos <= end < |bytes| && bytes[end] == CLOSE
    ensures SkipBlanks(bytes, pos) <= end
    decreases end - pos
  {
    if pos < end {
      BlanksStop(bytes, pos + 1, end);
    }
  }

  lemma TrailingRefused(bytes: seq<byte>, f: Filter, after: nat)
    requires bytes != [] && bytes[0] == OPEN && bytes[|bytes| - 1] == CLOSE
    requires FilterAt(bytes, 0) == Ok((f, after)) && after < |bytes|
    ensures Parse(bytes).Err?
  {
    hide FilterAt;
    BlanksStop(bytes, after, |bytes| - 1);
  }

  lemma StarsAreDropped(op: byte, name: Utf8String, ps: seq<seq<byte>>)
    requires |ps| > 1 && Ordering(op)
    ensures Assemble(op, name, TokensOf(ps)) == Assemble(op, name, Single([]))
  {
  }

  lemma IllEscapedRefused(name: Utf8String, o: seq<byte>, t: seq<byte>)
    requires ReadableName(name) && Trim(name) != [] && Operator(o) && !WellEscaped(t)
    ensures Parse(Layout(name, o, t)).Err?
  {
    hide FilterAt, SimpleAt, PiecesAt, Assemble, TokensOf, Layout, ReadableName, Trim, WellEscaped, Mark;
    var bytes, at := Layout(name, o, t), 1 + |name| + |o|;
    RawPieces(name, o, t);
    IllEscapedPieces(bytes, at, t);
    if PiecesAt(bytes, at).Ok? {
      var (ps, end) := PiecesAt(bytes, at).value;
      FilterAtSimple(bytes, 0, Assemble(o[0], Trim(name), TokensOf(ps)), end);
      TrailingRefused(bytes, Assemble(o[0], Trim(name), TokensOf(ps)), end + 1);
    } else {
      FilterAtFails(bytes, 0);
    }
  }

  /** A name, an operator and any value text. It parses exactly when the text is well escaped, to what the
      operator makes of the pieces of its cut; blanks around the name are dropped. */
  lemma RawParses(name: Utf8String, o: seq<byte>, t: seq<byte>)
    requires ReadableName(name) && Trim(name) != [] && Operator(o)
    ensures Parse(Layout(name, o, t)).Ok? <==> WellEscaped(t)
    ensures WellEscaped(t) ==>
              Parse(Layout(name, o, t)) == Ok(Assemble(o[0], Trim(name), TokensOf(Spelled(StarCut(t)))))
  {
    hide Parse, FilterAt, SimpleAt, PiecesAt, Layout, ReadableName, Trim, WellEscaped, Mark, Assemble, TokensOf;
    hide StarCut, Spelled, AllPlain;
    if !WellEscaped(t) {
      IllEscapedRefused(name, o, t);
    } else {
      var bytes, at := Layout(name, o, t), 1 + |name| + |o|;
      RawPieces(name, o, t);
      WellEscapedPieces(bytes, at, t);
      var f := Assemble(o[0], Trim(name), TokensOf(Spelled(StarCut(t))));
      FilterAtSimple(bytes, 0, f, at + |t|);
      WholeText(bytes, f);
    }
  }

  /** Blanks around a name make no difference. */
  lemma NameIsTrimmed(name: Utf8String, o: seq<byte>, t: seq<byte>)
    requires ReadableName(name) && PrintableName(Trim(name)) && Operator(o)
    ensures Parse(Layout(name, o, t)).Ok? <==> WellEscaped(t)
    ensures WellEscaped(t) ==> Parse(Layout(name, o, t)) == Parse(Layout(Trim(name), o, t))
  {
    hide Parse, Layout, Trim, WellEscaped, Assemble, TokensOf, StarCut, Spelled, Operator;
    RawParses(name, o, t);
    RawParses(Trim(name), o, t);
  }

  /** A text of one piece spells it. */
  lemma PlainPieces(t: seq<byte>)
    requires WellEscaped(t)
    ensures |Spelled(StarCut(t))| == 1 <==> !Starred(t)
    ensures !Starred(t) ==> Spelled(StarCut(t)) == [Unescaped(t)]
  {
    hide StarCut, WellEscaped, Starred, StarJoin, Unescaped;
    StarCutIs(t);
    if !Starred(t) {
      StarCutOfPlain(t);
      assert [t][1..] == [];
    }
  }

  /** An ordering or approximate match over any value text. It parses exactly when the text is well
      escaped. The value is then the one the text spells exactly when no star stands outside an escape;
      otherwise it is silently replaced by the empty value. No text is refused for a star. */
  lemma StarredOrderingIsEmptied(name: Utf8String, op: byte, t: seq<byte>)
    requires PrintableName(name) && Ordering(op)
    ensures Parse(Layout(name, [op, EQUALS], t)).Ok? <==> WellEscaped(t)
    ensures WellEscaped(t) ==>
              && Parse(Layout(name, [op, EQUALS], t)) ==
                 Ok(Assemble(op, name, Single(if Starred(t) then [] else Unescaped(t))))
              && (Parse(Layout(name, [op, EQUALS], t)) == Ok(Assemble(op, name, Single(Unescaped(t)))) <==> !Starred(t))
  {
    hide Parse, Layout, WellEscaped, StarCut, Spelled, Trim;
    RawParses(name, [op, EQUALS], t);
    if WellEscaped(t) {
      PlainPieces(t);
      if Starred(t) {
        StarsAreDropped(op, name, Spelled(StarCut(t)));
      }
    }
  }

  // ---- Values of equality matches, as raw text ----

  /** The parts between the first piece and the last, the empty ones dropped. */
  function MiddleParts(ps: seq<seq<byte>>): (cs: seq<Substring>)
  {
    if ps == [] then [] else (if ps[0] == [] then [] else [Any(ps[0])]) + MiddleParts(ps[1..])
  }

  function LastPart(p: seq<byte>): (cs: seq<Substring>)
  {
    if p == [] then [] else [Final(p)]
  }

  /** The pattern of two pieces or more: the first is initial, the last final, those between any, and empty
      ones are dropped. */
  function Pattern(ps: seq<seq<byte>>): (cs: seq<Substring>)
    requires |ps| > 1
  {
    var n := |ps| - 1;
    (if ps[0] == [] then [] else [Initial(ps[0])])
    + (MiddleParts(ps[1..n]) + LastPart(ps[n]))
  }

  lemma {:induction false} ChosenAfter(ps: seq<seq<byte>>, i: nat)
    requires 0 < i < |ps|
    ensures ChosenFrom(ps, i) == MiddleParts(ps[i..|ps| - 1]) + LastPart(ps[|ps| - 1])
    decreases |ps| - i
  {
    var n := |ps| - 1;
    if i == n {
      assert ChosenFrom(ps, n + 1) == [] && MiddleParts(ps[n..n]) == [];
    } else {
      ChosenAfter(ps, i + 1);
      var mid := ps[i..n];
      assert mid[0] == ps[i] && mid[1..] == ps[i + 1..n];
      hide LastPart;
      Regroup(if ps[i] == [] then [] else [Any(ps[i])], MiddleParts(ps[i + 1..n]), LastPart(ps[n]));
    }
  }

  lemma ChosenIsPattern(ps: seq<seq<byte>>)
    requires |ps| > 1
    ensures ChosenFrom(ps, 0) == Pattern(ps)
  {
    hide MiddleParts;
    ChosenAfter(ps, 1);
  }

  /** Nothing but stars. */
  predicate AllStars(t: seq<byte>) {
    forall i | 0 <= i < |t| :: t[i] == STAR
  }

  predicate AllEmpty(ps: seq<seq<byte>>) {
    forall i | 0 <= i < |ps| :: ps[i] == []
  }

  lemma AllEmptyParts(ps: seq<seq<byte>>)
    requires ps != []
    ensures AllEmpty(ps) <==> ps[0] == [] && AllEmpty(ps[1..])
  {
    if AllEmpty(ps[1..]) {
      assert forall i | 0 < i < |ps| :: ps[i] == ps[1..][i - 1];
    }
  }

  lemma {:induction false} NoMiddle(ps: seq<seq<byte>>)
    ensures MiddleParts(ps) == [] <==> AllEmpty(ps)
  {
    if ps != [] {
      hide AllEmpty;
      NoMiddle(ps[1..]);
      AllEmptyParts(ps);
    }
  }

  /** A pattern is empty when all its pieces are. */
  lemma NoPattern(ps: seq<seq<byte>>)
    requires |ps| > 1
    ensures Pattern(ps) == [] <==> AllEmpty(ps)
  {
    hide MiddleParts;
    var n := |ps| - 1;
    NoMiddle(ps[1..n]);
    if AllEmpty(ps[1..n]) {
      assert forall i | 0 < i < n :: ps[i] == ps[1..n][i - 1];
    }
  }

  /** A text is nothing but stars when all its pieces are empty. */
  lemma {:induction false} AllStarsCut(t: seq<byte>)
    requires WellEscaped(t)
    ensures AllStars(t) <==> AllEmpty(StarCut(t))
  {
    if t != [] {
      hide WellEscaped, Grow, AllEmpty;
      StarCutNext(t);
      var n := TokenSize(t);
      var rest := StarCut(t[n..]);
      AllEmptyParts(StarCut(t));
      if t[0] == STAR {
        AllStarsCut(t[1..]);
        assert ([[]] + rest)[1..] == rest;
        AllStarsParts(t);
      } else {
        GrowIs(t[..n], rest);
      }
    }
  }

  lemma AllStarsParts(t: seq<byte>)
    requires t != []
    ensures AllStars(t) <==> t[0] == STAR && AllStars(t[1..])
  {
    if AllStars(t[1..]) {
      assert forall i | 0 < i < |t| :: t[i] == t[1..][i - 1];
    }
  }

  lemma {:induction false} SpelledEmpty(ts: seq<seq<byte>>)
    requires AllPlain(ts)
    ensures AllEmpty(Spelled(ts)) <==> AllEmpty(ts)
  {
    if ts != [] {
      hide WellEscaped, AllEmpty;
      SpelledEmpty(ts[1..]);
      NothingSpelled();
      AllEmptyParts(ts);
      AllEmptyParts(Spelled(ts));
      assert Spelled(ts)[1..] == Spelled(ts[1..]);
    }
  }

  /** A match by the equality operator over any value text. It parses exactly when the text is well escaped:
      to an equality with the value the text spells when no star stands outside an escape, to a presence test
      when the text is nothing but stars, and otherwise to the pattern of the pieces between the stars. */
  lemma EqualityText(name: Utf8String, t: seq<byte>)
    requires PrintableName(name)
    ensures Parse(Layout(name, [EQUALS], t)).Ok? <==> WellEscaped(t)
    ensures WellEscaped(t) ==>
              && (Starred(t) ==> |StarCut(t)| > 1)
              && Parse(Layout(name, [EQUALS], t)) ==
                 Ok(if !Starred(t) then Equality(name, Unescaped(t))
                    else if AllStars(t) then Present(name)
                    else Substrings(name, Pattern(Spelled(StarCut(t)))))
  {
    hide Parse, Layout, WellEscaped, StarCut, Spelled, Pattern, Unescaped, Starred, AllStars, Trim;
    RawParses(name, [EQUALS], t);
    if WellEscaped(t) {
      PlainPieces(t);
      if Starred(t) {
        var ps := Spelled(StarCut(t));
        ChosenIsPattern(ps);
        NoPattern(ps);
        SpelledEmpty(StarCut(t));
        AllStarsCut(t);
      }
    }
  }

  /** Two letters are a name. */
  lemma LettersArePrintable(name: seq<byte>)
    requires |name| == 2 && forall i | 0 <= i < 2 :: 0x61 <= name[i] <= 0x7A
    ensures IsUtf8(name) && PrintableName(name)
  {
    assert name[1..][1..] == [];
    assert IsUtf8(name[1..][1..]) && IsUtf8(name[1..]) && IsUtf8(name);
    assert BlankSize(name) == 0 && TrimStart(name) == name;
    assert BlankSize(name[1..]) == 0 && BlankSize(name[0..]) == 0 && TrailingBlank(name) == 0;
    assert TrimEnd(name) == name;
  }

  lemma LettersArePlain(t: seq<byte>)
    requires |t| == 2 && forall i | 0 <= i < 2 :: 0x61 <= t[i] <= 0x7A
    ensures Plain(t) && Unescaped(t) == t
  {
    assert t[1..][1..] == [];
    assert WellEscaped(t[1..][1..]) && WellEscaped(t[1..]);
    assert Unescaped(t[1..]) == [t[1]];
    assert !Starred(t[1..]);
    assert t == [t[0]] + [t[1]];
  }

  lemma TwoSpelled(a: seq<byte>, b: seq<byte>)
    requires Plain(a) && Plain(b)
    ensures AllPlain([a, b]) && Spelled([a, b]) == [Unescaped(a), Unescaped(b)]
  {
    assert [a, b][1..] == [b] && [b][1..] == [];
    assert Spelled([b]) == [Unescaped(b)];
  }

  /** One star between two plain texts. */
  lemma TwoCut(a: seq<byte>, b: seq<byte>)
    requires Plain(a) && Plain(b)
    ensures var t := a + [STAR] + b;
            WellEscaped(t) && Starred(t) && AllPlain([a, b]) && StarCut(t) == [a, b]
  {
    hide StarCut, Plain, WellEscaped, Starred;
    TwoSpelled(a, b);
    StarCutOfJoin([a, b]);
    StarJoinIs([a, b]);
    assert [a, b][1..] == [b];
    StarJoinIs([b]);
    Regroup(a, [STAR], b);
    StarCutIs(StarJoin([a, b]));
  }

  /** `(name=a*b)` is a pattern with an initial and a final part. */
  lemma OneStarSeparates(name: Utf8String, a: seq<byte>, b: seq<byte>)
    requires PrintableName(name) && Plain(a) && Plain(b) && a != [] && b != []
    ensures WellEscaped(a) && WellEscaped(b)
    ensures Parse(Layout(name, [EQUALS], a + [STAR] + b)) ==
            Ok(Substrings(name, [Initial(Unescaped(a)), Final(Unescaped(b))]))
  {
    hide Parse, Layout, PrintableName, StarCut, Spelled, WellEscaped, Starred, AllPlain, Plain;
    PlainIs(a);
    PlainIs(b);
    var t := a + [STAR] + b;
    TwoCut(a, b);
    EqualityText(name, t);
    TwoSpelled(a, b);
    AllStarsCut(t);
    assert [a, b][0] != [];
    var ps := [Unescaped(a), Unescaped(b)];
    assert ps[1..1] == [] && MiddleParts([]) == [];
    assert Pattern(ps) == [Initial(ps[0])] + ([] + [Final(ps[1])]) == [Initial(ps[0]), Final(ps[1])];
  }

  /** `(cn>=al*ce)` comes back with no value at all; `(cn=al*ce)` has an initial and a final part. */
  lemma LoneStar()
    ensures var cn: seq<byte> := [0x63, 0x6E];
            var al, ce: seq<byte> := [0x61, 0x6C], [0x63, 0x65];
            && IsUtf8(cn)
            && Parse(Layout(cn, [GREATER, EQUALS], al + [STAR] + ce)) == Ok(GreaterOrEqual(cn, []))
            && Parse(Layout(cn, [EQUALS], al + [STAR] + ce)) == Ok(Substrings(cn, [Initial(al), Final(ce)]))
  {
    hide Parse, Layout, PrintableName, IsUtf8, Plain, WellEscaped, Starred, Unescaped, StarCut;
    var cn: seq<byte> := [0x63, 0x6E];
    var al, ce: seq<byte> := [0x61, 0x6C], [0x63, 0x65];
    LettersArePrintable(cn);
    LettersArePlain(al);
    LettersArePlain(ce);
    TwoCut(al, ce);
    StarredOrderingIsEmptied(cn, GREATER, al + [STAR] + ce);
    OneStarSeparates(cn, al, ce);
  }
}
