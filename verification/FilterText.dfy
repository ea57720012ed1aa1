/** The string form of search filters (section 3 of RFC 4515): printer, parser and their round trip. */
module FilterText {
  import opened Bytes
  import opened Utf8
  import opened Filters

  const BANG: byte := 0x21
  const AMP: byte := 0x26
  const OPEN: byte := 0x28
  const CLOSE: byte := 0x29
  const STAR: byte := 0x2A
  const LESS: byte := 0x3C
  const EQUALS: byte := 0x3D
  const GREATER: byte := 0x3E
  const BACKSLASH: byte := 0x5C
  const PIPE: byte := 0x7C
  const TILDE: byte := 0x7E

  datatype ParseError =
    | ExpectedOpenParen(at: nat)
    | ExpectedCloseParen(at: nat)
    | EmptyComponent(at: nat)
    | UnsupportedOperator(op: byte, at: nat)
    | UnexpectedEof(at: nat)
    | TrailingText(at: nat)
    | InvalidEscape(at: nat)

  type Parsed<T> = Result<(T, nat), ParseError>

  // ---- Printing ----

  function HexDigit(n: nat): (b: byte)
    requires n < 16
  {
    if n < 10 then 0x30 + n else 0x61 + n - 10
  }

  predicate MustEscape(b: byte) {
    b == STAR || b == OPEN || b == CLOSE || b == BACKSLASH || b < 0x20 || b > 0x7E
  }

  function EscapeOctet(b: byte): (s: seq<byte>)
  {
    if MustEscape(b) then [BACKSLASH, HexDigit(b / 16), HexDigit(b % 16)] else [b]
  }

  function Escape(v: seq<byte>): (s: seq<byte>)
  {
    if v == [] then [] else EscapeOctet(v[0]) + Escape(v[1..])
  }

  function PartsText(parts: seq<Substring>): (s: seq<byte>)
  {
    if parts == [] then []
    else if parts[0].Any? then [STAR] + (Escape(parts[0].text) + ([STAR] + PartsText(parts[1..])))
    else Escape(parts[0].text) + PartsText(parts[1..])
  }

  predicate Simple(f: Filter) {
    !f.And? && !f.Or? && !f.Not?
  }

  function OperatorText(f: Filter): (s: seq<byte>)
    requires Simple(f)
  {
    match f
    case GreaterOrEqual(_, _) => [GREATER, EQUALS]
    case LessOrEqual(_, _) => [LESS, EQUALS]
    case Approx(_, _) => [TILDE, EQUALS]
    case _ => [EQUALS]
  }

  function ValueText(f: Filter): (s: seq<byte>)
    requires Simple(f)
  {
    if f.Present? then [STAR] else if f.Substrings? then PartsText(f.parts) else Escape(f.value)
  }

  /** The printed form. */
  function Text(f: Filter): (s: seq<byte>)
    ensures |s| > 0 && s[0] == OPEN
    decreases f, 1
  {
    match f
    case And(subs) => [OPEN, AMP] + (ListText(subs) + [CLOSE])
    case Or(subs) => [OPEN, PIPE] + (ListText(subs) + [CLOSE])
    case Not(inner) => [OPEN, BANG] + (Text(inner) + [CLOSE])
    case _ => [OPEN] + (f.attribute + (OperatorText(f) + (ValueText(f) + [CLOSE])))
  }

  function ListText(fs: seq<Filter>): (s: seq<byte>)
    decreases fs, 0
  {
    if fs == [] then [] else Text(fs[0]) + ListText(fs[1..])
  }

  // ---- Parsing ----

  function HexValue(b: byte): (r: Result<nat, ParseError>)
    ensures r.Ok? ==> r.value < 16
  {
    if 0x30 <= b <= 0x39 then Ok(b - 0x30)
    else if 0x61 <= b <= 0x66 then Ok(b - 0x61 + 10)
    else if 0x41 <= b <= 0x46 then Ok(b - 0x41 + 10)
    else Err(InvalidEscape(b))
  }

  /** The pieces of the value at `pos` between unescaped stars, and the offset where it ends. */
  function PiecesAt(bytes: seq<byte>, pos: nat): (r: Parsed<seq<seq<byte>>>)
    requires pos <= |bytes|
    ensures r.Ok? ==> |r.value.0| > 0 && pos <= r.value.1 <= |bytes|
    decreases |bytes| - pos
  {
    if pos == |bytes| || bytes[pos] == CLOSE then Ok(([[]], pos))
    else if bytes[pos] == STAR then
      var (ps, end) :- PiecesAt(bytes, pos + 1);
      Ok(([[]] + ps, end))
    else if bytes[pos] == BACKSLASH then
      if pos + 2 >= |bytes| then Err(InvalidEscape(pos + 1))
      else
        var high :- HexValue(bytes[pos + 1]);
        var low :- HexValue(bytes[pos + 2]);
        var (ps, end) :- PiecesAt(bytes, pos + 3);
        Ok((Grow([16 * high + low], ps), end))
    else
      var (ps, end) :- PiecesAt(bytes, pos + 1);
      Ok((Grow([bytes[pos]], ps), end))
  }

  /** Octets put in front of the first piece. */
  function Grow(v: seq<byte>, ps: seq<seq<byte>>): (r: seq<seq<byte>>)
    requires |ps| > 0
    ensures |r| == |ps|
  {
    [v + ps[0]] + ps[1..]
  }

  /** The substring choices of the pieces from index `i` on: empty pieces are dropped, the first one
      is initial, the last one final, those between any. */
  function ChosenFrom(ps: seq<seq<byte>>, i: nat): (cs: seq<Substring>)
    requires i <= |ps|
    decreases |ps| - i
  {
    if i == |ps| then []
    else if ps[i] == [] then ChosenFrom(ps, i + 1)
    else
      [if i == 0 then Initial(ps[i]) else if i == |ps| - 1 then Final(ps[i]) else Any(ps[i])]
      + ChosenFrom(ps, i + 1)
  }

  datatype ValueTokens = PresentToken | SubstringTokens(parts: seq<Substring>) | Single(value: seq<byte>)

  function TokensOf(ps: seq<seq<byte>>): (t: ValueTokens)
    requires |ps| > 0
  {
    if |ps| == 1 then Single(ps[0])
    else if ChosenFrom(ps, 0) == [] then PresentToken
    else SubstringTokens(ChosenFrom(ps, 0))
  }

  predicate Delimiter(b: byte) {
    b == EQUALS || b == LESS || b == GREATER || b == TILDE || b == CLOSE
  }

  /** The offset of the first delimiter from `pos` on, or the end of the text. */
  function AttributeEnd(bytes: seq<byte>, pos: nat): (end: nat)
    requires pos <= |bytes|
    ensures pos <= end <= |bytes|
    ensures forall i | pos <= i < end :: !Delimiter(bytes[i])
    ensures end < |bytes| ==> Delimiter(bytes[end])
    decreases |bytes| - pos
  {
    if pos == |bytes| || Delimiter(bytes[pos]) then pos else AttributeEnd(bytes, pos + 1)
  }

  /** What the operator makes of the value. An ordering or approximate match has no use for stars:
      a value with an unescaped star becomes the empty value. */
  function Assemble(op: byte, attribute: Utf8String, t: ValueTokens): (f: Filter)
    ensures Simple(f) && f.attribute == attribute
  {
    var plain := if t.Single? then t.value else [];
    if op == GREATER then GreaterOrEqual(attribute, plain)
    else if op == LESS then LessOrEqual(attribute, plain)
    else if op == TILDE then Approx(attribute, plain)
    else
      match t
      case PresentToken => Present(attribute)
      case SubstringTokens(parts) => Substrings(attribute, parts)
      case Single(value) => Equality(attribute, value)
  }

  datatype Head = Head(attribute: Utf8String, op: byte, valueAt: nat)

  /** The attribute and the operator, from just after the opening parenthesis. */
  function HeadAt(bytes: seq<byte>, pos: nat): (r: Result<Head, ParseError>)
    requires pos <= |bytes|
    ensures r.Ok? ==> pos <= r.value.valueAt <= |bytes|
  {
    var end := AttributeEnd(bytes, pos);
    if end == |bytes| then Err(UnexpectedEof(end))
    else if !IsUtf8(bytes[pos..end]) then Err(InvalidEscape(pos))
    else
      var attribute := Trim(bytes[pos..end]);
      if attribute == [] then Err(EmptyComponent(pos))
      else if bytes[end] == EQUALS then Ok(Head(attribute, EQUALS, end + 1))
      else if bytes[end] == CLOSE || end + 1 == |bytes| || bytes[end + 1] != EQUALS then
        Err(UnsupportedOperator(bytes[end], end + 1))
      else Ok(Head(attribute, bytes[end], end + 2))
  }

  /** Attribute, operator and value, from just after the opening parenthesis. */
  function SimpleAt(bytes: seq<byte>, pos: nat): (r: Parsed<Filter>)
    requires pos <= |bytes|
    ensures r.Ok? ==> pos <= r.value.1 <= |bytes| && Simple(r.value.0)
  {
    var head :- HeadAt(bytes, pos);
    var (ps, after) :- PiecesAt(bytes, head.valueAt);
    Ok((Assemble(head.op, head.attribute, TokensOf(ps)), after))
  }

  function CloseAt(f: Filter, bytes: seq<byte>, pos: nat): (r: Parsed<Filter>)
    requires pos <= |bytes|
  {
    if pos == |bytes| then Err(UnexpectedEof(pos))
    else if bytes[pos] != CLOSE then Err(ExpectedCloseParen(pos))
    else Ok((f, pos + 1))
  }

  /** The filter that starts at `pos`, and the offset after its closing parenthesis. */
  function FilterAt(bytes: seq<byte>, pos: nat): (r: Parsed<Filter>)
    requires pos <= |bytes|
    ensures r.Ok? ==> pos < r.value.1 <= |bytes|
    decreases |bytes| - pos, 1
  {
    if pos == |bytes| then Err(UnexpectedEof(pos))
    else if bytes[pos] != OPEN then Err(ExpectedOpenParen(pos))
    else if pos + 1 == |bytes| then Err(UnexpectedEof(pos + 1))
    else
      var c := bytes[pos + 1];
      if c == AMP || c == PIPE then
        var (subs, end) :- ListAt(bytes, pos + 2);
        if subs == [] then Err(EmptyComponent(end))
        else CloseAt(if c == AMP then And(subs) else Or(subs), bytes, end)
      else if c == BANG then
        var (inner, end) :- FilterAt(bytes, pos + 2);
        CloseAt(Not(inner), bytes, end)
      else
        var (f, end) :- SimpleAt(bytes, pos + 1);
        CloseAt(f, bytes, end)
  }

  /** The filters that follow one another from `pos` on. */
  function ListAt(bytes: seq<byte>, pos: nat): (r: Parsed<seq<Filter>>)
    requires pos <= |bytes|
    ensures r.Ok? ==> pos <= r.value.1 <= |bytes|
    decreases |bytes| - pos, 2
  {
    if pos == |bytes| || bytes[pos] != OPEN then Ok(([], pos))
    else
      var (f, end) :- FilterAt(bytes, pos);
      var (fs, end) :- ListAt(bytes, end);
      Ok(([f] + fs, end))
  }

  predicate Blank(b: byte) {
    b == 0x20 || b == 0x09 || b == 0x0A || b == 0x0C || b == 0x0D
  }

  function SkipBlanks(bytes: seq<byte>, pos: nat): (end: nat)
    requires pos <= |bytes|
    ensures pos <= end <= |bytes|
    decreases |bytes| - pos
  {
    if pos < |bytes| && Blank(bytes[pos]) then SkipBlanks(bytes, pos + 1) else pos
  }

  /** The filter that the whole text stands for. */
  function Parse(bytes: seq<byte>): (r: Result<Filter, ParseError>)
  {
    var (f, end) :- FilterAt(bytes, SkipBlanks(bytes, 0));
    var rest := SkipBlanks(bytes, end);
    if rest != |bytes| then Err(TrailingText(rest)) else Ok(f)
  }

  // ---- What survives printing and parsing ----

  predicate Mark(b: byte) {
    b == AMP || b == PIPE || b == BANG
  }

  /** Names that the parser reads up to their operator. */
  predicate ReadableName(name: seq<byte>) {
    name != [] && !Mark(name[0]) && forall i | 0 <= i < |name| :: !Delimiter(name[i])
  }

  /** Names that the parser reads back as they were printed. */
  predicate PrintableName(name: Utf8String) {
    ReadableName(name) && Trim(name) == name
  }

  /** One or more any parts and at most one final part, none empty. */
  predicate AnysThenFinal(parts: seq<Substring>) {
    && parts != [] && parts[0].Any? && parts[0].text != []
    && (|parts| == 1
        || (|parts| == 2 && parts[1].Final? && parts[1].text != [])
        || AnysThenFinal(parts[1..]))
  }

  predicate PrintableParts(parts: seq<Substring>) {
    || AnysThenFinal(parts)
    || (parts != [] && parts[0].Initial? && parts[0].text != [] && AnysThenFinal(parts[1..]))
  }

  predicate Printable(f: Filter)
    decreases f, 1
  {
    match f
    case And(subs) => subs != [] && AllPrintable(subs)
    case Or(subs) => subs != [] && AllPrintable(subs)
    case Not(inner) => Printable(inner)
    case Substrings(attribute, parts) => PrintableName(attribute) && PrintableParts(parts)
    case _ => PrintableName(f.attribute)
  }

  predicate AllPrintable(fs: seq<Filter>)
    decreases fs, 0
  {
    fs == [] || (Printable(fs[0]) && AllPrintable(fs[1..]))
  }

  // ---- Values ----

  lemma HexRoundTrip(b: byte)
    ensures HexValue(HexDigit(b / 16)) == Ok(b / 16) && HexValue(HexDigit(b % 16)) == Ok(b % 16)
  {
  }

  lemma EndOfValue(bytes: seq<byte>, end: nat)
    requires At(bytes, end, [CLOSE])
    ensures bytes[end] == CLOSE && PiecesAt(bytes, end) == Ok(([[]], end))
  {
    assert bytes[end] == bytes[end..end + 1][0];
  }

  lemma GrowTwice(a: seq<byte>, b: seq<byte>, ps: seq<seq<byte>>)
    requires |ps| > 0
    ensures Grow(a, Grow(b, ps)) == Grow(a + b, ps) && Grow([], ps) == ps
  {
    assert a + (b + ps[0]) == (a + b) + ps[0];
    assert [] + ps[0] == ps[0];
  }

  lemma OctetReadsBack(bytes: seq<byte>, pos: nat, b: byte)
    requires At(bytes, pos, EscapeOctet(b))
    requires PiecesAt(bytes, pos + |EscapeOctet(b)|).Ok?
    ensures var (ps, end) := PiecesAt(bytes, pos + |EscapeOctet(b)|).value;
            PiecesAt(bytes, pos) == Ok((Grow([b], ps), end))
  {
    var s := EscapeOctet(b);
    assert bytes[pos] == bytes[pos..pos + |s|][0] == s[0];
    if MustEscape(b) {
      HexRoundTrip(b);
      assert bytes[pos + 1] == bytes[pos..pos + 3][1] == s[1];
      assert bytes[pos + 2] == bytes[pos..pos + 3][2] == s[2];
    }
  }

  /** An escaped value reads back octet for octet, in front of whatever follows. */
  lemma {:induction false} EscapeReadsBack(
    bytes: seq<byte>, pos: nat, v: seq<byte>, after: nat, ps: seq<seq<byte>>, end: nat)
    requires At(bytes, pos, Escape(v)) && after == pos + |Escape(v)|
    requires PiecesAt(bytes, after) == Ok((ps, end))
    ensures PiecesAt(bytes, pos) == Ok((Grow(v, ps), end))
    decreases |v|
  {
    hide PiecesAt, Grow, EscapeOctet;
    if v == [] {
      GrowTwice([], [], ps);
    } else {
      AtSplit(bytes, pos, EscapeOctet(v[0]), Escape(v[1..]));
      EscapeReadsBack(bytes, pos + |EscapeOctet(v[0])|, v[1..], after, ps, end);
      OctetReadsBack(bytes, pos, v[0]);
      GrowTwice([v[0]], v[1..], ps);
      assert [v[0]] + v[1..] == v;
    }
  }

  /** The pieces that a printed list of parts is cut into. */
  function Cut(parts: seq<Substring>): (ps: seq<seq<byte>>)
    ensures |ps| > 0
  {
    if parts == [] then [[]]
    else if parts[0].Any? then [[], parts[0].text] + Cut(parts[1..])
    else Grow(parts[0].text, Cut(parts[1..]))
  }

  lemma StarReadsBack(bytes: seq<byte>, pos: nat, ps: seq<seq<byte>>, end: nat)
    requires At(bytes, pos, [STAR])
    requires PiecesAt(bytes, pos + 1) == Ok((ps, end))
    ensures PiecesAt(bytes, pos) == Ok(([[]] + ps, end))
  {
    assert bytes[pos] == bytes[pos..pos + 1][0];
  }

  lemma GrowEmpty(v: seq<byte>, ps: seq<seq<byte>>)
    ensures Grow(v, [[]] + ps) == [v] + ps
  {
    assert v + [] == v;
    assert ([[]] + ps)[1..] == ps;
  }

  lemma TextThenStar(bytes: seq<byte>, pos: nat, v: seq<byte>, after: nat, ps: seq<seq<byte>>, end: nat)
    requires At(bytes, pos, Escape(v)) && after == pos + |Escape(v)|
    requires PiecesAt(bytes, after) == Ok(([[]] + ps, end))
    ensures PiecesAt(bytes, pos) == Ok(([v] + ps, end))
  {
    hide Escape, PiecesAt, Grow;
    EscapeReadsBack(bytes, pos, v, after, [[]] + ps, end);
    GrowEmpty(v, ps);
  }

  lemma AnyReadsBack(bytes: seq<byte>, pos: nat, v: seq<byte>, after: nat, ps: seq<seq<byte>>, end: nat)
    requires At(bytes, pos, [STAR]) && At(bytes, pos + 1, Escape(v))
    requires after == pos + 1 + |Escape(v)| && At(bytes, after, [STAR])
    requires PiecesAt(bytes, after + 1) == Ok((ps, end))
    ensures PiecesAt(bytes, pos) == Ok(([[], v] + ps, end))
  {
    hide Escape, PiecesAt;
    StarReadsBack(bytes, after, ps, end);
    TextThenStar(bytes, pos + 1, v, after, ps, end);
    StarReadsBack(bytes, pos, [v] + ps, end);
    assert [[]] + ([v] + ps) == [[], v] + ps;
  }

  lemma StarredAt(bytes: seq<byte>, pos: nat, s: seq<byte>, rest: seq<byte>)
    requires At(bytes, pos, [STAR] + (s + ([STAR] + rest)))
    ensures At(bytes, pos, [STAR]) && At(bytes, pos + 1, s)
    ensures At(bytes, pos + 1 + |s|, [STAR]) && At(bytes, pos + 2 + |s|, rest)
  {
    AtSplit(bytes, pos, [STAR], s + ([STAR] + rest));
    AtSplit(bytes, pos + 1, s, [STAR] + rest);
    AtSplit(bytes, pos + 1 + |s|, [STAR], rest);
  }

  lemma {:induction false} PartsReadBack(bytes: seq<byte>, pos: nat, parts: seq<Substring>, end: nat)
    requires At(bytes, pos, PartsText(parts)) && end == pos + |PartsText(parts)| && At(bytes, end, [CLOSE])
    ensures PiecesAt(bytes, pos) == Ok((Cut(parts), end))
    decreases |parts|
  {
    hide Escape, Grow, PiecesAt;
    if parts == [] {
      EndOfValue(bytes, pos);
    } else {
      var v, rest := parts[0].text, PartsText(parts[1..]);
      if parts[0].Any? {
        var after := pos + 1 + |Escape(v)|;
        StarredAt(bytes, pos, Escape(v), rest);
        PartsReadBack(bytes, after + 1, parts[1..], end);
        AnyReadsBack(bytes, pos, v, after, Cut(parts[1..]), end);
      } else {
        var after := pos + |Escape(v)|;
        AtSplit(bytes, pos, Escape(v), rest);
        PartsReadBack(bytes, after, parts[1..], end);
        EscapeReadsBack(bytes, pos, v, after, Cut(parts[1..]), end);
      }
    }
  }

  lemma {:induction false} ChosenSame(ps: seq<seq<byte>>, qs: seq<seq<byte>>, i: nat)
    requires 0 < i <= |ps| == |qs| && ps[i..] == qs[i..]
    ensures ChosenFrom(ps, i) == ChosenFrom(qs, i)
    decreases |ps| - i
  {
    if i < |ps| {
      assert ps[i] == ps[i..][0] && qs[i] == qs[i..][0];
      assert ps[i + 1..] == ps[i..][1..] && qs[i + 1..] == qs[i..][1..];
      ChosenSame(ps, qs, i + 1);
    }
  }

  lemma {:induction false} AnysChosen(before: seq<seq<byte>>, parts: seq<Substring>)
    requires AnysThenFinal(parts)
    ensures Cut(parts)[0] == [] && |Cut(parts)| > 2
    ensures ChosenFrom(before + Cut(parts), |before|) == parts
    decreases |parts|
  {
    var ps, n := before + Cut(parts), |before|;
    var rest := Cut(parts[1..]);
    assert ps == (before + [[], parts[0].text]) + rest;
    assert ChosenFrom(ps, n) == [parts[0]] + ChosenFrom(ps, n + 2);
    if |parts| == 1 {
      assert rest == [[]];
    } else if |parts| == 2 && parts[1].Final? {
      assert Cut(parts[1..][1..]) == [[]];
      assert rest == [parts[1].text + []];
      assert ps[n + 2] == parts[1].text;
    } else {
      AnysChosen(before + [[], parts[0].text], parts[1..]);
    }
    assert [parts[0]] + parts[1..] == parts;
  }

  lemma PrintablePartsChosen(parts: seq<Substring>)
    requires PrintableParts(parts)
    ensures |Cut(parts)| > 1 && ChosenFrom(Cut(parts), 0) == parts
  {
    if AnysThenFinal(parts) {
      AnysChosen([], parts);
      assert [] + Cut(parts) == Cut(parts);
    } else {
      var rest := Cut(parts[1..]);
      AnysChosen([], parts[1..]);
      assert [] + rest == rest;
      assert parts[0].text + [] == parts[0].text;
      assert Cut(parts)[1..] == rest[1..];
      ChosenSame(Cut(parts), rest, 1);
      assert [parts[0]] + parts[1..] == parts;
    }
  }

  /** Parts as the parser makes them: none empty, initial only in front, final only at the back. */
  predicate Ordered(parts: seq<Substring>, front: bool) {
    forall k | 0 <= k < |parts| ::
      && parts[k].text != []
      && (parts[k].Initial? ==> k == 0 && front)
      && (parts[k].Final? ==> k == |parts| - 1)
  }

  lemma {:induction false} ChosenOrdered(ps: seq<seq<byte>>, i: nat)
    requires i <= |ps|
    ensures Ordered(ChosenFrom(ps, i), i == 0)
    ensures i == |ps| ==> ChosenFrom(ps, i) == []
    decreases |ps| - i
  {
    if i < |ps| {
      ChosenOrdered(ps, i + 1);
      if ps[i] != [] && i == |ps| - 1 {
        assert ChosenFrom(ps, i + 1) == [];
      }
    }
  }

  lemma {:induction false} CutNeedsAny(parts: seq<Substring>)
    requires forall k | 0 <= k < |parts| :: !parts[k].Any?
    ensures |Cut(parts)| == 1
  {
    if parts != [] {
      CutNeedsAny(parts[1..]);
    }
  }

  lemma {:induction false} OrderedAnys(parts: seq<Substring>)
    requires Ordered(parts, false)
    requires exists k :: 0 <= k < |parts| && parts[k].Any?
    ensures AnysThenFinal(parts)
  {
    var k :| 0 <= k < |parts| && parts[k].Any?;
    assert parts[0].Any?;
    if |parts| > 1 && !(|parts| == 2 && parts[1].Final?) {
      var rest := parts[1..];
      assert Ordered(rest, false);
      assert rest[0].Any?;
      OrderedAnys(rest);
    }
  }

  /** Conversely, only printable parts come back as themselves. */
  lemma OnlyPrintableParts(parts: seq<Substring>)
    requires TokensOf(Cut(parts)) == SubstringTokens(parts)
    ensures PrintableParts(parts)
  {
    ChosenOrdered(Cut(parts), 0);
    if forall k | 0 <= k < |parts| :: !parts[k].Any? {
      CutNeedsAny(parts);
      assert false;
    }
    var k :| 0 <= k < |parts| && parts[k].Any?;
    if parts[0].Initial? {
      var rest := parts[1..];
      assert Ordered(rest, false);
      assert rest[k - 1].Any?;
      OrderedAnys(rest);
    } else {
      assert Ordered(parts, false);
      OrderedAnys(parts);
    }
  }

  // ---- Simple filters ----

  /** The printed name ends at its operator exactly when it holds no delimiter. */
  lemma AttributeReadsBack(bytes: seq<byte>, pos: nat, name: seq<byte>, op: byte)
    requires At(bytes, pos, name + [op]) && Delimiter(op)
    ensures AttributeEnd(bytes, pos) <= pos + |name|
    ensures AttributeEnd(bytes, pos) == pos + |name| <==> forall i | 0 <= i < |name| :: !Delimiter(name[i])
    ensures bytes[pos + |name|] == op
  {
    var end := AttributeEnd(bytes, pos);
    forall i | 0 <= i <= |name|
      ensures bytes[pos + i] == (name + [op])[i]
    {
      assert bytes[pos..pos + |name| + 1][i] == bytes[pos + i];
    }
    assert Delimiter(bytes[pos + |name|]);
    if end < pos + |name| {
      assert Delimiter(name[end - pos]);
    } else {
      forall i | 0 <= i < |name|
        ensures !Delimiter(name[i])
      {
        assert !Delimiter(bytes[pos + i]);
      }
    }
  }

  /** What the value of a simple filter is cut into when it is read back. */
  function ValuePieces(f: Filter): (ps: seq<seq<byte>>)
    requires Simple(f)
    ensures |ps| > 0
  {
    if f.Present? then [[], []] else if f.Substrings? then Cut(f.parts) else [f.value]
  }

  lemma PlainReadsBack(bytes: seq<byte>, pos: nat, v: seq<byte>, end: nat)
    requires At(bytes, pos, Escape(v)) && end == pos + |Escape(v)| && At(bytes, end, [CLOSE])
    ensures PiecesAt(bytes, pos) == Ok(([v], end))
  {
    hide PiecesAt, Grow, Escape;
    EndOfValue(bytes, end);
    EscapeReadsBack(bytes, pos, v, end, [[]], end);
    var none: seq<seq<byte>> := [];
    GrowEmpty(v, none);
    assert [[]] + none == [[]] && [v] + none == [v];
  }

  lemma ValueReadsBack(bytes: seq<byte>, pos: nat, f: Filter, end: nat)
    requires Simple(f)
    requires At(bytes, pos, ValueText(f)) && end == pos + |ValueText(f)| && At(bytes, end, [CLOSE])
    ensures PiecesAt(bytes, pos) == Ok((ValuePieces(f), end))
  {
    hide PiecesAt, PartsText, Cut, Escape;
    if f.Present? {
      var empty: seq<seq<byte>> := [[]];
      EndOfValue(bytes, end);
      StarReadsBack(bytes, pos, empty, end);
      assert empty + empty == [[], []];
    } else if f.Substrings? {
      PartsReadBack(bytes, pos, f.parts, end);
    } else {
      PlainReadsBack(bytes, pos, f.value, end);
    }
  }

  /** Assembling the pieces gives the filter back exactly when its parts, if it has any, are printable. */
  lemma AssembleBack(f: Filter)
    requires Simple(f)
    ensures Assemble(OperatorText(f)[0], f.attribute, TokensOf(ValuePieces(f))) == f
            <==> (f.Substrings? ==> PrintableParts(f.parts))
  {
    if f.Substrings? {
      if PrintableParts(f.parts) {
        PrintablePartsChosen(f.parts);
      } else if TokensOf(Cut(f.parts)) == SubstringTokens(f.parts) {
        OnlyPrintableParts(f.parts);
      }
    } else if f.Present? {
      assert ChosenFrom([[], []], 1) == ChosenFrom([[], []], 2) == [];
    }
  }

  function Layout(name: seq<byte>, op: seq<byte>, value: seq<byte>): (s: seq<byte>)
    ensures |s| == |name| + |op| + |value| + 2
  {
    [OPEN] + (name + (op + (value + [CLOSE])))
  }

  lemma SimpleText(f: Filter)
    requires Simple(f)
    ensures Text(f) == Layout(f.attribute, OperatorText(f), ValueText(f))
  {
  }

  lemma LayoutAt(bytes: seq<byte>, pos: nat, name: seq<byte>, op: seq<byte>, value: seq<byte>)
    requires At(bytes, pos, Layout(name, op, value)) && op != []
    ensures bytes[pos] == OPEN && At(bytes, pos + 1, name + [op[0]])
    ensures At(bytes, pos + 1 + |name|, op) && At(bytes, pos + 1 + |name| + |op|, value)
    ensures At(bytes, pos + 1 + |name| + |op| + |value|, [CLOSE])
  {
    var at := pos + 1 + |name|;
    AtSplit(bytes, pos, [OPEN], name + (op + (value + [CLOSE])));
    AtSplit(bytes, pos + 1, name, op + (value + [CLOSE]));
    AtSplit(bytes, at, op, value + [CLOSE]);
    AtSplit(bytes, at + |op|, value, [CLOSE]);
    assert bytes[pos] == bytes[pos..pos + 1][0];
    assert bytes[at] == bytes[at..at + |op|][0];
    assert At(bytes, pos + 1, name + [op[0]]) by {
      assert bytes[pos + 1..at + 1] == bytes[pos + 1..at] + [bytes[at]];
    }
  }

  // What the parser does, one branch at a time.

  lemma SimpleAtIs(bytes: seq<byte>, pos: nat, end: nat, at: nat, name: Utf8String, ps: seq<seq<byte>>, after: nat)
    requires pos <= end < |bytes| && end == AttributeEnd(bytes, pos) && bytes[pos..end] == name && Trim(name) != []
    requires bytes[end] != CLOSE && at <= |bytes|
    requires || (bytes[end] == EQUALS && at == end + 1)
             || (bytes[end] != EQUALS && at == end + 2 && bytes[end + 1] == EQUALS)
    requires PiecesAt(bytes, at) == Ok((ps, after))
    ensures SimpleAt(bytes, pos) == Ok((Assemble(bytes[end], Trim(name), TokensOf(ps)), after))
  {
    hide Trim, IsUtf8, PiecesAt, Assemble, TokensOf, AttributeEnd;
  }

  lemma SimpleAtName(bytes: seq<byte>, pos: nat)
    requires pos <= |bytes| && SimpleAt(bytes, pos).Ok?
    ensures var end := AttributeEnd(bytes, pos);
            && end < |bytes| && IsUtf8(bytes[pos..end])
            && SimpleAt(bytes, pos).value.0.attribute == Trim(bytes[pos..end]) != []
  {
    hide PiecesAt, TokensOf, Trim, IsUtf8, AttributeEnd;
  }

  lemma FilterAtSimple(bytes: seq<byte>, pos: nat, f: Filter, end: nat)
    requires pos + 1 < |bytes| && bytes[pos] == OPEN && !Mark(bytes[pos + 1])
    requires SimpleAt(bytes, pos + 1) == Ok((f, end)) && end < |bytes| && bytes[end] == CLOSE
    ensures FilterAt(bytes, pos) == Ok((f, end + 1))
  {
    hide SimpleAt, ListAt;
  }

  /** The form of the result tells which branch was taken. */
  lemma FilterAtBranch(bytes: seq<byte>, pos: nat)
    requires pos <= |bytes| && FilterAt(bytes, pos).Ok?
    ensures var f := FilterAt(bytes, pos).value.0;
            && pos + 1 < |bytes|
            && (Simple(f) ==> !Mark(bytes[pos + 1]) && SimpleAt(bytes, pos + 1).Ok?
                              && SimpleAt(bytes, pos + 1).value.0 == f)
            && (f.Not? ==> FilterAt(bytes, pos + 2).Ok? && FilterAt(bytes, pos + 2).value.0 == f.inner)
            && (f.And? || f.Or? ==> f.subs != [] && ListAt(bytes, pos + 2).Ok?
                                    && ListAt(bytes, pos + 2).value.0 == f.subs)
  {
    hide SimpleAt, ListAt;
  }

  lemma FilterAtCompound(bytes: seq<byte>, pos: nat, f: Filter, end: nat)
    requires !Simple(f) && pos + 1 < |bytes| && bytes[pos] == OPEN && bytes[pos + 1] == CompoundMark(f)
    requires end < |bytes| && bytes[end] == CLOSE
    requires f.Not? ==> FilterAt(bytes, pos + 2) == Ok((f.inner, end))
    requires !f.Not? ==> f.subs != [] && ListAt(bytes, pos + 2) == Ok((f.subs, end))
    ensures FilterAt(bytes, pos) == Ok((f, end + 1))
  {
    hide SimpleAt, ListAt;
  }

  /** A readable name in its place is read back, blanks around it included. */
  lemma NameReadsBack(bytes: seq<byte>, pos: nat, name: Utf8String, op: byte)
    requires At(bytes, pos, name + [op]) && Delimiter(op) && ReadableName(name)
    ensures AttributeEnd(bytes, pos) == pos + |name| && bytes[pos..pos + |name|] == name
    ensures bytes[pos + |name|] == op && !Mark(bytes[pos])
  {
    hide IsUtf8, AttributeEnd, Trim;
    AttributeReadsBack(bytes, pos, name, op);
    FrontOf(bytes, pos, name, op);
    assert bytes[pos] == bytes[pos..pos + |name|][0];
  }

  lemma FrontOf(bytes: seq<byte>, pos: nat, name: seq<byte>, op: byte)
    requires At(bytes, pos, name + [op])
    ensures bytes[pos..pos + |name|] == name
  {
    assert bytes[pos..pos + |name| + 1][..|name|] == name;
  }

  /** A name that is read back as itself was printable. */
  lemma OnlyPrintableName(bytes: seq<byte>, pos: nat, name: Utf8String, op: byte)
    requires At(bytes, pos, name + [op]) && Delimiter(op)
    requires !Mark(bytes[pos]) && IsUtf8(bytes[pos..AttributeEnd(bytes, pos)])
    requires Trim(bytes[pos..AttributeEnd(bytes, pos)]) == name != []
    ensures PrintableName(name)
  {
    hide IsUtf8, AttributeEnd, Trim, Mark, Delimiter;
    AttributeReadsBack(bytes, pos, name, op);
    var end := AttributeEnd(bytes, pos);
    assert end - pos >= |name|;
    FrontOf(bytes, pos, name, op);
    assert bytes[pos] == bytes[pos..end][0];
  }

  predicate Ordering(op: byte) {
    op == GREATER || op == LESS || op == TILDE
  }

  /** The texts that stand between a name and a value. */
  predicate Operator(o: seq<byte>) {
    o == [EQUALS] || (|o| == 2 && Ordering(o[0]) && o[1] == EQUALS)
  }

  lemma OperatorFacts(f: Filter)
    requires Simple(f)
    ensures Operator(OperatorText(f))
  {
  }

  lemma OperatorAt(bytes: seq<byte>, end: nat, o: seq<byte>)
    requires Operator(o) && At(bytes, end, o)
    ensures end + |o| <= |bytes| && bytes[end] == o[0] && Delimiter(o[0]) && o[0] != CLOSE
    ensures |o| == 2 ==> o[0] != EQUALS && bytes[end + 1] == EQUALS
    ensures |o| == 1 ==> o[0] == EQUALS
  {
    assert bytes[end] == bytes[end..end + |o|][0];
    if |o| == 2 {
      assert bytes[end + 1] == bytes[end..end + 2][1];
    }
  }

  /** A readable name, an operator, and a value whose pieces are known. */
  lemma HeadReadsBack(bytes: seq<byte>, pos: nat, name: Utf8String, o: seq<byte>, at: nat, ps: seq<seq<byte>>,
                      close: nat)
    requires ReadableName(name) && Trim(name) != [] && Operator(o) && |ps| > 0
    requires At(bytes, pos, name + [o[0]]) && At(bytes, pos + |name|, o) && at == pos + |name| + |o| <= |bytes|
    requires PiecesAt(bytes, at) == Ok((ps, close))
    ensures SimpleAt(bytes, pos) == Ok((Assemble(o[0], Trim(name), TokensOf(ps)), close)) && !Mark(bytes[pos])
  {
    hide IsUtf8, AttributeEnd, Trim, PiecesAt, SimpleAt, Assemble, TokensOf, ReadableName, Operator, Delimiter, At;
    hide Mark;
    OperatorSize(o);
    var end := pos + |name|;
    OperatorAt(bytes, end, o);
    NameReadsBack(bytes, pos, name, o[0]);
    SimpleAtIs(bytes, pos, end, at, name, ps, close);
  }

  lemma OperatorSize(o: seq<byte>)
    requires Operator(o)
    ensures 1 <= |o| <= 2
  {
  }

  lemma SimpleReadsBack(bytes: seq<byte>, pos: nat, f: Filter)
    requires Simple(f) && At(bytes, pos, Text(f)) && PrintableName(f.attribute)
    ensures FilterAt(bytes, pos)
            == Ok((Assemble(OperatorText(f)[0], f.attribute, TokensOf(ValuePieces(f))), pos + |Text(f)|))
  {
    hide Text, ValueText, IsUtf8, Trim, PiecesAt, SimpleAt, FilterAt, Assemble, TokensOf, ValuePieces;
    hide OperatorText, Layout, ReadableName, Operator;
    var a, o, t := f.attribute, OperatorText(f), ValueText(f);
    SimpleText(f);
    OperatorFacts(f);
    OperatorSize(o);
    LayoutAt(bytes, pos, a, o, t);
    NotBlank(a);
    var at := pos + 1 + |a| + |o|;
    var close := at + |t|;
    ValueReadsBack(bytes, at, f, close);
    HeadReadsBack(bytes, pos + 1, a, o, at, ValuePieces(f), close);
    EndOfValue(bytes, close);
    FilterAtSimple(bytes, pos, Assemble(o[0], a, TokensOf(ValuePieces(f))), close);
  }

  lemma NotBlank(name: Utf8String)
    requires PrintableName(name)
    ensures name != [] && Trim(name) == name
  {
  }

  lemma OnlyPrintableSimple(bytes: seq<byte>, pos: nat, f: Filter)
    requires Simple(f) && At(bytes, pos, Text(f))
    requires FilterAt(bytes, pos).Ok? && FilterAt(bytes, pos).value.0 == f
    ensures Printable(f)
  {
    hide Text, ValueText, IsUtf8, AttributeEnd, Trim, SimpleAt, FilterAt, Assemble, TokensOf, ValuePieces;
    hide OperatorText, Layout, PrintableName, PrintableParts;
    FilterAtBranch(bytes, pos);
    SimpleAtName(bytes, pos + 1);
    SimpleText(f);
    OperatorFacts(f);
    LayoutAt(bytes, pos, f.attribute, OperatorText(f), ValueText(f));
    OnlyPrintableName(bytes, pos + 1, f.attribute, OperatorText(f)[0]);
    SimpleReadsBack(bytes, pos, f);
    AssembleBack(f);
  }

  // ---- All filters ----

  function CompoundMark(f: Filter): (b: byte)
    requires !Simple(f)
  {
    if f.And? then AMP else if f.Or? then PIPE else BANG
  }

  function Inside(f: Filter): (s: seq<byte>)
    requires !Simple(f)
  {
    if f.Not? then Text(f.inner) else ListText(f.subs)
  }

  lemma CompoundText(f: Filter)
    requires !Simple(f)
    ensures Text(f) == [OPEN, CompoundMark(f)] + (Inside(f) + [CLOSE])
  {
  }

  lemma CompoundAt(bytes: seq<byte>, pos: nat, mark: byte, inside: seq<byte>)
    requires At(bytes, pos, [OPEN, mark] + (inside + [CLOSE]))
    ensures bytes[pos] == OPEN && bytes[pos + 1] == mark
    ensures At(bytes, pos + 2, inside) && bytes[pos + 2 + |inside|] == CLOSE
  {
    AtSplit(bytes, pos, [OPEN, mark], inside + [CLOSE]);
    AtSplit(bytes, pos + 2, inside, [CLOSE]);
    assert bytes[pos] == bytes[pos..pos + 2][0] && bytes[pos + 1] == bytes[pos..pos + 2][1];
    assert bytes[pos + 2 + |inside|] == bytes[pos + 2 + |inside|..pos + 3 + |inside|][0];
  }

  lemma {:induction false} PrintableReadsBack(bytes: seq<byte>, pos: nat, f: Filter)
    requires At(bytes, pos, Text(f)) && Printable(f)
    ensures FilterAt(bytes, pos) == Ok((f, pos + |Text(f)|))
    decreases f, 1
  {
    hide Text, ListText, FilterAt, ListAt, Assemble, TokensOf, ValuePieces, OperatorText, PrintableName, PrintableParts;
    if Simple(f) {
      SimpleReadsBack(bytes, pos, f);
      AssembleBack(f);
    } else {
      CompoundText(f);
      CompoundAt(bytes, pos, CompoundMark(f), Inside(f));
      if f.Not? {
        PrintableReadsBack(bytes, pos + 2, f.inner);
      } else {
        PrintableListReadsBack(bytes, pos + 2, f.subs);
      }
      FilterAtCompound(bytes, pos, f, pos + 2 + |Inside(f)|);
    }
  }

  lemma ListAtStep(bytes: seq<byte>, pos: nat, f: Filter, end: nat, fs: seq<Filter>, after: nat)
    requires pos < |bytes| && bytes[pos] == OPEN
    requires FilterAt(bytes, pos) == Ok((f, end)) && ListAt(bytes, end) == Ok((fs, after))
    ensures ListAt(bytes, pos) == Ok(([f] + fs, after))
  {
    hide FilterAt;
  }

  lemma ListAtBranch(bytes: seq<byte>, pos: nat)
    requires pos <= |bytes| && ListAt(bytes, pos).Ok? && ListAt(bytes, pos).value.0 != []
    ensures var fs := ListAt(bytes, pos).value.0;
            && FilterAt(bytes, pos).Ok? && FilterAt(bytes, pos).value.0 == fs[0]
            && ListAt(bytes, FilterAt(bytes, pos).value.1).Ok?
            && ListAt(bytes, FilterAt(bytes, pos).value.1).value.0 == fs[1..]
  {
    hide FilterAt;
  }

  lemma {:induction false} PrintableListReadsBack(bytes: seq<byte>, pos: nat, fs: seq<Filter>)
    requires At(bytes, pos, ListText(fs)) && AllPrintable(fs)
    requires pos + |ListText(fs)| < |bytes| && bytes[pos + |ListText(fs)|] == CLOSE
    ensures ListAt(bytes, pos) == Ok((fs, pos + |ListText(fs)|))
    decreases fs, 0
  {
    hide Text, FilterAt, Printable;
    if fs != [] {
      var first, rest := Text(fs[0]), ListText(fs[1..]);
      AtSplit(bytes, pos, first, rest);
      PrintableReadsBack(bytes, pos, fs[0]);
      PrintableListReadsBack(bytes, pos + |first|, fs[1..]);
      assert bytes[pos] == bytes[pos..pos + |first|][0];
      ListAtStep(bytes, pos, fs[0], pos + |first|, fs[1..], pos + |ListText(fs)|);
      assert [fs[0]] + fs[1..] == fs;
    }
  }

  /** Conversely: wherever a printed filter is read back as itself, it was printable. */
  lemma {:induction false} OnlyPrintableReadsBack(bytes: seq<byte>, pos: nat, f: Filter)
    requires At(bytes, pos, Text(f))
    requires FilterAt(bytes, pos).Ok? && FilterAt(bytes, pos).value.0 == f
    ensures Printable(f)
    decreases f, 1
  {
    hide Text, ListText, FilterAt, ListAt, PrintableName;
    if Simple(f) {
      OnlyPrintableSimple(bytes, pos, f);
    } else {
      CompoundText(f);
      CompoundAt(bytes, pos, CompoundMark(f), Inside(f));
      FilterAtBranch(bytes, pos);
      if f.Not? {
        OnlyPrintableReadsBack(bytes, pos + 2, f.inner);
      } else {
        OnlyPrintableListReadsBack(bytes, pos + 2, f.subs);
      }
    }
  }

  lemma {:induction false} OnlyPrintableListReadsBack(bytes: seq<byte>, pos: nat, fs: seq<Filter>)
    requires At(bytes, pos, ListText(fs))
    requires ListAt(bytes, pos).Ok? && ListAt(bytes, pos).value.0 == fs
    ensures AllPrintable(fs)
    decreases fs, 0
  {
    hide Text, FilterAt, ListAt, Printable;
    if fs != [] {
      AtSplit(bytes, pos, Text(fs[0]), ListText(fs[1..]));
      ListAtBranch(bytes, pos);
      OnlyPrintableReadsBack(bytes, pos, fs[0]);
      PrintableReadsBack(bytes, pos, fs[0]);
      OnlyPrintableListReadsBack(bytes, pos + |Text(fs[0])|, fs[1..]);
    }
  }

  /** Parsing the printed form returns the same filter exactly for the printable filters: non-empty
      conjunctions and disjunctions, names without delimiters, surrounding blanks or a leading
      operator mark, and substring patterns that hold an any part in order. Values are arbitrary. */
  lemma TextRoundTrip(f: Filter)
    ensures Parse(Text(f)) == Ok(f) <==> Printable(f)
  {
    hide FilterAt, Printable, Text;
    var bytes := Text(f);
    assert bytes[0..|bytes|] == bytes;
    if Printable(f) {
      PrintableReadsBack(bytes, 0, f);
    }
    if Parse(bytes) == Ok(f) {
      OnlyPrintableReadsBack(bytes, 0, f);
    }
  }

  predicate AllBlank(s: seq<byte>) {
    forall i | 0 <= i < |s| :: Blank(s[i])
  }

  lemma {:induction false} BlanksSkipped(bytes: seq<byte>, pos: nat, a: seq<byte>)
    requires At(bytes, pos, a) && AllBlank(a) && (pos + |a| == |bytes| || !Blank(bytes[pos + |a|]))
    ensures SkipBlanks(bytes, pos) == pos + |a|
    decreases |a|
  {
    if a != [] {
      assert bytes[pos] == bytes[pos..pos + |a|][0];
      assert bytes[pos + 1..pos + |a|] == bytes[pos..pos + |a|][1..] == a[1..];
      BlanksSkipped(bytes, pos + 1, a[1..]);
    }
  }

  lemma FourParts(a: seq<byte>, b: seq<byte>, c: seq<byte>, d: seq<byte>)
    ensures var bytes, end := a + (b + (c + d)), |a| + |b|;
            && |bytes| == end + |c| + |d| && bytes[0..|a|] == a && bytes[|a|..end] == b && bytes[end..end + |c|] == c
            && (d != [] ==> bytes[end + |c|] == d[0])
  {
    var bytes, tail := a + (b + (c + d)), c + d;
    assert bytes == (a + b) + tail;
    assert tail[..|c|] == c;
  }

  /** Blanks around a printed filter do not matter; anything else behind it is refused. */
  lemma BlanksAround(f: Filter, a: seq<byte>, b: seq<byte>, more: seq<byte>)
    requires Printable(f) && AllBlank(a) && AllBlank(b) && (more != [] ==> !Blank(more[0]))
    ensures Parse(a + (Text(f) + (b + more))) ==
            if more == [] then Ok(f) else Err(TrailingText(|a| + |Text(f)| + |b|))
  {
    hide FilterAt, Printable, Text, SkipBlanks;
    var text := Text(f);
    var bytes := a + (text + (b + more));
    var end := |a| + |text|;
    FourParts(a, text, b, more);
    assert bytes[|a|] == text[0] == OPEN;
    BlanksSkipped(bytes, 0, a);
    PrintableReadsBack(bytes, |a|, f);
    BlanksSkipped(bytes, end, b);
  }

  /** An octet that is printed as it is. */
  predicate Verbatim(b: byte) {
    0x20 <= b <= 0x7E && b != STAR && b != OPEN && b != CLOSE && b != BACKSLASH
  }

  lemma EscapeOctetIs(b: byte)
    ensures EscapeOctet(b) == [b] <==> Verbatim(b)
    ensures |EscapeOctet(b)| == 1 || |EscapeOctet(b)| == 3
    ensures forall i | 0 <= i < |EscapeOctet(b)| :: 0x20 <= EscapeOctet(b)[i] <= 0x7E
    ensures |EscapeOctet(b)| == 1 <==> Verbatim(b)
  {
  }

  /** A printed value is printable ASCII, and is the value itself exactly when no octet of it needs an
      escape. */
  lemma {:induction false} EscapeIsPrintable(v: seq<byte>)
    ensures forall i | 0 <= i < |Escape(v)| :: 0x20 <= Escape(v)[i] <= 0x7E
    ensures |Escape(v)| >= |v| && (|Escape(v)| == |v| ==> Escape(v) == v)
    ensures Escape(v) == v <==> forall i | 0 <= i < |v| :: Verbatim(v[i])
  {
    if v != [] {
      hide EscapeOctet, Verbatim;
      EscapeIsPrintable(v[1..]);
      EscapeOctetIs(v[0]);
      assert v == [v[0]] + v[1..];
      if forall i | 0 <= i < |v| :: Verbatim(v[i]) {
        assert forall i | 0 <= i < |v[1..]| :: v[1..][i] == v[i + 1];
      }
      if Escape(v) == v {
        assert |EscapeOctet(v[0])| == 1 && |Escape(v[1..])| == |v[1..]|;
        assert forall i | 0 < i < |v| :: v[i] == v[1..][i - 1];
      }
    }
  }

  /** `(cn=al*ce)` parses, but is printed without its star and comes back as an equality. */
  lemma InitialFinalIsLost(name: Utf8String, a: seq<byte>, b: seq<byte>)
    requires PrintableName(name)
    ensures Parse(Text(Substrings(name, [Initial(a), Final(b)]))) == Ok(Equality(name, a + b))
  {
    hide Parse, PrintableName;
    var f, g := Substrings(name, [Initial(a), Final(b)]), Equality(name, a + b);
    EscapeAppend(a, b);
    assert PartsText([Final(b)]) == Escape(b) + PartsText([]) == Escape(b);
    assert [Initial(a), Final(b)][1..] == [Final(b)];
    assert Text(f) == Text(g);
    TextRoundTrip(g);
  }

  lemma {:induction false} EscapeAppend(a: seq<byte>, b: seq<byte>)
    ensures Escape(a + b) == Escape(a) + Escape(b)
  {
    if a == [] {
      assert a + b == b;
    } else {
      assert (a + b)[1..] == a[1..] + b;
      EscapeAppend(a[1..], b);
    }
  }

  lemma WholeText(bytes: seq<byte>, f: Filter)
    requires bytes != [] && bytes[0] == OPEN && FilterAt(bytes, 0) == Ok((f, |bytes|))
    ensures Parse(bytes) == Ok(f)
  {
    hide FilterAt;
  }

  // ---- The imperative printer and parser ----

  method EscapeValue(v: seq<byte>) returns (out: seq<byte>)
    ensures out == Escape(v)
  {
    out := [];
    for i := 0 to |v|
      invariant Escape(v) == out + Escape(v[i..])
    {
      EscapeStep(v, i, out);
      out := out + EscapeOctet(v[i]);
    }
  }

  lemma EscapeStep(v: seq<byte>, i: nat, out: seq<byte>)
    requires i < |v|
    ensures out + Escape(v[i..]) == (out + EscapeOctet(v[i])) + Escape(v[i + 1..])
  {
    hide EscapeOctet;
    assert v[i..][1..] == v[i + 1..] && v[i..][0] == v[i];
    var next, rest := EscapeOctet(v[i]), Escape(v[i + 1..]);
    assert out + (next + rest) == (out + next) + rest;
  }

  method DisplayParts(parts: seq<Substring>) returns (out: seq<byte>)
    ensures out == PartsText(parts)
  {
    hide Escape;
    out := [];
    for i := 0 to |parts|
      invariant PartsText(parts) == out + PartsText(parts[i..])
    {
      var text := EscapeValue(parts[i].text);
      PartsTextStep(parts, i, out);
      out := out + if parts[i].Any? then [STAR] + (text + [STAR]) else text;
    }
  }

  lemma PartsTextStep(parts: seq<Substring>, i: nat, out: seq<byte>)
    requires i < |parts|
    ensures var text := Escape(parts[i].text);
            out + PartsText(parts[i..])
            == out + (if parts[i].Any? then [STAR] + (text + [STAR]) else text) + PartsText(parts[i + 1..])
  {
    hide Escape;
    assert parts[i..][1..] == parts[i + 1..] && parts[i..][0] == parts[i];
    var text, rest := Escape(parts[i].text), PartsText(parts[i + 1..]);
    assert out + (text + rest) == (out + text) + rest;
    assert out + ([STAR] + (text + ([STAR] + rest))) == (out + ([STAR] + (text + [STAR]))) + rest;
  }

  method DisplayList(fs: seq<Filter>) returns (out: seq<byte>)
    ensures out == ListText(fs)
    decreases fs, 0
  {
    hide Text;
    out := [];
    for i := 0 to |fs|
      invariant ListText(fs) == out + ListText(fs[i..])
    {
      var next := Display(fs[i]);
      assert fs[i..][1..] == fs[i + 1..] && fs[i..][0] == fs[i];
      assert out + (next + ListText(fs[i + 1..])) == (out + next) + ListText(fs[i + 1..]);
      out := out + next;
    }
  }

  method Display(f: Filter) returns (out: seq<byte>)
    ensures out == Text(f)
    decreases f, 1
  {
    hide Escape, PartsText, ListText;
    match f {
      case And(subs) =>
        var inside := DisplayList(subs);
        out := [OPEN, AMP] + (inside + [CLOSE]);
      case Or(subs) =>
        var inside := DisplayList(subs);
        out := [OPEN, PIPE] + (inside + [CLOSE]);
      case Not(inner) =>
        var inside := Display(inner);
        out := [OPEN, BANG] + (inside + [CLOSE]);
      case Present(attribute) =>
        out := [OPEN] + (attribute + ([EQUALS] + ([STAR] + [CLOSE])));
      case Substrings(attribute, parts) =>
        var value := DisplayParts(parts);
        out := [OPEN] + (attribute + ([EQUALS] + (value + [CLOSE])));
      case _ =>
        var value := EscapeValue(f.value);
        out := [OPEN] + (f.attribute + (OperatorText(f) + (value + [CLOSE])));
    }
  }

  /** Pieces collected so far, in front of the verdict on the rest of the value. */
  function Resume(parts: seq<seq<byte>>, current: seq<byte>, r: Parsed<seq<seq<byte>>>): (all: Parsed<seq<seq<byte>>>)
    requires r.Ok? ==> |r.value.0| > 0
  {
    if r.Ok? then Ok((parts + Grow(current, r.value.0), r.value.1)) else r
  }

  lemma ResumeFacts(parts: seq<seq<byte>>, current: seq<byte>, ps: seq<seq<byte>>, v: seq<byte>)
    requires |ps| > 0
    ensures [] + Grow([], ps) == ps
    ensures parts + Grow(current, [[]] + ps) == (parts + [current]) + Grow([], ps)
    ensures parts + Grow(current, Grow(v, ps)) == parts + Grow(current + v, ps)
  {
    GrowTwice(current, v, ps);
    GrowEmpty(current, ps);
    assert [] + ps == ps;
    assert parts + ([current] + ps) == (parts + [current]) + ps;
  }

  lemma ResumeEnds(parts: seq<seq<byte>>, current: seq<byte>, r: Parsed<seq<seq<byte>>>, end: nat)
    requires r.Ok? ==> |r.value.0| > 0
    ensures Resume([], [], r) == r
    ensures Resume(parts, current, Ok(([[]], end))) == Ok((parts + [current], end))
  {
    var none: seq<seq<byte>> := [];
    assert [[]] + none == [[]] && [current] + none == [current];
    GrowEmpty(current, none);
    if r.Ok? {
      ResumeFacts([], [], r.value.0, []);
    }
  }

  lemma ResumeStar(parts: seq<seq<byte>>, current: seq<byte>, bytes: seq<byte>, pos: nat)
    requires pos < |bytes| && bytes[pos] == STAR
    ensures Resume(parts, current, PiecesAt(bytes, pos)) == Resume(parts + [current], [], PiecesAt(bytes, pos + 1))
  {
    hide Grow;
    if PiecesAt(bytes, pos + 1).Ok? {
      ResumeFacts(parts, current, PiecesAt(bytes, pos + 1).value.0, []);
    }
  }

  lemma ResumeOctet(parts: seq<seq<byte>>, current: seq<byte>, b: byte, r: Parsed<seq<seq<byte>>>)
    requires r.Ok? ==> |r.value.0| > 0
    ensures r.Ok? ==> Resume(parts, current, Ok((Grow([b], r.value.0), r.value.1))) == Resume(parts, current + [b], r)
    ensures r.Err? ==> Resume(parts, current, r) == Resume(parts, current + [b], r)
  {
    hide Grow;
    if r.Ok? {
      ResumeFacts(parts, current, r.value.0, [b]);
    }
  }

  method ParsePieces(bytes: seq<byte>, start: nat) returns (r: Parsed<seq<seq<byte>>>)
    requires start <= |bytes|
    ensures r == PiecesAt(bytes, start)
  {
    hide Grow, Resume;
    var parts: seq<seq<byte>>, current: seq<byte>, pos := [], [], start;
    ResumeEnds(parts, current, PiecesAt(bytes, start), start);
    while pos < |bytes| && bytes[pos] != CLOSE
      invariant start <= pos <= |bytes|
      invariant PiecesAt(bytes, start) == Resume(parts, current, PiecesAt(bytes, pos))
    {
      if bytes[pos] == STAR {
        ResumeStar(parts, current, bytes, pos);
        parts, current, pos := parts + [current], [], pos + 1;
      } else if bytes[pos] == BACKSLASH {
        ResumeErr(parts, current, PiecesAt(bytes, pos));
        if pos + 2 >= |bytes| {
          return Err(InvalidEscape(pos + 1));
        }
        var high :- HexValue(bytes[pos + 1]);
        var low :- HexValue(bytes[pos + 2]);
        ResumeOctet(parts, current, 16 * high + low, PiecesAt(bytes, pos + 3));
        current, pos := current + [16 * high + low], pos + 3;
      } else {
        ResumeOctet(parts, current, bytes[pos], PiecesAt(bytes, pos + 1));
        current, pos := current + [bytes[pos]], pos + 1;
      }
    }
    ResumeEnds(parts, current, PiecesAt(bytes, pos), pos);
    r := Ok((parts + [current], pos));
  }

  lemma ResumeErr(parts: seq<seq<byte>>, current: seq<byte>, r: Parsed<seq<seq<byte>>>)
    requires r.Ok? ==> |r.value.0| > 0
    ensures r.Err? ==> Resume(parts, current, r) == r
  {
  }

  method ChooseParts(ps: seq<seq<byte>>) returns (subs: seq<Substring>)
    ensures subs == ChosenFrom(ps, 0)
  {
    subs := [];
    for i := 0 to |ps|
      invariant ChosenFrom(ps, 0) == subs + ChosenFrom(ps, i)
    {
      if ps[i] != [] {
        var s := if i == 0 then Initial(ps[i]) else if i == |ps| - 1 then Final(ps[i]) else Any(ps[i]);
        assert subs + ([s] + ChosenFrom(ps, i + 1)) == (subs + [s]) + ChosenFrom(ps, i + 1);
        subs := subs + [s];
      }
    }
  }

  method ParseSimpleFilter(bytes: seq<byte>, start: nat) returns (r: Parsed<Filter>)
    requires start <= |bytes|
    ensures r == SimpleAt(bytes, start)
  {
    hide Trim, IsUtf8, PiecesAt, ChosenFrom;
    var pos := start;
    while pos < |bytes| && !Delimiter(bytes[pos])
      invariant start <= pos <= |bytes|
      invariant AttributeEnd(bytes, start) == AttributeEnd(bytes, pos)
    {
      pos := pos + 1;
    }
    var head :- HeadAt(bytes, start);
    assert head.valueAt == pos + 1 || head.valueAt == pos + 2;
    var value :- ParsePieces(bytes, head.valueAt);
    var (ps, after) := value;
    var tokens := Single(ps[0]);
    if |ps| > 1 {
      var subs := ChooseParts(ps);
      tokens := if subs == [] then PresentToken else SubstringTokens(subs);
    }
    r := Ok((Assemble(head.op, head.attribute, tokens), after));
  }

  method ParseFilterList(bytes: seq<byte>, start: nat) returns (r: Parsed<seq<Filter>>)
    requires start <= |bytes|
    ensures r == ListAt(bytes, start)
    decreases |bytes| - start, 2
  {
    hide FilterAt;
    var subs: seq<Filter>, pos := [], start;
    ListResumes([], bytes, start);
    while pos < |bytes| && bytes[pos] == OPEN
      invariant start <= pos <= |bytes|
      invariant ListAt(bytes, start) == Joined(subs, ListAt(bytes, pos))
    {
      var next :- ParseFilterInner(bytes, pos);
      ListResumes(subs, bytes, pos);
      subs, pos := subs + [next.0], next.1;
    }
    ListResumes(subs, bytes, pos);
    r := Ok((subs, pos));
  }

  function Joined(done: seq<Filter>, r: Parsed<seq<Filter>>): (all: Parsed<seq<Filter>>)
  {
    if r.Ok? then Ok((done + r.value.0, r.value.1)) else r
  }

  lemma ListResumes(done: seq<Filter>, bytes: seq<byte>, pos: nat)
    requires pos <= |bytes|
    ensures Joined([], ListAt(bytes, pos)) == ListAt(bytes, pos)
    ensures pos == |bytes| || bytes[pos] != OPEN ==> Joined(done, ListAt(bytes, pos)) == Ok((done, pos))
    ensures pos < |bytes| && bytes[pos] == OPEN ==>
              Joined(done, ListAt(bytes, pos)) ==
              if FilterAt(bytes, pos).Ok?
              then var (f, end) := FilterAt(bytes, pos).value; Joined(done + [f], ListAt(bytes, end))
              else Err(FilterAt(bytes, pos).error)
  {
    hide FilterAt;
    if ListAt(bytes, pos).Ok? {
      assert [] + ListAt(bytes, pos).value.0 == ListAt(bytes, pos).value.0;
    }
    if pos == |bytes| || bytes[pos] != OPEN {
      assert done + [] == done;
    } else if FilterAt(bytes, pos).Ok? {
      var (f, end) := FilterAt(bytes, pos).value;
      if ListAt(bytes, end).Ok? {
        var fs := ListAt(bytes, end).value.0;
        assert done + ([f] + fs) == (done + [f]) + fs;
      }
    }
  }

  method ParseFilterInner(bytes: seq<byte>, start: nat) returns (r: Parsed<Filter>)
    requires start <= |bytes|
    ensures r == FilterAt(bytes, start)
    decreases |bytes| - start, 1
  {
    hide ListAt, SimpleAt;
    if start == |bytes| {
      return Err(UnexpectedEof(start));
    }
    if bytes[start] != OPEN {
      return Err(ExpectedOpenParen(start));
    }
    if start + 1 == |bytes| {
      return Err(UnexpectedEof(start + 1));
    }
    var c := bytes[start + 1];
    var f, pos;
    if c == AMP || c == PIPE {
      var subs :- ParseFilterList(bytes, start + 2);
      if subs.0 == [] {
        return Err(EmptyComponent(subs.1));
      }
      f, pos := if c == AMP then And(subs.0) else Or(subs.0), subs.1;
    } else if c == BANG {
      var inner :- ParseFilterInner(bytes, start + 2);
      f, pos := Not(inner.0), inner.1;
    } else {
      var simple :- ParseSimpleFilter(bytes, start + 1);
      f, pos := simple.0, simple.1;
    }
    r := CloseAt(f, bytes, pos);
  }

  method ParseFilter(bytes: seq<byte>) returns (r: Result<Filter, ParseError>)
    ensures r == Parse(bytes)
  {
    hide FilterAt;
    var pos := 0;
    while pos < |bytes| && Blank(bytes[pos])
      invariant 0 <= pos <= |bytes|
      invariant SkipBlanks(bytes, 0) == SkipBlanks(bytes, pos)
    {
      pos := pos + 1;
    }
    var parsed :- ParseFilterInner(bytes, pos);
    pos := parsed.1;
    while pos < |bytes| && Blank(bytes[pos])
      invariant 0 <= pos <= |bytes|
      invariant SkipBlanks(bytes, parsed.1) == SkipBlanks(bytes, pos)
    {
      pos := pos + 1;
    }
    if pos != |bytes| {
      return Err(TrailingText(pos));
    }
    r := Ok(parsed.0);
  }
}
