/** Search filters and their wire form (section 4.5.1 of RFC 4511). */
module Filters {
  import opened Bytes
  import opened Ber
  import opened Utf8

  const FILTER_AND: byte := 0xA0
  const FILTER_OR: byte := 0xA1
  const FILTER_NOT: byte := 0xA2
  const FILTER_EQUALITY: byte := 0xA3
  const FILTER_SUBSTRINGS: byte := 0xA4
  const FILTER_GE: byte := 0xA5
  const FILTER_LE: byte := 0xA6
  const FILTER_PRESENT: byte := 0x87
  const FILTER_APPROX: byte := 0xA8
  const SUBSTRING_INITIAL: byte := 0x80
  const SUBSTRING_ANY: byte := 0x81
  const SUBSTRING_FINAL: byte := 0x82

  datatype Substring = Initial(text: seq<byte>) | Any(text: seq<byte>) | Final(text: seq<byte>)

  datatype Filter =
    | And(subs: seq<Filter>)
    | Or(subs: seq<Filter>)
    | Not(inner: Filter)
    | Equality(attribute: Utf8String, value: seq<byte>)
    | Substrings(attribute: Utf8String, parts: seq<Substring>)
    | GreaterOrEqual(attribute: Utf8String, value: seq<byte>)
    | LessOrEqual(attribute: Utf8String, value: seq<byte>)
    | Present(attribute: Utf8String)
    | Approx(attribute: Utf8String, value: seq<byte>)

  function TagOf(f: Filter): (tag: byte)
    ensures tag % 32 != 31
  {
    match f
    case And(_) => FILTER_AND
    case Or(_) => FILTER_OR
    case Not(_) => FILTER_NOT
    case Equality(_, _) => FILTER_EQUALITY
    case Substrings(_, _) => FILTER_SUBSTRINGS
    case GreaterOrEqual(_, _) => FILTER_GE
    case LessOrEqual(_, _) => FILTER_LE
    case Present(_) => FILTER_PRESENT
    case Approx(_, _) => FILTER_APPROX
  }

  function SubstringTag(s: Substring): (tag: byte)
    ensures tag % 32 != 31
  {
    match s
    case Initial(_) => SUBSTRING_INITIAL
    case Any(_) => SUBSTRING_ANY
    case Final(_) => SUBSTRING_FINAL
  }

  function SubstringsOctets(parts: seq<Substring>): (bs: seq<byte>)
  {
    if parts == [] then [] else TlvOctets(SubstringTag(parts[0]), parts[0].text) + SubstringsOctets(parts[1..])
  }

  /** The content octets of a filter. */
  function Body(f: Filter): (bs: seq<byte>)
    decreases f, 1
  {
    match f
    case And(subs) => SetOctets(subs)
    case Or(subs) => SetOctets(subs)
    case Not(inner) => Octets(inner)
    case Present(attribute) => attribute
    case Substrings(attribute, parts) =>
      TlvOctets(TAG_OCTET_STRING, attribute) + TlvOctets(TAG_SEQUENCE, SubstringsOctets(parts))
    case _ => TlvOctets(TAG_OCTET_STRING, f.attribute) + TlvOctets(TAG_OCTET_STRING, f.value)
  }

  /** The whole element of a filter. */
  function Octets(f: Filter): (bs: seq<byte>)
    decreases f, 2
  {
    TlvOctets(TagOf(f), Body(f))
  }

  function SetOctets(fs: seq<Filter>): (bs: seq<byte>)
    decreases fs, 0
  {
    if fs == [] then [] else Octets(fs[0]) + SetOctets(fs[1..])
  }

  // ---- Decoding ----

  function StringOf(value: seq<byte>): (r: Result<Utf8String, BerError>)
  {
    if IsUtf8(value) then Ok(value) else Err(InvalidUtf8)
  }

  function SubstringOf(t: Tlv): (r: Result<Substring, BerError>)
  {
    if t.tag == SUBSTRING_INITIAL then Ok(Initial(t.value))
    else if t.tag == SUBSTRING_ANY then Ok(Any(t.value))
    else if t.tag == SUBSTRING_FINAL then Ok(Final(t.value))
    else Err(UnknownFilter(t.tag))
  }

  function SubstringsOf(bytes: seq<byte>): (r: Result<seq<Substring>, BerError>)
    decreases |bytes|
  {
    if bytes == [] then Ok([])
    else
      var (t, rest) :- TlvOf(bytes);
      var s :- SubstringOf(t);
      var ss :- SubstringsOf(rest);
      Ok([s] + ss)
  }

  predicate IsAssertionTag(tag: byte) {
    tag == FILTER_EQUALITY || tag == FILTER_GE || tag == FILTER_LE || tag == FILTER_APPROX
  }

  function Assertion(tag: byte, attribute: Utf8String, value: seq<byte>): (f: Filter)
    requires IsAssertionTag(tag)
    ensures TagOf(f) == tag
    ensures Body(f) == TlvOctets(TAG_OCTET_STRING, attribute) + TlvOctets(TAG_OCTET_STRING, value)
  {
    if tag == FILTER_EQUALITY then Equality(attribute, value)
    else if tag == FILTER_GE then GreaterOrEqual(attribute, value)
    else if tag == FILTER_LE then LessOrEqual(attribute, value)
    else Approx(attribute, value)
  }

  /** An attribute value assertion: the attribute, then the value, then nothing. */
  function AssertionOf(tag: byte, value: seq<byte>): (r: Result<Filter, BerError>)
    requires IsAssertionTag(tag)
  {
    var (a, rest) :- TlvOf(value);
    if rest == [] then Err(Truncated)
    else
      var (v, rest) :- TlvOf(rest);
      if rest != [] then Err(TrailingData(|rest|))
      else
        var attribute :- StringOf(a.value);
        Ok(Assertion(tag, attribute, v.value))
  }

  /** A substring filter: the attribute, then the sequence of parts, then nothing. */
  function SubstringFilterOf(value: seq<byte>): (r: Result<Filter, BerError>)
  {
    var (a, rest) :- TlvOf(value);
    var attribute :- StringOf(a.value);
    var (s, rest) :- TlvOf(rest);
    if rest != [] then Err(TrailingData(|rest|))
    else
      var parts :- SubstringsOf(s.value);
      Ok(Substrings(attribute, parts))
  }

  /** The filter that an element with this tag and content stands for. */
  function FilterOf(tag: byte, value: seq<byte>): (r: Result<Filter, BerError>)
    decreases |value|, 1
  {
    if tag == FILTER_AND then
      var subs :- SetOf(value);
      Ok(And(subs))
    else if tag == FILTER_OR then
      var subs :- SetOf(value);
      Ok(Or(subs))
    else if tag == FILTER_NOT then
      var (t, rest) :- TlvOf(value);
      if rest != [] then Err(TrailingData(|rest|))
      else
        var inner :- FilterOf(t.tag, t.value);
        Ok(Not(inner))
    else if IsAssertionTag(tag) then AssertionOf(tag, value)
    else if tag == FILTER_PRESENT then
      var attribute :- StringOf(value);
      Ok(Present(attribute))
    else if tag == FILTER_SUBSTRINGS then SubstringFilterOf(value)
    else Err(UnknownFilter(tag))
  }

  function SetOf(bytes: seq<byte>): (r: Result<seq<Filter>, BerError>)
    decreases |bytes|, 0
  {
    if bytes == [] then Ok([])
    else
      var (t, rest) :- TlvOf(bytes);
      var f :- FilterOf(t.tag, t.value);
      var fs :- SetOf(rest);
      Ok([f] + fs)
  }

  // ---- The round trip ----

  lemma {:induction false} SubstringsRoundTrip(parts: seq<Substring>)
    requires |SubstringsOctets(parts)| < Pow256(4)
    ensures SubstringsOf(SubstringsOctets(parts)) == Ok(parts)
  {
    hide TlvOf, TlvOctets;
    if parts != [] {
      var rest := SubstringsOctets(parts[1..]);
      TlvRoundTrip(SubstringTag(parts[0]), parts[0].text, rest);
      SubstringsRoundTrip(parts[1..]);
      assert [parts[0]] + parts[1..] == parts;
    }
  }

  /** Two elements in a row read back, nothing left over. */
  lemma PairRoundTrip(tag: byte, a: seq<byte>, tag': byte, b: seq<byte>)
    requires tag % 32 != 31 && tag' % 32 != 31
    requires |a| < Pow256(4) && |b| < Pow256(4)
    ensures TlvOf(TlvOctets(tag, a) + TlvOctets(tag', b)) == Ok((Tlv(tag, a), TlvOctets(tag', b)))
    ensures TlvOf(TlvOctets(tag', b)) == Ok((Tlv(tag', b), []))
  {
    TlvRoundTrip(tag, a, TlvOctets(tag', b));
    TlvRoundTrip(tag', b, []);
    assert TlvOctets(tag', b) + [] == TlvOctets(tag', b);
  }

  lemma AssertionRoundTrip(tag: byte, attribute: Utf8String, value: seq<byte>)
    requires IsAssertionTag(tag)
    requires |TlvOctets(TAG_OCTET_STRING, attribute) + TlvOctets(TAG_OCTET_STRING, value)| < Pow256(4)
    ensures AssertionOf(tag, TlvOctets(TAG_OCTET_STRING, attribute) + TlvOctets(TAG_OCTET_STRING, value))
            == Ok(Assertion(tag, attribute, value))
  {
    PairRoundTrip(TAG_OCTET_STRING, attribute, TAG_OCTET_STRING, value);
  }

  lemma SubstringFilterRoundTrip(attribute: Utf8String, parts: seq<Substring>)
    requires |Body(Substrings(attribute, parts))| < Pow256(4)
    ensures SubstringFilterOf(Body(Substrings(attribute, parts))) == Ok(Substrings(attribute, parts))
  {
    SubstringsRoundTrip(parts);
    PairRoundTrip(TAG_OCTET_STRING, attribute, TAG_SEQUENCE, SubstringsOctets(parts));
  }

  lemma {:induction false} BodyRoundTrip(f: Filter)
    requires |Body(f)| < Pow256(4)
    ensures FilterOf(TagOf(f), Body(f)) == Ok(f)
    decreases f, 1
  {
    hide TlvOf, TlvOctets, SubstringsOctets, SubstringsOf, IsUtf8, SetOf, SetOctets;
    match f
    case And(subs) => SetRoundTrip(subs);
    case Or(subs) => SetRoundTrip(subs);
    case Not(inner) =>
      BodyRoundTrip(inner);
      TlvRoundTrip(TagOf(inner), Body(inner), []);
      assert Octets(inner) + [] == Octets(inner);
    case Present(_) =>
    case Substrings(attribute, parts) => SubstringFilterRoundTrip(attribute, parts);
    case _ =>
      assert f == Assertion(TagOf(f), f.attribute, f.value);
      AssertionRoundTrip(TagOf(f), f.attribute, f.value);
  }

  lemma {:induction false} SetRoundTrip(fs: seq<Filter>)
    requires |SetOctets(fs)| < Pow256(4)
    ensures SetOf(SetOctets(fs)) == Ok(fs)
    decreases fs, 0
  {
    if fs != [] {
      var rest := SetOctets(fs[1..]);
      BodyRoundTrip(fs[0]);
      TlvRoundTrip(TagOf(fs[0]), Body(fs[0]), rest);
      SetRoundTrip(fs[1..]);
      assert [fs[0]] + fs[1..] == fs;
    }
  }

  /** The filter element at the front of `bytes` and what follows it. */
  function ElementOf(bytes: seq<byte>): (r: Result<(Filter, seq<byte>), BerError>)
  {
    var (t, rest) :- TlvOf(bytes);
    var f :- FilterOf(t.tag, t.value);
    Ok((f, rest))
  }

  /** Every filter, however deeply nested, survives the wire in any surrounding octets: exactly when
      its content fits four length octets. */
  lemma FilterRoundTrip(f: Filter, after: seq<byte>)
    requires |Body(f)| < Pow256(8)
    ensures ElementOf(Octets(f) + after) == Ok((f, after)) <==> |Body(f)| < Pow256(4)
  {
    TlvRoundTrip(TagOf(f), Body(f), after);
    if |Body(f)| < Pow256(4) {
      BodyRoundTrip(f);
    } else {
      LongLengthRefused(TagOf(f), Body(f), after);
    }
  }

  /** A value that needs five to eight length octets is refused by the decoder. */
  lemma LongLengthRefused(tag: byte, value: seq<byte>, after: seq<byte>)
    requires Pow256(4) <= |value| < Pow256(8) && tag % 32 != 31
    ensures TlvOf(TlvOctets(tag, value) + after) == Err(InvalidLength)
  {
    MinimalLength(|value|, 4);
    MinimalLength(|value|, 8);
    Pow256Values();
    assert (TlvOctets(tag, value) + after)[1] == 0x80 + |Minimal(|value|)|;
  }

  // ---- Canonical form ----

  lemma LengthOctetsMonotone(m: nat, n: nat)
    requires m <= n < Pow256(8)
    ensures |LengthOctets(m)| <= |LengthOctets(n)|
  {
    if m >= 0x80 {
      MinimalLength(n, |Minimal(n)|);
      MinimalLength(m, |Minimal(n)|);
    }
  }

  /** Re-encoding an element around content that has not grown does not make it longer. */
  lemma ElementNoLonger(bytes: seq<byte>, tag: byte, value: seq<byte>)
    requires TlvOf(bytes).Ok? && |value| <= |TlvOf(bytes).value.0.value|
    ensures |TlvOctets(tag, value)| + |TlvOf(bytes).value.1| <= |bytes|
  {
    hide LengthOctets, TlvOctets;
    var (t, rest) := TlvOf(bytes).value;
    Pow256Values();
    PowMonotone(4, 8);
    LengthShortest(bytes);
    LengthOctetsMonotone(|value|, |t.value|);
  }

  lemma {:induction false} SubstringsCanonical(bytes: seq<byte>)
    requires SubstringsOf(bytes).Ok?
    ensures |SubstringsOctets(SubstringsOf(bytes).value)| <= |bytes|
    decreases |bytes|
  {
    if bytes != [] {
      var (t, rest) := TlvOf(bytes).value;
      ElementNoLonger(bytes, t.tag, t.value);
      SubstringsCanonical(rest);
      var all := SubstringsOf(bytes).value;
      assert all[0] == SubstringOf(t).value && all[1..] == SubstringsOf(rest).value;
    }
  }

  lemma AssertionCanonical(tag: byte, value: seq<byte>)
    requires IsAssertionTag(tag) && AssertionOf(tag, value).Ok?
    ensures TagOf(AssertionOf(tag, value).value) == tag && |Body(AssertionOf(tag, value).value)| <= |value|
  {
    var (a, rest) := TlvOf(value).value;
    ElementNoLonger(value, TAG_OCTET_STRING, a.value);
    ElementNoLonger(rest, TAG_OCTET_STRING, TlvOf(rest).value.0.value);
  }

  lemma SubstringFilterCanonical(value: seq<byte>)
    requires SubstringFilterOf(value).Ok?
    ensures |Body(SubstringFilterOf(value).value)| <= |value|
  {
    hide TlvOctets, IsUtf8;
    var (a, rest) := TlvOf(value).value;
    var s := TlvOf(rest).value.0.value;
    ElementNoLonger(value, TAG_OCTET_STRING, a.value);
    SubstringsCanonical(s);
    ElementNoLonger(rest, TAG_SEQUENCE, SubstringsOctets(SubstringsOf(s).value));
  }

  lemma {:induction false} BodyCanonical(tag: byte, value: seq<byte>)
    requires FilterOf(tag, value).Ok?
    ensures TagOf(FilterOf(tag, value).value) == tag
    ensures |Body(FilterOf(tag, value).value)| <= |value|
    decreases |value|, 1
  {
    if tag == FILTER_AND || tag == FILTER_OR {
      SetCanonical(value);
    } else if tag == FILTER_NOT {
      var t := TlvOf(value).value.0;
      BodyCanonical(t.tag, t.value);
      ElementNoLonger(value, t.tag, Body(FilterOf(t.tag, t.value).value));
    } else if tag == FILTER_SUBSTRINGS {
      SubstringFilterCanonical(value);
    } else if IsAssertionTag(tag) {
      AssertionCanonical(tag, value);
    }
  }

  lemma {:induction false} SetCanonical(bytes: seq<byte>)
    requires SetOf(bytes).Ok?
    ensures |SetOctets(SetOf(bytes).value)| <= |bytes|
    decreases |bytes|, 0
  {
    if bytes != [] {
      var (t, rest) := TlvOf(bytes).value;
      BodyCanonical(t.tag, t.value);
      ElementNoLonger(bytes, t.tag, Body(FilterOf(t.tag, t.value).value));
      SetCanonical(rest);
      var all := SetOf(bytes).value;
      assert all[0] == FilterOf(t.tag, t.value).value && all[1..] == SetOf(rest).value;
    }
  }

  /** Whatever octets the decoder accepts as a filter (long-form lengths, odd inner tags), the
      encoder's octets for that filter are no longer and decode to the same filter. */
  lemma AcceptedIsCanonicalised(bytes: seq<byte>)
    requires ElementOf(bytes).Ok?
    ensures var (f, rest) := ElementOf(bytes).value;
            |Octets(f)| + |rest| <= |bytes| && ElementOf(Octets(f) + rest) == Ok((f, rest))
  {
    var (t, rest) := TlvOf(bytes).value;
    var f := FilterOf(t.tag, t.value).value;
    BodyCanonical(t.tag, t.value);
    ElementNoLonger(bytes, t.tag, Body(f));
    Pow256Values();
    FilterRoundTrip(f, rest);
  }

  // ---- What else is accepted, and filters on the wire ----

  /** An assertion is read whatever the tags of its two elements. */
  lemma AssertionReads(tag: byte, a: byte, b: byte, name: Utf8String, value: seq<byte>)
    requires IsAssertionTag(tag) && a % 32 != 31 && b % 32 != 31 && |name| < Pow256(4) && |value| < Pow256(4)
    ensures FilterOf(tag, TlvOctets(a, name) + TlvOctets(b, value)) == Ok(Assertion(tag, name, value))
  {
    hide TlvOf, TlvOctets, IsUtf8, Pow256;
    TlvRoundTrip(a, name, TlvOctets(b, value));
    TlvRoundTrip(b, value, []);
    assert TlvOctets(b, value) + [] == TlvOctets(b, value);
  }

  /** So is a substring filter. */
  lemma SubstringFilterReads(a: byte, b: byte, name: Utf8String, parts: seq<Substring>)
    requires a % 32 != 31 && b % 32 != 31 && |name| < Pow256(4) && |SubstringsOctets(parts)| < Pow256(4)
    ensures FilterOf(FILTER_SUBSTRINGS, TlvOctets(a, name) + TlvOctets(b, SubstringsOctets(parts))) ==
            Ok(Substrings(name, parts))
  {
    hide TlvOf, TlvOctets, SubstringsOf, SubstringsOctets, IsUtf8, Pow256;
    var s := SubstringsOctets(parts);
    TlvRoundTrip(a, name, TlvOctets(b, s));
    TlvRoundTrip(b, s, []);
    assert TlvOctets(b, s) + [] == TlvOctets(b, s);
    SubstringsRoundTrip(parts);
  }

  /** The choices of section 4.5.1 of RFC 4511, each under its number. */
  lemma ChoicesOnTheWire(n: Utf8String, v: seq<byte>)
    requires |n| + |v| < 0x78
    ensures var size, pair := |n| + |v| + 4, ([0x04, |n|] + n) + ([0x04, |v|] + v);
            && Octets(Equality(n, v)) == [0xA3, size] + pair && Octets(GreaterOrEqual(n, v)) == [0xA5, size] + pair
            && Octets(LessOrEqual(n, v)) == [0xA6, size] + pair && Octets(Approx(n, v)) == [0xA8, size] + pair
            && Octets(Present(n)) == [0x87, |n|] + n
  {
    hide TlvOctets, IsUtf8;
    var pair := ([0x04, |n|] + n) + ([0x04, |v|] + v);
    ShortTlv(TAG_OCTET_STRING, n);
    ShortTlv(TAG_OCTET_STRING, v);
    ShortTlv(FILTER_EQUALITY, pair);
    ShortTlv(FILTER_GE, pair);
    ShortTlv(FILTER_LE, pair);
    ShortTlv(FILTER_APPROX, pair);
    ShortTlv(FILTER_PRESENT, n);
  }

  lemma ConnectivesOnTheWire(f: Filter)
    requires |Octets(f)| < 0x80
    ensures Octets(And([f])) == [0xA0, |Octets(f)|] + Octets(f) && Octets(Or([f])) == [0xA1, |Octets(f)|] + Octets(f)
    ensures Octets(Not(f)) == [0xA2, |Octets(f)|] + Octets(f)
  {
    hide TlvOctets;
    var o := Octets(f);
    assert [f][1..] == [] && SetOctets([f][1..]) == [];
    assert SetOctets([f]) == o + [] == o;
    ShortTlv(FILTER_AND, o);
    ShortTlv(FILTER_OR, o);
    ShortTlv(FILTER_NOT, o);
  }

  lemma PartsOnTheWire(n: Utf8String, a: seq<byte>, b: seq<byte>, c: seq<byte>)
    requires |n| + |a| + |b| + |c| < 0x70
    ensures var parts := ([0x80, |a|] + a) + (([0x81, |b|] + b) + ([0x82, |c|] + c));
            Octets(Substrings(n, [Initial(a), Any(b), Final(c)])) ==
            [0xA4, |n| + |parts| + 4] + (([0x04, |n|] + n) + ([0x30, |parts|] + parts))
  {
    hide TlvOctets, IsUtf8;
    var ps := [Initial(a), Any(b), Final(c)];
    assert ps[1..] == [Any(b), Final(c)] && ps[1..][1..] == [Final(c)] && ps[1..][1..][1..] == [];
    ShortTlv(SUBSTRING_INITIAL, a);
    ShortTlv(SUBSTRING_ANY, b);
    ShortTlv(SUBSTRING_FINAL, c);
    var parts := ([0x80, |a|] + a) + (([0x81, |b|] + b) + ([0x82, |c|] + c));
    assert SubstringsOctets(ps[1..][1..]) == ([0x82, |c|] + c) + [] == [0x82, |c|] + c;
    assert SubstringsOctets(ps) == parts;
    ShortTlv(TAG_OCTET_STRING, n);
    ShortTlv(TAG_SEQUENCE, parts);
    ShortTlv(FILTER_SUBSTRINGS, ([0x04, |n|] + n) + ([0x30, |parts|] + parts));
  }

  // ---- The imperative codec ----

  lemma SetOctetsStep(fs: seq<Filter>, i: nat, body: seq<byte>)
    requires i < |fs|
    ensures body + SetOctets(fs[i..]) == body + Octets(fs[i]) + SetOctets(fs[i + 1..])
  {
    assert fs[i..][1..] == fs[i + 1..] && fs[i..][0] == fs[i];
    var next, rest := Octets(fs[i]), SetOctets(fs[i + 1..]);
    assert body + (next + rest) == body + next + rest;
  }

  method EncodeSet(fs: seq<Filter>) returns (body: seq<byte>)
    ensures body == SetOctets(fs)
    decreases fs, 0
  {
    hide Octets;
    body := [];
    for i := 0 to |fs|
      invariant SetOctets(fs) == body + SetOctets(fs[i..])
    {
      SetOctetsStep(fs, i, body);
      body := EncodeFilter(fs[i], body);
    }
  }

  lemma SubstringsOctetsStep(parts: seq<Substring>, i: nat, body: seq<byte>)
    requires i < |parts|
    ensures body + SubstringsOctets(parts[i..])
            == body + TlvOctets(SubstringTag(parts[i]), parts[i].text) + SubstringsOctets(parts[i + 1..])
  {
    hide TlvOctets;
    assert parts[i..][1..] == parts[i + 1..] && parts[i..][0] == parts[i];
    var next, rest := TlvOctets(SubstringTag(parts[i]), parts[i].text), SubstringsOctets(parts[i + 1..]);
    assert body + (next + rest) == body + next + rest;
  }

  method EncodeSubstrings(parts: seq<Substring>) returns (choices: seq<byte>)
    ensures choices == SubstringsOctets(parts)
  {
    hide TlvOctets;
    choices := [];
    for i := 0 to |parts|
      invariant SubstringsOctets(parts) == choices + SubstringsOctets(parts[i..])
    {
      SubstringsOctetsStep(parts, i, choices);
      choices := EncodeTlv(SubstringTag(parts[i]), parts[i].text, choices);
    }
  }

  method EncodePair(attribute: Utf8String, tag: byte, second: seq<byte>) returns (body: seq<byte>)
    ensures body == TlvOctets(TAG_OCTET_STRING, attribute) + TlvOctets(tag, second)
  {
    body := EncodeTlv(TAG_OCTET_STRING, attribute, []);
    body := EncodeTlv(tag, second, body);
  }

  method EncodeBody(f: Filter) returns (body: seq<byte>)
    ensures body == Body(f)
    decreases f, 1
  {
    match f {
      case And(subs) => body := EncodeSet(subs);
      case Or(subs) => body := EncodeSet(subs);
      case Not(inner) =>
        body := EncodeFilter(inner, []);
        assert [] + Octets(inner) == Octets(inner);
      case Present(attribute) => body := attribute;
      case Substrings(attribute, parts) =>
        var choices := EncodeSubstrings(parts);
        body := EncodePair(attribute, TAG_SEQUENCE, choices);
      case _ =>
        body := EncodePair(f.attribute, TAG_OCTET_STRING, f.value);
    }
  }

  /** The imperative encoder: the content is built first, then the whole element is pushed to `out`. */
  method EncodeFilter(f: Filter, out: seq<byte>) returns (r: seq<byte>)
    ensures r == out + Octets(f)
    decreases f, 2
  {
    var body := EncodeBody(f);
    r := EncodeTlv(TagOf(f), body, out);
  }

  method DecodeSet(value: seq<byte>) returns (r: Result<seq<Filter>, BerError>)
    ensures r == SetOf(value)
    decreases |value|, 0
  {
    var subs: seq<Filter> := [];
    var rest := value;
    PrependEnds(subs, SetOf(value));
    while rest != []
      invariant |rest| <= |value|
      invariant SetOf(value) == Prepend(subs, SetOf(rest))
      decreases |rest|
    {
      var next :- DecodeTlv(rest);
      var f :- DecodeFilter(next.0.tag, next.0.value);
      PrependStep(subs, f, SetOf(next.1));
      subs := subs + [f];
      rest := next.1;
    }
    PrependEnds(subs, SetOf(rest));
    r := Ok(subs);
  }

  method DecodeSubstrings(value: seq<byte>) returns (r: Result<seq<Substring>, BerError>)
    ensures r == SubstringsOf(value)
  {
    var parts: seq<Substring> := [];
    var rest := value;
    PrependEnds(parts, SubstringsOf(value));
    while rest != []
      invariant SubstringsOf(value) == Prepend(parts, SubstringsOf(rest))
      decreases |rest|
    {
      var next :- DecodeTlv(rest);
      var s :- SubstringOf(next.0);
      PrependStep(parts, s, SubstringsOf(next.1));
      parts := parts + [s];
      rest := next.1;
    }
    PrependEnds(parts, SubstringsOf(rest));
    r := Ok(parts);
  }

  /** The imperative decoder: the choices that hold a list are read by a loop over the rest. */
  method DecodeFilter(tag: byte, value: seq<byte>) returns (r: Result<Filter, BerError>)
    ensures r == FilterOf(tag, value)
    decreases |value|, 1
  {
    if tag == FILTER_AND {
      var subs :- DecodeSet(value);
      r := Ok(And(subs));
    } else if tag == FILTER_OR {
      var subs :- DecodeSet(value);
      r := Ok(Or(subs));
    } else if tag == FILTER_NOT {
      var first :- DecodeTlv(value);
      var (t, rest) := first;
      if rest != [] {
        return Err(TrailingData(|rest|));
      }
      var inner :- DecodeFilter(t.tag, t.value);
      r := Ok(Not(inner));
    } else if IsAssertionTag(tag) {
      r := AssertionOf(tag, value);
    } else if tag == FILTER_PRESENT {
      var attribute :- StringOf(value);
      r := Ok(Present(attribute));
    } else if tag == FILTER_SUBSTRINGS {
      var first :- DecodeTlv(value);
      var (a, rest) := first;
      var attribute :- StringOf(a.value);
      var next :- DecodeTlv(rest);
      var (s, trailing) := next;
      if trailing != [] {
        return Err(TrailingData(|trailing|));
      }
      var parts :- DecodeSubstrings(s.value);
      r := Ok(Substrings(attribute, parts));
    } else {
      r := Err(UnknownFilter(tag));
    }
  }
}
