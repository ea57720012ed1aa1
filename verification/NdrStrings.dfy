/** Conformant-varying UTF-16 strings of NDR: counts in code units, terminator included. */
module NdrStrings {
  import opened Bytes
  import opened Ndr
  import Utf16

  function StringFields(s: string): (fs: seq<Field>)
  {
    var units := Utf16.Encoded(s);
    var n := AsU32(|units| + 1);
    [U32(n)] + ([U32(0)] + ([U32(n)] + ([Raw(Utf16.Octets(units))] + ([Raw([0, 0])] + []))))
  }

  /** One terminator is dropped if there is one. */
  function Unterminated(units: seq<u16>): (r: seq<u16>)
    ensures |r| <= |units|
  {
    if units != [] && units[|units| - 1] == 0 then units[..|units| - 1] else units
  }

  /** `n` code units, as text. */
  function UnitsAt(buf: seq<byte>, pos: nat, n: nat): (r: Read<string>)
  {
    var (octets, p) :- Take(buf, pos, 2 * n);
    match Utf16.Decoded(Unterminated(Utf16.Pairs(octets)))
    case None => Err(BadText)
    case Some(s) => Ok((s, p))
  }

  function StringAt(buf: seq<byte>, pos: nat): (r: Read<string>)
  {
    var (max, p) :- ReadU32(buf, pos);
    var (_, p) :- ReadU32(buf, p);
    var (actual, p) :- ReadU32(buf, p);
    if actual > max then Err(BadCount) else UnitsAt(buf, p, actual)
  }

  lemma UnitsReadBack(buf: seq<byte>, pos: nat, s: string)
    requires At(buf, pos, EmitAll(pos, [Raw(Utf16.Octets(Utf16.Encoded(s)))] + ([Raw([0, 0])] + [])))
    ensures UnitsAt(buf, pos, |Utf16.Encoded(s)| + 1) ==
            Ok((s, End(pos, [Raw(Utf16.Octets(Utf16.Encoded(s)))] + ([Raw([0, 0])] + []))))
  {
    hide EmitAll, Emit, Take, At, Utf16.Encoded, Utf16.Octets, Unterminated;
    hide Utf16.Decoded, Utf16.Pairs;
    var d := Utf16.Octets(Utf16.Encoded(s));
    var p1 := Step(buf, pos, Raw(d), [Raw([0, 0])] + []);
    var p2 := Step(buf, p1, Raw([0, 0]), []);
    EndOfNothing(p2);
    Adjoined(buf, pos, d, [0, 0]);
    TerminatedText(s);
  }

  lemma TerminatedText(s: string)
    ensures Utf16.Decoded(Unterminated(Utf16.Pairs(Utf16.Octets(Utf16.Encoded(s)) + [0, 0]))) == Some(s)
  {
    hide Utf16.Encoded, Utf16.Decoded, Utf16.Octets, Utf16.Pairs;
    var units := Utf16.Encoded(s);
    Utf16.OctetsAppend(units, 0);
    Utf16.PairsOfOctets(units + [0]);
    Utf16.TextRoundTrip(s);
    assert (units + [0])[..|units|] == units;
  }

  lemma UnitsAtBound(buf: seq<byte>, pos: nat, n: nat)
    ensures UnitsAt(buf, pos, n).Ok? ==> |Utf16.Encoded(UnitsAt(buf, pos, n).value.0)| <= n
  {
    hide Utf16.Encoded, Utf16.Decoded, Utf16.Pairs;
    if UnitsAt(buf, pos, n).Ok? {
      Utf16.UnitsRoundTrip(Unterminated(Utf16.Pairs(Take(buf, pos, 2 * n).value.0)));
    }
  }

  lemma CountWhen(n: nat)
    ensures n < 0x1_0000_0000 ==> AsU32(n) == n
    ensures n >= 0x1_0000_0000 ==> AsU32(n) < n - 1
  {
  }

  /** A string comes back, from any position of any buffer, exactly when its count with terminator fits 32
      bits; terminators inside it are kept. */
  lemma StringReadsBack(buf: seq<byte>, pos: nat, s: string)
    requires At(buf, pos, EmitAll(pos, StringFields(s)))
    ensures StringAt(buf, pos) == Ok((s, End(pos, StringFields(s)))) <==> |Utf16.Encoded(s)| + 1 < 0x1_0000_0000
  {
    hide EmitAll, Emit, End, ReadU32, UnitsAt, At, AsU32, Utf16.Encoded, Utf16.Octets;
    var units := Utf16.Encoded(s);
    var n := AsU32(|units| + 1);
    var f3 := [Raw(Utf16.Octets(units))] + ([Raw([0, 0])] + []);
    var p1 := Step(buf, pos, U32(n), [U32(0)] + ([U32(n)] + f3));
    var p2 := Step(buf, p1, U32(0), [U32(n)] + f3);
    var p3 := Step(buf, p2, U32(n), f3);
    UnitsAtBound(buf, p3, n);
    CountWhen(|units| + 1);
    if |units| + 1 < 0x1_0000_0000 {
      UnitsReadBack(buf, p3, s);
    }
  }
}
