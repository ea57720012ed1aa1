/** Security identifiers and their binary form (section 2.4.2.2 of MS-DTYP). */
module Sids {
  import opened Bytes

  const MAX_SUB_AUTHORITIES: nat := 15

  type Authority = a: seq<byte> | |a| == 6 witness [0, 0, 0, 0, 0, 0]

  datatype Sid = Sid(authority: Authority, subAuthorities: seq<u32>)

  datatype SidError = Truncated | UnsupportedRevision | TooManySubAuthorities | TrailingBytes

  predicate Encodable(s: Sid) {
    |s.subAuthorities| <= MAX_SUB_AUTHORITIES
  }

  function Words(ws: seq<u32>): (bs: seq<byte>)
    ensures |bs| == 4 * |ws|
  {
    if ws == [] then [] else ToLittleEndian(ws[0], 4) + Words(ws[1..])
  }

  function WordsOf(bs: seq<byte>): (ws: seq<u32>)
    ensures |ws| == |bs| / 4
  {
    if |bs| < 4 then []
    else
      LittleEndianBound(bs[..4]);
      Pow256Values();
      var w: u32 := LittleEndian(bs[..4]);
      [w] + WordsOf(bs[4..])
  }

  /** Revision, count, authority, then the sub-authorities least significant octet first. */
  function SidOctets(s: Sid): (bs: seq<byte>)
    requires Encodable(s)
    ensures |bs| == 8 + 4 * |s.subAuthorities| && bs[0] == 1 && bs[1] == |s.subAuthorities|
  {
    [1, |s.subAuthorities|] + s.authority + Words(s.subAuthorities)
  }

  function SidOf(bs: seq<byte>): (r: Result<Sid, SidError>)
  {
    if |bs| < 8 then Err(Truncated)
    else if bs[0] != 1 then Err(UnsupportedRevision)
    else if bs[1] > MAX_SUB_AUTHORITIES then Err(TooManySubAuthorities)
    else if |bs| < 8 + 4 * bs[1] as int then Err(Truncated)
    else if |bs| > 8 + 4 * bs[1] as int then Err(TrailingBytes)
    else Ok(Sid(bs[2..8], WordsOf(bs[8..])))
  }

  lemma {:induction false} WordsRoundTrip(ws: seq<u32>)
    ensures WordsOf(Words(ws)) == ws
  {
    hide LittleEndian, ToLittleEndian, Pow256;
    if ws != [] {
      WordsRoundTrip(ws[1..]);
      Pow256Values();
      LittleEndianRoundTrip(ws[0], 4);
      assert Words(ws)[..4] == ToLittleEndian(ws[0], 4) && Words(ws)[4..] == Words(ws[1..]);
      assert [ws[0]] + ws[1..] == ws;
    }
  }

  lemma {:induction false} WordsInverse(bs: seq<byte>)
    requires |bs| % 4 == 0
    ensures Words(WordsOf(bs)) == bs
  {
    hide LittleEndian, ToLittleEndian;
    if |bs| >= 4 {
      WordsInverse(bs[4..]);
      LittleEndianInverse(bs[..4]);
      assert WordsOf(bs)[1..] == WordsOf(bs[4..]);
      assert bs[..4] + bs[4..] == bs;
    }
  }

  /** Octets decode to a SID exactly when they are its encoding. */
  lemma SidRoundTrip(s: Sid, bs: seq<byte>)
    ensures SidOf(bs) == Ok(s) <==> Encodable(s) && bs == SidOctets(s)
  {
    hide Words, WordsOf;
    if Encodable(s) && bs == SidOctets(s) {
      WordsRoundTrip(s.subAuthorities);
      assert bs[2..8] == s.authority && bs[8..] == Words(s.subAuthorities);
    }
    if SidOf(bs) == Ok(s) {
      WordsInverse(bs[8..]);
      assert bs == [bs[0], bs[1]] + bs[2..8] + bs[8..];
    }
  }

  lemma TwoWords(a: u32, b: u32)
    ensures Words([a, b]) == ToLittleEndian(a, 4) + ToLittleEndian(b, 4)
  {
    hide ToLittleEndian;
    assert [a, b][1..] == [b] && [b][1..] == [];
    assert Words([b]) == ToLittleEndian(b, 4) + [] == ToLittleEndian(b, 4);
  }

  /** The built-in administrators, S-1-5-32-544. */
  lemma AdministratorsOctets()
    ensures SidOctets(Sid([0, 0, 0, 0, 0, 5], [32, 544])) ==
            [1, 2, 0, 0, 0, 0, 0, 5] + ([0x20, 0, 0, 0] + [0x20, 0x02, 0, 0])
  {
    hide ToLittleEndian, Words;
    WordOctets(32);
    WordOctets(544);
    TwoWords(32, 544);
  }

  /** No encoding is a proper prefix of another. */
  lemma SidsArePrefixFree(a: Sid, b: Sid, x: seq<byte>, y: seq<byte>)
    requires Encodable(a) && Encodable(b) && SidOctets(a) + x == SidOctets(b) + y
    ensures a == b && x == y
  {
    hide Words;
    var p, q := SidOctets(a), SidOctets(b);
    assert (p + x)[1] == (q + y)[1];
    assert p == (p + x)[..|p|] && q == (q + y)[..|q|];
    assert x == (p + x)[|p|..] && y == (q + y)[|q|..];
    SidRoundTrip(a, p);
    SidRoundTrip(b, p);
  }
}
