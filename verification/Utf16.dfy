/** UTF-16 text as the replication structures carry it: code units in little-endian octet pairs. */
module Utf16 {
  import opened Bytes

  /** The one or two code units of a scalar value. */
  function Units(c: char): (us: seq<u16>)
    ensures |us| == 1 || |us| == 2
  {
    var n := c as int;
    if n < 0x1_0000 then [n]
    else [0xD800 + (n - 0x1_0000) / 0x400, 0xDC00 + (n - 0x1_0000) % 0x400]
  }

  function Encoded(s: string): (us: seq<u16>)
    ensures |s| <= |us|
  {
    if s == [] then [] else Units(s[0]) + Encoded(s[1..])
  }

  /** Strict decoding: an unpaired surrogate is an error. */
  function Decoded(us: seq<u16>): (r: Option<string>)
    decreases |us|
  {
    if us == [] then Some([])
    else if !(0xD800 <= us[0] < 0xE000) then
      match Decoded(us[1..])
      case None => None
      case Some(s) => Some([us[0] as char] + s)
    else if us[0] < 0xDC00 && |us| > 1 && 0xDC00 <= us[1] < 0xE000 then
      match Decoded(us[2..])
      case None => None
      case Some(s) => Some([Paired(us[0], us[1])] + s)
    else None
  }

  function Paired(high: u16, low: u16): (c: char)
    requires 0xD800 <= high < 0xDC00 && 0xDC00 <= low < 0xE000
  {
    (0x1_0000 + (high - 0xD800) * 0x400 + (low - 0xDC00)) as char
  }

  lemma PairedUnits(high: u16, low: u16)
    requires 0xD800 <= high < 0xDC00 && 0xDC00 <= low < 0xE000
    ensures Units(Paired(high, low)) == [high, low]
  {
  }

  /** Decoding undoes encoding, whatever units follow. */
  lemma {:induction false} DecodedUnits(c: char, rest: seq<u16>)
    ensures Decoded(Units(c) + rest) == match Decoded(rest) case None => None case Some(s) => Some([c] + s)
  {
    var us := Units(c) + rest;
    if |Units(c)| == 1 {
      assert us[1..] == rest;
    } else {
      assert us[2..] == rest && Paired(us[0], us[1]) == c;
    }
  }

  /** Encoding and decoding are inverse to each other: every text comes back, and whatever decodes is
      the encoding of what it decodes to. */
  lemma {:induction false} TextRoundTrip(s: string)
    ensures Decoded(Encoded(s)) == Some(s)
  {
    hide Decoded, Units;
    if s == [] {
      NothingDecoded();
    } else {
      TextRoundTrip(s[1..]);
      DecodedUnits(s[0], Encoded(s[1..]));
      assert [s[0]] + s[1..] == s;
    }
  }

  lemma NothingDecoded()
    ensures Decoded([]) == Some([])
  {
  }

  lemma {:induction false} UnitsRoundTrip(us: seq<u16>)
    ensures Decoded(us).Some? ==> Encoded(Decoded(us).value) == us
    decreases |us|
  {
    if us != [] && Decoded(us).Some? {
      var s := Decoded(us).value;
      if !(0xD800 <= us[0] < 0xE000) {
        UnitsRoundTrip(us[1..]);
        assert s[1..] == Decoded(us[1..]).value;
        assert [us[0]] + us[1..] == us;
      } else {
        UnitsRoundTrip(us[2..]);
        assert s[1..] == Decoded(us[2..]).value;
        PairedUnits(us[0], us[1]);
        assert [us[0], us[1]] + us[2..] == us;
      }
    }
  }

  // ---- Little-endian octet pairs ----

  function Octets(us: seq<u16>): (bs: seq<byte>)
    ensures |bs| == 2 * |us|
  {
    if us == [] then [] else [us[0] % 256, us[0] / 256] + Octets(us[1..])
  }

  /** Octet pairs back to units; an odd last octet is dropped. */
  function Pairs(bs: seq<byte>): (us: seq<u16>)
    ensures |us| == |bs| / 2
  {
    if |bs| < 2 then []
    else
      var low: int, high: int := bs[0], bs[1];
      [low + 256 * high] + Pairs(bs[2..])
  }

  lemma {:induction false} PairsOfOctets(us: seq<u16>)
    ensures Pairs(Octets(us)) == us
  {
    if us != [] {
      PairsOfOctets(us[1..]);
      assert Octets(us)[2..] == Octets(us[1..]);
      assert [us[0]] + us[1..] == us;
    }
  }

  lemma {:induction false} OctetsAppend(us: seq<u16>, u: u16)
    ensures Octets(us + [u]) == Octets(us) + [u % 256, u / 256]
  {
    if us == [] {
      assert ([] + [u])[1..] == [];
    } else {
      OctetsAppend(us[1..], u);
      assert (us + [u])[1..] == us[1..] + [u];
    }
  }
}
