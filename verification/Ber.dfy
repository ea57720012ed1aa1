/**
  Tag-length-value octets of the Basic Encoding Rules in the restricted form of section 5.1 of
  RFC 4511: one-octet tags, definite lengths of at most four octets, shortest integers.
  */
module Ber {
  import opened Bytes

  const TAG_BOOLEAN: byte := 0x01
  const TAG_INTEGER: byte := 0x02
  const TAG_OCTET_STRING: byte := 0x04
  const TAG_ENUMERATED: byte := 0x0A
  const TAG_SEQUENCE: byte := 0x30
  const TAG_SET: byte := 0x31

  datatype BerError =
    | Empty
    | Truncated
    | InvalidLength
    | UnexpectedTag(expected: byte, actual: byte)
    | InvalidInteger
    | InvalidUtf8
    | TrailingData(count: nat)
    | UnknownProtocolOp(op: byte)
    | UnknownFilter(choice: byte)
    | LongFormTag(tag: byte)
    | OutOfRange(number: int)

  datatype Tlv = Tlv(tag: byte, value: seq<byte>)

  /** The octets of `n` without leading zeroes; none at all for zero. */
  function Minimal(n: nat): (bs: seq<byte>)
  {
    if n == 0 then [] else Minimal(n / 256) + [n % 256]
  }

  /** The definite form of a length: short below 128, otherwise a count octet and the octets. */
  function LengthOctets(n: nat): (bs: seq<byte>)
  {
    if n < 0x80 then [n] else [0x80 + |Minimal(n)| % 0x80] + Minimal(n)
  }

  function TlvOctets(tag: byte, value: seq<byte>): (bs: seq<byte>)
    ensures |bs| == 1 + |LengthOctets(|value|)| + |value| >= |value| + 2
  {
    [tag] + (LengthOctets(|value|) + value)
  }

  lemma {:induction false} MinimalLength(n: nat, k: nat)
    ensures |Minimal(n)| <= k <==> n < Pow256(k)
  {
    if n > 0 && k > 0 {
      MinimalLength(n / 256, k - 1);
    }
  }

  lemma {:induction false} MinimalValue(n: nat)
    ensures BigEndian(Minimal(n)) == n
  {
    if n > 0 {
      MinimalValue(n / 256);
      assert Minimal(n)[..|Minimal(n)| - 1] == Minimal(n / 256);
    }
  }

  /** Reads the length field that starts at offset 1: the declared length and the header size. */
  function HeaderOf(bytes: seq<byte>): (r: Result<(nat, nat), BerError>)
    requires |bytes| >= 2
    ensures r.Ok? ==> 2 <= r.value.1 <= 6 && r.value.1 <= |bytes| && r.value.0 < Pow256(4)
  {
    Pow256Values();
    if bytes[1] < 0x80 then Ok((bytes[1], 2))
    else
      var octets := bytes[1] - 0x80;
      if octets == 0 || octets > 4 then Err(InvalidLength)
      else if |bytes| < 2 + octets then Err(Truncated)
      else
        BigEndianBound(bytes[2..2 + octets]);
        PowMonotone(octets, 4);
        Ok((BigEndian(bytes[2..2 + octets]), 2 + octets))
  }

  lemma {:induction false} PowMonotone(j: nat, k: nat)
    requires j <= k
    ensures Pow256(j) <= Pow256(k)
  {
    if j < k {
      PowMonotone(j, k - 1);
    }
  }

  /** The first element of `bytes` and what follows it. */
  function TlvOf(bytes: seq<byte>): (r: Result<(Tlv, seq<byte>), BerError>)
    ensures r.Ok? ==> |r.value.0.value| + |r.value.1| + 2 <= |bytes|
    ensures r.Ok? ==> r.value.1 == bytes[|bytes| - |r.value.1|..]
  {
    if bytes == [] then Err(Empty)
    else if bytes[0] % 32 == 31 then Err(LongFormTag(bytes[0]))
    else if |bytes| < 2 then Err(Truncated)
    else
      var (len, header) :- HeaderOf(bytes);
      if |bytes| < header + len then Err(Truncated)
      else Ok((Tlv(bytes[0], bytes[header..header + len]), bytes[header + len..]))
  }

  /** Whether more octets could still complete the element, as opposed to it being malformed. */
  predicate AsksForMore(e: BerError) {
    e.Empty? || e.Truncated?
  }

  lemma CutAfterTwo(a: byte, b: byte, v: seq<byte>, after: seq<byte>)
    ensures var bytes := [a] + (([b] + v) + after);
            bytes[1] == b && |bytes| == 2 + |v| + |after| && bytes[2..2 + |v|] == v
  {
    var bytes := [a] + (([b] + v) + after);
    assert bytes == [a, b] + (v + after);
  }

  lemma LongHeader(bytes: seq<byte>, v: seq<byte>)
    requires 1 <= |v| <= 4 && 2 + |v| <= |bytes| && bytes[1] == 0x80 + |v| && bytes[2..2 + |v|] == v
    ensures HeaderOf(bytes) == Ok((BigEndian(v), 2 + |v|))
  {
    hide BigEndian, Pow256;
  }

  /** A length written and read back, whatever follows it. */
  lemma LengthReadsBack(tag: byte, n: nat, after: seq<byte>)
    requires n < Pow256(4)
    ensures var bytes := [tag] + (LengthOctets(n) + after);
            HeaderOf(bytes) == Ok((n, 1 + |LengthOctets(n)|))
            && bytes[1 + |LengthOctets(n)|..] == after
  {
    hide BigEndian, Pow256, Minimal;
    var bytes := [tag] + (LengthOctets(n) + after);
    if n < 0x80 {
      assert bytes[1] == n;
    } else {
      MinimalLength(n, 4);
      MinimalLength(n, 0);
      MinimalValue(n);
      PowZero();
      var b: byte, v := 0x80 + |Minimal(n)| % 0x80, Minimal(n);
      CutAfterTwo(tag, b, v, after);
      LongHeader(bytes, v);
    }
  }

  lemma PowZero()
    ensures Pow256(0) == 1
  {
  }

  /** Decoding inverts encoding, leaving exactly the octets that followed: precisely for one-octet
      tags and values whose length fits four length octets. */
  lemma TlvRoundTrip(tag: byte, value: seq<byte>, after: seq<byte>)
    ensures TlvOf(TlvOctets(tag, value) + after) == Ok((Tlv(tag, value), after))
            <==> tag % 32 != 31 && |value| < Pow256(4)
  {
    hide HeaderOf, LengthOctets, Pow256;
    var bytes := TlvOctets(tag, value) + after;
    assert bytes[0] == tag;
    if tag % 32 != 31 && |value| < Pow256(4) {
      assert bytes == [tag] + (LengthOctets(|value|) + (value + after));
      LengthReadsBack(tag, |value|, value + after);
      var h := 1 + |LengthOctets(|value|)|;
      assert bytes[h..h + |value|] == value by {
        assert bytes[h..][..|value|] == value;
      }
      assert bytes[h + |value|..] == after by {
        assert bytes[h..][|value|..] == after;
      }
    }
  }

  /** A verdict other than "more octets please" never changes when octets are appended. */
  lemma TlvStable(bytes: seq<byte>, more: seq<byte>)
    ensures TlvOf(bytes).Ok? ==>
              TlvOf(bytes + more) == Ok((TlvOf(bytes).value.0, TlvOf(bytes).value.1 + more))
    ensures TlvOf(bytes).Err? && !AsksForMore(TlvOf(bytes).error) ==> TlvOf(bytes + more) == TlvOf(bytes)
  {
    var all := bytes + more;
    if |bytes| >= 2 && bytes[0] % 32 != 31 && HeaderOf(bytes).Ok? {
      var (len, h) := HeaderOf(bytes).value;
      assert all[2..h] == bytes[2..h];
      assert HeaderOf(all) == HeaderOf(bytes);
      if |bytes| >= h + len {
        assert all[h..h + len] == bytes[h..h + len];
        assert all[h + len..] == bytes[h + len..] + more;
      }
    }
  }

  /** Every strict prefix of a well-formed element only asks for more octets. */
  lemma PrefixAsksForMore(bytes: seq<byte>, k: nat)
    requires TlvOf(bytes).Ok?
    requires k < |bytes| - |TlvOf(bytes).value.1|
    ensures TlvOf(bytes[..k]).Err? && AsksForMore(TlvOf(bytes[..k]).error)
  {
    var cut := bytes[..k];
    assert cut + bytes[k..] == bytes;
    TlvStable(cut, bytes[k..]);
  }

  /** No header that the decoder accepts for a length is shorter than the one the encoder emits. */
  lemma LengthShortest(bytes: seq<byte>)
    requires |bytes| >= 2 && HeaderOf(bytes).Ok?
    ensures 1 + |LengthOctets(HeaderOf(bytes).value.0)| <= HeaderOf(bytes).value.1
  {
    var (n, h) := HeaderOf(bytes).value;
    if n >= 0x80 {
      BigEndianBound(bytes[2..h]);
      MinimalLength(n, h - 2);
    }
  }

  /** Short contents go behind a tag and one octet of length; small numbers take one octet. */
  lemma ShortTlv(tag: byte, value: seq<byte>)
    requires |value| < 0x80
    ensures TlvOctets(tag, value) == [tag, |value|] + value
  {
  }

  lemma ShortInteger(tag: byte, n: nat)
    requires n < 0x80
    ensures IntegerOctets(n) == [n] && TlvOctets(tag, IntegerOctets(n)) == [tag, 1, n]
  {
  }

  // ---- What the decoder accepts ----

  /** A definite length: one octet below 128, or a count of one to four and that many octets, of which any
      number may be leading zeroes. */
  predicate LengthForm(l: seq<byte>, n: nat) {
    || (|l| == 1 && l[0] < 0x80 && l[0] == n)
    || (2 <= |l| <= 5 && l[0] == 0x80 + (|l| - 1) && BigEndian(l[1..]) == n)
  }

  lemma HeaderIs(bytes: seq<byte>, n: nat, h: nat)
    requires |bytes| >= 2
    ensures HeaderOf(bytes) == Ok((n, h)) <==> 2 <= h <= |bytes| && LengthForm(bytes[1..h], n)
  {
    hide BigEndian, Pow256;
    if 2 <= h <= |bytes| {
      assert bytes[1..h][1..] == bytes[2..h] && bytes[1..h][0] == bytes[1];
    }
  }

  lemma HeaderCut(bytes: seq<byte>, t: Tlv, l: seq<byte>, rest: seq<byte>)
    requires l != [] && bytes == [t.tag] + (l + (t.value + rest))
    ensures var h := 1 + |l|;
            && |bytes| == h + |t.value| + |rest| && bytes[0] == t.tag && bytes[1..h] == l
            && bytes[h..h + |t.value|] == t.value && bytes[h + |t.value|..] == rest
  {
    var tail := t.value + rest;
    assert bytes[1..] == l + tail;
    assert bytes[1..][..|l|] == l && bytes[1..][|l|..] == tail;
    assert tail[..|t.value|] == t.value && tail[|t.value|..] == rest;
  }

  lemma TlvTaken(bytes: seq<byte>)
    requires TlvOf(bytes).Ok?
    ensures var (t, rest) := TlvOf(bytes).value;
            t.tag % 32 != 31 &&
            exists l :: LengthForm(l, |t.value|) && bytes == [t.tag] + (l + (t.value + rest))
  {
    hide HeaderOf, LengthForm, Pow256;
    var (n, h) := HeaderOf(bytes).value;
    HeaderIs(bytes, n, h);
    assert bytes == [bytes[0]] + (bytes[1..h] + (bytes[h..h + n] + bytes[h + n..]));
  }

  lemma TlvGiven(bytes: seq<byte>, t: Tlv, l: seq<byte>, rest: seq<byte>)
    requires t.tag % 32 != 31 && LengthForm(l, |t.value|) && bytes == [t.tag] + (l + (t.value + rest))
    ensures TlvOf(bytes) == Ok((t, rest))
  {
    hide HeaderOf, LengthForm, Pow256;
    LengthFormSize(l, |t.value|);
    HeaderCut(bytes, t, l, rest);
    HeaderIs(bytes, |t.value|, 1 + |l|);
  }

  /** The decoder takes an element off the front exactly when the octets are a one-octet tag, a definite
      length of the content, the content, and the rest. */
  lemma TlvAccepts(bytes: seq<byte>, t: Tlv, rest: seq<byte>)
    ensures TlvOf(bytes) == Ok((t, rest)) <==>
            t.tag % 32 != 31 &&
            exists l :: LengthForm(l, |t.value|) && bytes == [t.tag] + (l + (t.value + rest))
  {
    hide TlvOf, LengthForm;
    if TlvOf(bytes) == Ok((t, rest)) {
      TlvTaken(bytes);
    }
    if l :| LengthForm(l, |t.value|) && bytes == [t.tag] + (l + (t.value + rest)) {
      if t.tag % 32 != 31 {
        TlvGiven(bytes, t, l, rest);
      }
    }
  }

  lemma LengthFormSize(l: seq<byte>, n: nat)
    requires LengthForm(l, n)
    ensures 1 <= |l| <= 5
  {
  }

  /** A tag, a length form and the beginning of the content can be completed. */
  lemma ContentCompletes(bytes: seq<byte>, l: seq<byte>, n: nat, some: seq<byte>)
    requires bytes != [] && bytes[0] % 32 != 31 && LengthForm(l, n) && |some| <= n && bytes == [bytes[0]] + (l + some)
    ensures TlvOf(bytes + Zeros(n - |some|)).Ok?
  {
    hide LengthForm, TlvOf;
    var more := Zeros(n - |some|);
    var value := some + more;
    assert bytes + more == [bytes[0]] + (l + (value + []));
    TlvGiven(bytes + more, Tlv(bytes[0], value), l, []);
  }

  lemma LengthCompletes(bytes: seq<byte>, k: nat)
    requires |bytes| >= 2 && bytes[0] % 32 != 31 && 1 <= k <= 4 && bytes[1] == 0x80 + k && |bytes| < 2 + k
    ensures exists more :: TlvOf(bytes + more).Ok?
  {
    hide TlvOf, BigEndian;
    var fill := Zeros(2 + k - |bytes|);
    var all := bytes + fill;
    var l := all[1..];
    var n := BigEndian(l[1..]);
    assert LengthForm(l, n) && all == [all[0]] + (l + []);
    ContentCompletes(all, l, n, []);
    assert (bytes + fill) + Zeros(n) == bytes + (fill + Zeros(n));
  }

  lemma ValueCompletes(bytes: seq<byte>)
    requires |bytes| >= 2 && bytes[0] % 32 != 31 && HeaderOf(bytes).Ok?
    requires |bytes| < HeaderOf(bytes).value.1 + HeaderOf(bytes).value.0
    ensures exists more :: TlvOf(bytes + more).Ok?
  {
    hide TlvOf, HeaderOf, LengthForm;
    var (n, h) := HeaderOf(bytes).value;
    HeaderIs(bytes, n, h);
    assert bytes == [bytes[0]] + (bytes[1..h] + bytes[h..]);
    ContentCompletes(bytes, bytes[1..h], n, bytes[h..]);
  }

  /** The decoder asks for more octets exactly as long as some octets could complete the element. */
  lemma AsksWhileCompletable(bytes: seq<byte>)
    requires TlvOf(bytes).Err?
    ensures AsksForMore(TlvOf(bytes).error) <==> exists more :: TlvOf(bytes + more).Ok?
  {
    if AsksForMore(TlvOf(bytes).error) {
      if bytes == [] {
        TlvRoundTrip(TAG_SEQUENCE, [], []);
        Pow256Values();
        assert bytes + (TlvOctets(TAG_SEQUENCE, []) + []) == TlvOctets(TAG_SEQUENCE, []) + [];
      } else if |bytes| == 1 {
        assert LengthForm([0], 0);
        assert bytes + [0] == [bytes[0]] + ([0] + ([] + []));
        TlvGiven(bytes + [0], Tlv(bytes[0], []), [0], []);
      } else if HeaderOf(bytes).Err? {
        LengthCompletes(bytes, bytes[1] - 0x80);
      } else {
        ValueCompletes(bytes);
      }
    } else {
      forall more: seq<byte>
        ensures TlvOf(bytes + more).Err?
      {
        TlvStable(bytes, more);
      }
    }
  }

  /** Why octets that no others could complete are refused. */
  lemma RefusalIs(bytes: seq<byte>)
    ensures TlvOf(bytes) == Err(Empty) <==> bytes == []
    ensures bytes != [] && bytes[0] % 32 == 31 ==> TlvOf(bytes) == Err(LongFormTag(bytes[0]))
    ensures |bytes| >= 2 && bytes[0] % 32 != 31 && (bytes[1] == 0x80 || bytes[1] > 0x84) ==>
              TlvOf(bytes) == Err(InvalidLength)
  {
  }

  lemma ZeroHasNoOctets()
    ensures Minimal(0) == []
  {
  }

  lemma MinimalStep(n: nat, bytes: seq<byte>)
    requires n > 0
    ensures Minimal(n) + bytes == Minimal(n / 256) + ([n % 256] + bytes)
  {
    var high := Minimal(n / 256);
    assert (high + [n % 256]) + bytes == high + ([n % 256] + bytes);
  }

  /** The imperative encoder: the octets are pushed in front of one another. */
  method EncodeLength(len: nat, out: seq<byte>) returns (r: seq<byte>)
    ensures r == out + LengthOctets(len)
  {
    hide Minimal;
    if len < 0x80 {
      return out + [len];
    }
    assert Minimal(len) + [] == Minimal(len);
    var bytes: seq<byte> := [];
    var n := len;
    while n > 0
      invariant Minimal(len) == Minimal(n) + bytes
    {
      MinimalStep(n, bytes);
      bytes := [n % 256] + bytes;
      n := n / 256;
    }
    assert Minimal(len) == bytes by {
      ZeroHasNoOctets();
    }
    r := out + ([0x80 + |bytes| % 0x80] + bytes);
  }

  method EncodeTlv(tag: byte, value: seq<byte>, out: seq<byte>) returns (r: seq<byte>)
    ensures r == out + TlvOctets(tag, value)
  {
    r := EncodeLength(|value|, out + [tag]);
    r := r + value;
  }

  /** The imperative decoder, which accumulates a long-form length octet by octet. */
  method DecodeTlv(bytes: seq<byte>) returns (r: Result<(Tlv, seq<byte>), BerError>)
    ensures r == TlvOf(bytes)
  {
    if bytes == [] {
      return Err(Empty);
    }
    var tag := bytes[0];
    if tag % 32 == 31 {
      return Err(LongFormTag(tag));
    }
    if |bytes| < 2 {
      return Err(Truncated);
    }
    var len: nat, header := bytes[1], 2;
    if bytes[1] >= 0x80 {
      var octets := bytes[1] - 0x80;
      if octets == 0 || octets > 4 {
        return Err(InvalidLength);
      }
      if |bytes| < 2 + octets {
        return Err(Truncated);
      }
      len := 0;
      for i := 0 to octets
        invariant len == BigEndian(bytes[2..2 + i])
      {
        assert bytes[2..2 + i + 1][..i] == bytes[2..2 + i];
        len := len * 256 + bytes[2 + i];
      }
      header := 2 + octets;
    }
    if |bytes| < header + len {
      return Err(Truncated);
    }
    r := Ok((Tlv(tag, bytes[header..header + len]), bytes[header + len..]));
  }

  // ---- Integers (section 8.3 of ITU-T X.690) ----

  /** The shortest two's complement octets of `n`. */
  function IntegerOctets(n: int): (bs: seq<byte>)
    ensures bs != []
    decreases if n < 0 then -n else n
  {
    if -0x80 <= n < 0x80 then [n % 256] else IntegerOctets(n / 256) + [n % 256]
  }

  /** The number that `bs` spells in big-endian two's complement. */
  function SignedValue(bs: seq<byte>): (n: int)
    requires bs != []
  {
    BigEndian(bs) - if bs[0] >= 0x80 then Pow256(|bs|) else 0
  }

  function IntegerOf(value: seq<byte>): (r: Result<int, BerError>)
  {
    if value == [] || |value| > 8 then Err(InvalidInteger) else Ok(SignedValue(value))
  }

  /** One to eight octets are a number, and nothing else is. */
  lemma IntegerAccepts(value: seq<byte>)
    ensures IntegerOf(value).Ok? <==> 1 <= |value| <= 8
    ensures IntegerOf(value).Err? ==> IntegerOf(value).error == InvalidInteger
  {
  }

  lemma OneOctet(b: byte)
    ensures SignedValue([b]) == if b >= 0x80 then b - 0x100 else b
  {
    assert BigEndian([b][..0]) == 0 && Pow256(1) == 0x100;
  }

  lemma SignedValueSnoc(bs: seq<byte>, b: byte)
    requires bs != []
    ensures SignedValue(bs + [b]) == SignedValue(bs) * 256 + b
  {
    assert (bs + [b])[..|bs|] == bs;
    assert Pow256(|bs| + 1) == 256 * Pow256(|bs|);
  }

  lemma {:induction false} SignedValueRange(bs: seq<byte>)
    requires bs != []
    ensures -0x80 * Pow256(|bs| - 1) <= SignedValue(bs) < 0x80 * Pow256(|bs| - 1)
  {
    if |bs| == 1 {
      OneOctet(bs[0]);
      assert bs == [bs[0]];
    } else {
      var front := bs[..|bs| - 1];
      SignedValueRange(front);
      assert bs == front + [bs[|bs| - 1]];
      SignedValueSnoc(front, bs[|bs| - 1]);
      assert Pow256(|bs| - 1) == 256 * Pow256(|bs| - 2);
    }
  }

  lemma {:induction false} IntegerOctetsValue(n: int)
    ensures SignedValue(IntegerOctets(n)) == n
    decreases if n < 0 then -n else n
  {
    if -0x80 <= n < 0x80 {
      OneOctet(n % 256);
    } else {
      IntegerOctetsValue(n / 256);
      SignedValueSnoc(IntegerOctets(n / 256), n % 256);
    }
  }

  lemma {:induction false} IntegerOctetsLength(n: int, k: nat)
    ensures |IntegerOctets(n)| <= k + 1 <==> -0x80 * Pow256(k) <= n < 0x80 * Pow256(k)
    decreases k
  {
    if k > 0 {
      assert Pow256(k) == 256 * Pow256(k - 1);
      if !(-0x80 <= n < 0x80) {
        IntegerOctetsLength(n / 256, k - 1);
      }
    }
  }

  /** Over all 64-bit values: one to eight octets, lossless through the decoder, no octet string of
      the same value is shorter, and so no redundant leading sign octet. */
  lemma IntegerRoundTripShortest(n: i64)
    ensures 1 <= |IntegerOctets(n)| <= 8
    ensures IntegerOf(IntegerOctets(n)) == Ok(n)
    ensures forall bs: seq<byte> | bs != [] && SignedValue(bs) == n :: |IntegerOctets(n)| <= |bs|
    ensures var o := IntegerOctets(n);
            |o| > 1 ==> !(o[0] == 0x00 && o[1] < 0x80) && !(o[0] == 0xFF && o[1] >= 0x80)
  {
    Pow256Values();
    IntegerOctetsLength(n, 7);
    IntegerOctetsValue(n);
    forall bs: seq<byte> | bs != [] && SignedValue(bs) == n
      ensures |IntegerOctets(n)| <= |bs|
    {
      SignedValueRange(bs);
      IntegerOctetsLength(n, |bs| - 1);
    }
    var o := IntegerOctets(n);
    if |o| > 1 && ((o[0] == 0x00 && o[1] < 0x80) || (o[0] == 0xFF && o[1] >= 0x80)) {
      SignExtension(o);
    }
  }

  /** A leading octet that only repeats the sign adds nothing to the value. */
  lemma {:induction false} SignExtension(bs: seq<byte>)
    requires |bs| > 1
    requires (bs[0] == 0x00 && bs[1] < 0x80) || (bs[0] == 0xFF && bs[1] >= 0x80)
    ensures SignedValue(bs[1..]) == SignedValue(bs)
  {
    if |bs| == 2 {
      OneOctet(bs[0]);
      OneOctet(bs[1]);
      assert bs[1..] == [bs[1]] && bs == [bs[0]] + [bs[1]];
      SignedValueSnoc([bs[0]], bs[1]);
    } else {
      var front, last := bs[..|bs| - 1], bs[|bs| - 1];
      SignExtension(front);
      assert bs == front + [last] && bs[1..] == front[1..] + [last];
      SignedValueSnoc(front, last);
      SignedValueSnoc(front[1..], last);
    }
  }

  /** The imperative encoder: octets are shifted off the right until only sign bits remain, and a
      sign octet is put in front when the leading bit would read as the wrong sign. */
  method IntToBytes(n: i64) returns (bytes: seq<byte>)
    ensures bytes == IntegerOctets(n)
  {
    if n == 0 {
      return [0x00];
    }
    bytes := [];
    var x: int := n;
    while x != 0 && x != -1
      invariant x >= 0 <==> n >= 0
      invariant bytes == [] ==> x == n
      invariant bytes != [] ==>
                  IntegerOctets(n) ==
                  if (x == 0 || x == -1) && (bytes[0] >= 0x80 <==> x == -1) then bytes
                  else IntegerOctets(x) + bytes
      decreases if x < 0 then -x else x
    {
      assert IntegerOctets(n) == IntegerOctets(x) + bytes;
      if !(-0x80 <= x < 0x80) {
        assert IntegerOctets(x) + bytes == IntegerOctets(x / 256) + ([x % 256] + bytes);
      }
      bytes := [x % 256] + bytes;
      x := x / 256;
    }
    if bytes == [] {
      bytes := [if n >= 0 then 0x00 else 0xFF];
    } else if n >= 0 && bytes[0] >= 0x80 {
      bytes := [0x00] + bytes;
    } else if n < 0 && bytes[0] < 0x80 {
      bytes := [0xFF] + bytes;
    }
  }

  /** The imperative decoder. The accumulator starts as the sign and, for at most eight octets,
      never leaves the 64-bit range. */
  method DecodeIntegerValue(value: seq<byte>) returns (r: Result<int, BerError>)
    ensures r == IntegerOf(value)
    ensures r.Ok? ==> -0x8000_0000_0000_0000 <= r.value < 0x8000_0000_0000_0000
  {
    if value == [] || |value| > 8 {
      return Err(InvalidInteger);
    }
    var n: int := if value[0] >= 0x80 then -1 else 0;
    for i := 0 to |value|
      invariant n == BigEndian(value[..i]) - if value[0] >= 0x80 then Pow256(i) else 0
    {
      assert value[..i + 1][..i] == value[..i];
      n := n * 256 + value[i];
    }
    assert value[..|value|] == value;
    SignedValueRange(value);
    Pow256Values();
    PowMonotone(|value| - 1, 7);
    r := Ok(n);
  }
}
