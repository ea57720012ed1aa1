/** What well-formed UTF-8 octets spell, and what trimming takes from a text. */
module Utf8Text {
  import opened Bytes
  import opened Utf8

  /** The UTF-8 form of one character. */
  function CharOctets(c: char): (bs: seq<byte>)
    ensures 1 <= |bs| <= 4
  {
    var n := c as int;
    if n < 0x80 then [n]
    else if n < 0x800 then [0xC0 + n / 64, 0x80 + n % 64]
    else if n < 0x1_0000 then [0xE0 + n / 4096, 0x80 + n / 64 % 64, 0x80 + n % 64]
    else [0xF0 + n / 262144, 0x80 + n / 4096 % 64, 0x80 + n / 64 % 64, 0x80 + n % 64]
  }

  function TextOctets(s: string): (bs: seq<byte>)
  {
    if s == [] then [] else CharOctets(s[0]) + TextOctets(s[1..])
  }

  /** The last octets of a three or four octet form, and the bounds on the first two. */
  lemma ThreeOctetForm(n: nat)
    requires 0x800 <= n < 0x1_0000 && !(0xD800 <= n < 0xE000)
    ensures var a, b := 0xE0 + n / 4096, 0x80 + n / 64 % 64;
            a <= 0xEF && (a == 0xE0 ==> b >= 0xA0) && (a == 0xED ==> b <= 0x9F)
  {
  }

  lemma FourOctetForm(n: nat)
    requires 0x1_0000 <= n < 0x11_0000
    ensures var a, b := 0xF0 + n / 262144, 0x80 + n / 4096 % 64;
            a <= 0xF4 && (a == 0xF0 ==> b >= 0x90) && (a == 0xF4 ==> b <= 0x8F)
  {
  }

  lemma ThreeSized(a: byte, b: byte, d: byte, rest: seq<byte>)
    requires 0xE0 <= a <= 0xEF && Continuation(b) && Continuation(d)
    requires (a == 0xE0 ==> b >= 0xA0) && (a == 0xED ==> b <= 0x9F)
    ensures CharSize([a, b, d] + rest) == 3
  {
  }

  lemma FourSized(a: byte, b: byte, d: byte, e: byte, rest: seq<byte>)
    requires 0xF0 <= a <= 0xF4 && Continuation(b) && Continuation(d) && Continuation(e)
    requires (a == 0xF0 ==> b >= 0x90) && (a == 0xF4 ==> b <= 0x8F)
    ensures CharSize([a, b, d, e] + rest) == 4
  {
  }

  lemma ShortSized(n: nat, rest: seq<byte>)
    requires n < 0x800
    ensures CharSize((if n < 0x80 then [n] else [0xC0 + n / 64, 0x80 + n % 64]) + rest) == if n < 0x80 then 1 else 2
  {
  }

  lemma CharIsSized(c: char, rest: seq<byte>)
    ensures CharSize(CharOctets(c) + rest) == |CharOctets(c)|
  {
    hide CharSize;
    var n := c as int;
    if n < 0x800 {
      ShortSized(n, rest);
    } else if n < 0x1_0000 {
      ThreeOctetForm(n);
      ThreeSized(0xE0 + n / 4096, 0x80 + n / 64 % 64, 0x80 + n % 64, rest);
    } else {
      FourOctetForm(n);
      FourSized(0xF0 + n / 262144, 0x80 + n / 4096 % 64, 0x80 + n / 64 % 64, 0x80 + n % 64, rest);
    }
  }

  /** The character that well-formed octets start with. */
  lemma SizedIsChar(s: seq<byte>) returns (c: char)
    requires CharSize(s) > 0
    ensures s[..CharSize(s)] == CharOctets(c)
  {
    var k := CharSize(s);
    if k == 1 {
      c := s[0] as char;
    } else if k == 2 {
      c := TwoOctets(s[0], s[1]);
    } else if k == 3 {
      c := ThreeOctets(s[0], s[1], s[2]);
    } else {
      c := FourOctets(s[0], s[1], s[2], s[3]);
    }
  }

  lemma TwoOctets(a: byte, b: byte) returns (c: char)
    requires 0xC2 <= a <= 0xDF && Continuation(b)
    ensures CharOctets(c) == [a, b]
  {
    var n := (a - 0xC0) * 64 + (b - 0x80);
    c := n as char;
    assert n / 64 == a - 0xC0;
  }

  lemma ThreeOctets(a: byte, b: byte, d: byte) returns (c: char)
    requires 0xE0 <= a <= 0xEF && Continuation(b) && Continuation(d)
    requires (a == 0xE0 ==> b >= 0xA0) && (a == 0xED ==> b <= 0x9F)
    ensures CharOctets(c) == [a, b, d]
  {
    var n := (a - 0xE0) * 4096 + (b - 0x80) * 64 + (d - 0x80);
    c := n as char;
    assert n / 4096 == a - 0xE0 && n / 64 == (a - 0xE0) * 64 + (b - 0x80);
  }

  lemma FourOctets(a: byte, b: byte, d: byte, e: byte) returns (c: char)
    requires 0xF0 <= a <= 0xF4 && Continuation(b) && Continuation(d) && Continuation(e)
    requires (a == 0xF0 ==> b >= 0x90) && (a == 0xF4 ==> b <= 0x8F)
    ensures CharOctets(c) == [a, b, d, e]
  {
    var n := (a - 0xF0) * 262144 + (b - 0x80) * 4096 + (d - 0x80) * 64 + (e - 0x80);
    c := n as char;
    assert n / 262144 == a - 0xF0 && n / 4096 == (a - 0xF0) * 64 + (b - 0x80);
    assert n / 64 == (a - 0xF0) * 4096 + (b - 0x80) * 64 + (d - 0x80);
  }

  lemma {:induction false} TextIsUtf8(s: string)
    ensures IsUtf8(TextOctets(s))
  {
    if s != [] {
      var first, rest := CharOctets(s[0]), TextOctets(s[1..]);
      TextIsUtf8(s[1..]);
      CharIsSized(s[0], rest);
      assert (first + rest)[|first|..] == rest;
    }
  }

  lemma TextCons(c: char, rest: string)
    ensures TextOctets([c] + rest) == CharOctets(c) + TextOctets(rest) && TextOctets([]) == []
  {
    assert ([c] + rest)[1..] == rest;
  }

  lemma CutAt(bs: seq<byte>, k: nat)
    requires k <= |bs|
    ensures bs == bs[..k] + bs[k..]
  {
  }

  lemma Utf8Parts(bs: seq<byte>)
    requires IsUtf8(bs) && bs != []
    ensures 0 < CharSize(bs) && IsUtf8(bs[CharSize(bs)..])
  {
    hide CharSize;
  }

  lemma {:induction false} Utf8IsText(bs: seq<byte>) returns (s: string)
    requires IsUtf8(bs)
    ensures TextOctets(s) == bs
  {
    hide CharSize, CharOctets, TextOctets, IsUtf8;
    TextCons('a', []);
    s := [];
    if bs != [] {
      Utf8Parts(bs);
      var k := CharSize(bs);
      CutAt(bs, k);
      var c := SizedIsChar(bs);
      var rest := Utf8IsText(bs[k..]);
      s := [c] + rest;
      TextCons(c, rest);
    }
  }

  /** Octets are well formed exactly when they are the UTF-8 form of some text. */
  lemma Utf8Exactly(bs: seq<byte>)
    ensures IsUtf8(bs) <==> exists s: string :: bs == TextOctets(s)
  {
    if IsUtf8(bs) {
      var s := Utf8IsText(bs);
    }
    if s: string :| bs == TextOctets(s) {
      TextIsUtf8(s);
    }
  }

  // ---- What trimming leaves ----

  predicate IsBlank(c: char) {
    var n := c as int;
    || 0x09 <= n <= 0x0D || n == 0x20 || n == 0x85 || n == 0xA0 || n == 0x1680 || 0x2000 <= n <= 0x200A
    || n == 0x2028 || n == 0x2029 || n == 0x202F || n == 0x205F || n == 0x3000
  }

  lemma ThreeOctetSum(n: nat)
    requires n < 0x1_0000
    ensures n / 4096 < 16 && n == n / 4096 * 4096 + n / 64 % 64 * 64 + n % 64
  {
    assert n / 64 == n / 4096 * 64 + n / 64 % 64;
  }

  lemma ThreeOctetBlank(n: nat, a: byte, b: byte, d: byte, rest: seq<byte>)
    requires 0x800 <= n < 0x1_0000 && n == (a - 0xE0) * 4096 + (b - 0x80) * 64 + (d - 0x80)
    requires 0xE0 <= a <= 0xEF && Continuation(b) && Continuation(d)
    ensures BlankSize([a, b, d] + rest) == 3 <==>
            || n == 0x1680 || 0x2000 <= n <= 0x200A || n == 0x2028 || n == 0x2029 || n == 0x202F || n == 0x205F
            || n == 0x3000
    ensures BlankSize([a, b, d] + rest) == 3 || BlankSize([a, b, d] + rest) == 0
  {
  }

  lemma ShortBlank(n: nat, rest: seq<byte>)
    requires n < 0x800
    ensures BlankSize((if n < 0x80 then [n] else [0xC0 + n / 64, 0x80 + n % 64]) + rest) ==
            if 0x09 <= n <= 0x0D || n == 0x20 then 1 else if n == 0x85 || n == 0xA0 then 2 else 0
  {
  }

  lemma LongBlank(a: byte, rest: seq<byte>)
    requires a >= 0xF0
    ensures BlankSize([a] + rest) == 0
  {
  }

  /** The blanks are the characters of the Unicode property White_Space. */
  lemma BlankSizeIs(c: char, rest: seq<byte>)
    ensures BlankSize(CharOctets(c) + rest) == if IsBlank(c) then |CharOctets(c)| else 0
  {
    hide BlankSize;
    var n := c as int;
    if n < 0x800 {
      ShortBlank(n, rest);
    } else if n < 0x1_0000 {
      ThreeOctetSum(n);
      ThreeOctetBlank(n, 0xE0 + n / 4096, 0x80 + n / 64 % 64, 0x80 + n % 64, rest);
    } else {
      var bs := CharOctets(c);
      LongBlank(bs[0], bs[1..] + rest);
      assert bs + rest == [bs[0]] + (bs[1..] + rest);
    }
  }

  predicate AllBlanks(s: string) {
    forall i | 0 <= i < |s| :: IsBlank(s[i])
  }

  lemma {:induction false} TextAppend(s: string, t: string)
    ensures TextOctets(s + t) == TextOctets(s) + TextOctets(t)
  {
    hide CharOctets;
    if s == [] {
      assert s + t == t;
    } else {
      assert (s + t)[1..] == s[1..] + t;
      TextAppend(s[1..], t);
    }
  }

  lemma {:induction false} StartIsTrimmed(a: string, s: string)
    requires AllBlanks(a) && (s != [] ==> !IsBlank(s[0]))
    ensures TrimStart(TextOctets(a + s)) == TextOctets(s)
    decreases |a|
  {
    hide CharOctets, BlankSize, IsBlank;
    if a == [] {
      assert a + s == s;
      if s == [] {
        NoBlank();
      } else {
        BlankSizeIs(s[0], TextOctets(s[1..]));
      }
    } else {
      var rest := TextOctets(a[1..] + s);
      assert (a + s)[0] == a[0] && (a + s)[1..] == a[1..] + s;
      BlankSizeIs(a[0], rest);
      assert (CharOctets(a[0]) + rest)[|CharOctets(a[0])|..] == rest;
      StartIsTrimmed(a[1..], s);
    }
  }

  lemma NoBlank()
    ensures BlankSize([]) == 0
  {
  }

  lemma BlankContinues(s: seq<byte>)
    ensures forall i | 0 < i < BlankSize(s) :: Continuation(s[i])
  {
  }

  lemma CharContinues(c: char)
    ensures !Continuation(CharOctets(c)[0])
    ensures forall i | 0 < i < |CharOctets(c)| :: Continuation(CharOctets(c)[i])
  {
  }

  /** The last octets of a text are a blank exactly when they are its last character and that is one. */
  lemma EndsInBlankIs(bs: seq<byte>, c: char, k: nat)
    requires 0 < k
    ensures EndsInBlank(bs + CharOctets(c), k) <==> k == |CharOctets(c)| && IsBlank(c)
  {
    hide CharOctets, BlankSize, IsBlank, Continuation;
    var last, s := CharOctets(c), bs + CharOctets(c);
    var m := |last|;
    CharContinues(c);
    BlankSizeIs(c, []);
    assert last + [] == last;
    if k <= |s| {
      var tail := s[|s| - k..];
      BlankContinues(tail);
      if k < m {
        assert tail[0] == last[m - k];
      } else if k == m {
        assert tail == last;
      } else {
        assert tail[k - m] == last[0];
      }
    }
  }

  lemma TrailingBlankIs(bs: seq<byte>, c: char)
    ensures TrailingBlank(bs + CharOctets(c)) == if IsBlank(c) then |CharOctets(c)| else 0
  {
    hide EndsInBlank, CharOctets;
    EndsInBlankIs(bs, c, 1);
    EndsInBlankIs(bs, c, 2);
    EndsInBlankIs(bs, c, 3);
    BlankIsShort(c);
  }

  lemma BlankIsShort(c: char)
    ensures IsBlank(c) ==> |CharOctets(c)| <= 3
  {
  }

  lemma LastChar(s: string)
    requires s != []
    ensures TextOctets(s) == TextOctets(s[..|s| - 1]) + CharOctets(s[|s| - 1])
  {
    hide CharOctets, TextOctets;
    var n := |s| - 1;
    var c := s[n];
    assert s == s[..n] + [c] && [c] + [] == [c];
    TextAppend(s[..n], [c]);
    TextCons(c, []);
    assert CharOctets(c) + [] == CharOctets(c);
  }

  lemma {:induction false} EndIsTrimmed(s: string, b: string)
    requires AllBlanks(b) && (s != [] ==> !IsBlank(s[|s| - 1]))
    ensures TrimEnd(TextOctets(s + b)) == TextOctets(s)
    decreases |b|
  {
    hide CharOctets, TrailingBlank, IsBlank, IsUtf8;
    if b == [] {
      assert s + b == s;
      if s == [] {
        NothingTrailing();
      } else {
        LastChar(s);
        TrailingBlankIs(TextOctets(s[..|s| - 1]), s[|s| - 1]);
      }
    } else {
      var n := |b| - 1;
      var all, front := s + b, s + b[..n];
      assert all[..|all| - 1] == front && all[|all| - 1] == b[n];
      LastChar(all);
      TrailingBlankIs(TextOctets(front), b[n]);
      EndIsTrimmed(s, b[..n]);
      var bs, c := TextOctets(front), CharOctets(b[n]);
      assert (bs + c)[..|bs + c| - |c|] == bs;
    }
  }

  lemma NothingTrailing()
    ensures TrailingBlank([]) == 0
  {
  }

  /** Trimming takes away the blanks on both sides, and nothing else. */
  lemma TrimIs(a: string, s: string, b: string)
    requires AllBlanks(a) && AllBlanks(b) && (s != [] ==> !IsBlank(s[0]) && !IsBlank(s[|s| - 1]))
    ensures IsUtf8(TextOctets(a + (s + b))) && Trim(TextOctets(a + (s + b))) == TextOctets(s)
  {
    hide TextOctets, TrimStart, TrimEnd, IsBlank, IsUtf8;
    TextIsUtf8(a + (s + b));
    if s == [] {
      assert a + (s + b) == (a + b) + s;
      StartIsTrimmed(a + b, s);
    } else {
      StartIsTrimmed(a, s + b);
      assert s + [] == s;
    }
    if s == [] {
      var none: string := [];
      EndIsTrimmed(s, none);
      assert s + none == s;
    } else {
      EndIsTrimmed(s, b);
    }
  }
}
