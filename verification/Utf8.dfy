/** Well-formed UTF-8 octet strings (table 3-7 of the Unicode Standard) and blank trimming. */
module Utf8 {
  import opened Bytes

  predicate Continuation(b: byte) {
    0x80 <= b <= 0xBF
  }

  /** The size of the well-formed character at the front of `s`, or 0 when there is none. */
  function CharSize(s: seq<byte>): (k: nat)
    ensures k <= 4 && k <= |s|
    ensures forall i | 0 < i < k :: Continuation(s[i])
  {
    if s == [] then 0
    else if s[0] < 0x80 then 1
    else if |s| >= 2 && 0xC2 <= s[0] <= 0xDF && Continuation(s[1]) then 2
    else if |s| >= 3 && 0xE0 <= s[0] <= 0xEF && Continuation(s[1]) && Continuation(s[2])
         && (s[0] == 0xE0 ==> s[1] >= 0xA0) && (s[0] == 0xED ==> s[1] <= 0x9F) then 3
    else if |s| >= 4 && 0xF0 <= s[0] <= 0xF4 && Continuation(s[1]) && Continuation(s[2]) && Continuation(s[3])
         && (s[0] == 0xF0 ==> s[1] >= 0x90) && (s[0] == 0xF4 ==> s[1] <= 0x8F) then 4
    else 0
  }

  predicate IsUtf8(s: seq<byte>) {
    s == [] || (CharSize(s) > 0 && IsUtf8(s[CharSize(s)..]))
  }

  type Utf8String = s: seq<byte> | IsUtf8(s) witness []

  /** The size of the blank character at the front of `s` (property White_Space), or 0. */
  function BlankSize(s: seq<byte>): (k: nat)
    ensures k <= 3 && k <= |s|
    ensures k > 0 ==> !Continuation(s[0])
    ensures k > 0 && IsUtf8(s) ==> CharSize(s) == k
  {
    if s == [] then 0
    else if 0x09 <= s[0] <= 0x0D || s[0] == 0x20 then 1
    else if |s| >= 2 && s[0] == 0xC2 && (s[1] == 0x85 || s[1] == 0xA0) then 2
    else if |s| >= 3 && s[0] == 0xE1 && s[1] == 0x9A && s[2] == 0x80 then 3
    else if |s| >= 3 && s[0] == 0xE2 && s[1] == 0x80
         && (0x80 <= s[2] <= 0x8A || s[2] == 0xA8 || s[2] == 0xA9 || s[2] == 0xAF) then 3
    else if |s| >= 3 && s[0] == 0xE2 && s[1] == 0x81 && s[2] == 0x9F then 3
    else if |s| >= 3 && s[0] == 0xE3 && s[1] == 0x80 && s[2] == 0x80 then 3
    else 0
  }

  function TrimStart(s: seq<byte>): (r: seq<byte>)
    ensures |r| <= |s|
    ensures IsUtf8(s) ==> IsUtf8(r)
  {
    if BlankSize(s) > 0 then TrimStart(s[BlankSize(s)..]) else s
  }

  /** A blank character of `k` octets ends `s`. */
  predicate EndsInBlank(s: seq<byte>, k: nat) {
    k <= |s| && BlankSize(s[|s| - k..]) == k
  }

  /** The size of the blank character at the back of `s`, or 0. */
  function TrailingBlank(s: seq<byte>): (k: nat)
  {
    if EndsInBlank(s, 1) then 1 else if EndsInBlank(s, 2) then 2 else if EndsInBlank(s, 3) then 3 else 0
  }

  lemma TrailingBlankStarts(s: seq<byte>)
    ensures TrailingBlank(s) <= |s|
    ensures TrailingBlank(s) > 0 ==> !Continuation(s[|s| - TrailingBlank(s)])
  {
    hide BlankSize, Continuation;
    var k := TrailingBlank(s);
    if k > 0 {
      assert BlankSize(s[|s| - k..]) == k;
    }
  }

  /** Cutting in front of an octet that starts a character keeps the front well formed. */
  lemma {:induction false} PrefixIsUtf8(s: seq<byte>, k: nat)
    requires k < |s| && !Continuation(s[k]) && IsUtf8(s)
    ensures IsUtf8(s[..k])
  {
    if k > 0 {
      var n := CharSize(s);
      assert n <= k;
      PrefixIsUtf8(s[n..], k - n);
      assert s[n..][..k - n] == s[..k][n..];
      assert CharSize(s[..k]) == n;
    }
  }

  function TrimEnd(s: seq<byte>): (r: seq<byte>)
    ensures |r| <= |s|
    ensures IsUtf8(s) ==> IsUtf8(r)
  {
    var k := TrailingBlank(s);
    TrailingBlankStarts(s);
    if k == 0 then s
    else
      assert IsUtf8(s) ==> IsUtf8(s[..|s| - k]) by {
        if IsUtf8(s) {
          PrefixIsUtf8(s, |s| - k);
        }
      }
      TrimEnd(s[..|s| - k])
  }

  /** The text without the blanks around it. */
  function Trim(s: Utf8String): (r: Utf8String)
    ensures |r| <= |s|
  {
    TrimEnd(TrimStart(s))
  }
}
