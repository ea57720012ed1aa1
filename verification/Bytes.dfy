/** Octets, machine integers and their big- and little-endian forms, shared by every codec. */
module Bytes {
  type byte = b: int | 0 <= b < 0x100
  type u16 = n: int | 0 <= n < 0x1_0000
  type u32 = n: int | 0 <= n < 0x1_0000_0000
  type u64 = n: int | 0 <= n < 0x1_0000_0000_0000_0000
  type i32 = n: int | -0x8000_0000 <= n < 0x8000_0000
  type i64 = n: int | -0x8000_0000_0000_0000 <= n < 0x8000_0000_0000_0000

  type Uuid = u: seq<byte> | |u| == 16 witness [0, 0, 0, 0, 0, 0, 0, 0, 0, 0, 0, 0, 0, 0, 0, 0]

  const U32_MAX: u32 := 0xFFFF_FFFF

  datatype Option<+T> = None | Some(value: T)

  datatype Result<+T, +E> = Ok(value: T) | Err(error: E) {
    predicate IsFailure() {
      Err?
    }

    function PropagateFailure<U>(): Result<U, E>
      requires Err?
    {
      Err(error)
    }

    function Extract(): T
      requires Ok?
    {
      value
    }
  }

  /** Truncating casts. */
  function AsU8(n: int): (r: byte)
  {
    n % 0x100
  }

  function AsU16(n: int): (r: u16)
  {
    n % 0x1_0000
  }

  function AsU32(n: int): (r: u32)
  {
    n % 0x1_0000_0000
  }

  function Min(a: nat, b: nat): (m: nat)
  {
    if a < b then a else b
  }

  function Max(a: nat, b: nat): (m: nat)
  {
    if a < b then b else a
  }

  /** 256 to the power `k`. */
  function Pow256(k: nat): (r: nat)
    ensures r > 0
  {
    if k == 0 then 1 else 256 * Pow256(k - 1)
  }

  lemma Pow256Values()
    ensures Pow256(1) == 0x100 && Pow256(2) == 0x1_0000 && Pow256(4) == 0x1_0000_0000
    ensures Pow256(7) == 0x100_0000_0000_0000 && Pow256(8) == 0x1_0000_0000_0000_0000
  {
    assert Pow256(3) == 0x100_0000;
    assert Pow256(5) == 0x100_0000_0000;
    assert Pow256(6) == 0x1_0000_0000_0000;
  }

  /** The unsigned number that `bs` spells most significant octet first. */
  function BigEndian(bs: seq<byte>): (n: nat)
  {
    if bs == [] then 0 else BigEndian(bs[..|bs| - 1]) * 256 + bs[|bs| - 1]
  }

  /** The low `k` octets of `n`, most significant first. */
  function ToBigEndian(n: nat, k: nat): (bs: seq<byte>)
    ensures |bs| == k
  {
    if k == 0 then [] else ToBigEndian(n / 256, k - 1) + [n % 256]
  }

  /** The unsigned number that `bs` spells least significant octet first. */
  function LittleEndian(bs: seq<byte>): (n: nat)
  {
    if bs == [] then 0 else bs[0] + 256 * LittleEndian(bs[1..])
  }

  /** The low `k` octets of `n`, least significant first. */
  function ToLittleEndian(n: nat, k: nat): (bs: seq<byte>)
    ensures |bs| == k
  {
    if k == 0 then [] else [n % 256] + ToLittleEndian(n / 256, k - 1)
  }

  lemma Regroup<T>(a: seq<T>, b: seq<T>, c: seq<T>)
    ensures (a + b) + c == a + (b + c)
  {
  }

  /** The octets of a 32-bit number, one by one. */
  lemma WordOctets(n: nat)
    requires n < 0x1_0000_0000
    ensures var a, b, c, d := n / 16777216, n / 65536 % 256, n / 256 % 256, n % 256;
            ToBigEndian(n, 4) == [a, b, c, d] && ToLittleEndian(n, 4) == [d, c, b, a]
  {
    var m, k := n / 256, n / 256 / 256;
    assert ToBigEndian(k / 256 / 256, 0) == [];
    assert ToBigEndian(k / 256, 1) == [k / 256];
    assert ToBigEndian(k, 2) == [k / 256, k % 256];
    assert ToBigEndian(m, 3) == [k / 256, k % 256, m % 256];
    assert ToLittleEndian(k / 256, 1) == [k / 256];
    assert ToLittleEndian(k, 2) == [k % 256, k / 256];
    assert ToLittleEndian(m, 3) == [m % 256, k % 256, k / 256];
  }

  /** And of a 16-bit number. */
  lemma HalfOctets(n: nat)
    requires n < 0x1_0000
    ensures ToBigEndian(n, 2) == [n / 256, n % 256] && ToLittleEndian(n, 2) == [n % 256, n / 256]
  {
    assert ToBigEndian(n / 256, 1) == [n / 256] && ToLittleEndian(n / 256, 1) == [n / 256];
  }

  lemma {:induction false} BigEndianBound(bs: seq<byte>)
    ensures BigEndian(bs) < Pow256(|bs|)
  {
    if bs != [] {
      BigEndianBound(bs[..|bs| - 1]);
    }
  }

  lemma {:induction false} BigEndianRoundTrip(n: nat, k: nat)
    requires n < Pow256(k)
    ensures BigEndian(ToBigEndian(n, k)) == n
  {
    if k > 0 {
      BigEndianRoundTrip(n / 256, k - 1);
      var bs := ToBigEndian(n, k);
      assert bs[..k - 1] == ToBigEndian(n / 256, k - 1);
    }
  }

  lemma {:induction false} LittleEndianRoundTrip(n: nat, k: nat)
    requires n < Pow256(k)
    ensures LittleEndian(ToLittleEndian(n, k)) == n
  {
    if k > 0 {
      LittleEndianRoundTrip(n / 256, k - 1);
      assert ToLittleEndian(n, k)[1..] == ToLittleEndian(n / 256, k - 1);
    }
  }

  lemma {:induction false} LittleEndianBound(bs: seq<byte>)
    ensures LittleEndian(bs) < Pow256(|bs|)
  {
    if bs != [] {
      LittleEndianBound(bs[1..]);
    }
  }

  /** The reverse trip: re-encoding what was read gives the same octets back. */
  lemma {:induction false} LittleEndianInverse(bs: seq<byte>)
    ensures ToLittleEndian(LittleEndian(bs), |bs|) == bs
  {
    if bs != [] {
      LittleEndianInverse(bs[1..]);
      assert LittleEndian(bs) / 256 == LittleEndian(bs[1..]);
    }
  }

  /** The concatenation of a sequence of octet strings. */
  function Flatten(parts: seq<seq<byte>>): (bs: seq<byte>)
  {
    if parts == [] then [] else parts[0] + Flatten(parts[1..])
  }

  lemma {:induction false} FlattenAppend(a: seq<seq<byte>>, b: seq<seq<byte>>)
    ensures Flatten(a + b) == Flatten(a) + Flatten(b)
  {
    if a == [] {
      assert a + b == b;
    } else {
      assert (a + b)[1..] == a[1..] + b;
      FlattenAppend(a[1..], b);
    }
  }

  /** A list read so far in front of the verdict on the rest of the list. */
  function Prepend<T, E>(done: seq<T>, r: Result<seq<T>, E>): (all: Result<seq<T>, E>)
  {
    if r.Ok? then Ok(done + r.value) else r
  }

  lemma PrependEnds<T, E>(done: seq<T>, r: Result<seq<T>, E>)
    ensures Prepend([], r) == r
    ensures Prepend<T, E>(done, Ok([])) == Ok(done)
  {
    assert r.Ok? ==> [] + r.value == r.value;
    assert done + [] == done;
  }

  lemma PrependStep<T, E>(done: seq<T>, x: T, r: Result<seq<T>, E>)
    ensures Prepend(done, Prepend([x], r)) == Prepend(done + [x], r)
  {
    if r.Ok? {
      assert done + ([x] + r.value) == (done + [x]) + r.value;
    }
  }

  /** `s` stands in `bytes` at `pos`. */
  predicate At(bytes: seq<byte>, pos: nat, s: seq<byte>) {
    pos + |s| <= |bytes| && bytes[pos..pos + |s|] == s
  }

  lemma AtSplit(bytes: seq<byte>, pos: nat, a: seq<byte>, b: seq<byte>)
    requires At(bytes, pos, a + b)
    ensures At(bytes, pos, a) && At(bytes, pos + |a|, b)
  {
    assert bytes[pos..pos + |a| + |b|][..|a|] == a;
    assert bytes[pos..pos + |a| + |b|][|a|..] == b;
  }

  lemma WholeAt(bytes: seq<byte>, more: seq<byte>)
    ensures At(bytes + more, 0, bytes) && At(bytes, 0, bytes)
  {
    assert (bytes + more)[0..|bytes|] == bytes && bytes[0..|bytes|] == bytes;
  }

  function Zeros(n: nat): (bs: seq<byte>)
    ensures |bs| == n
  {
    seq(n, _ => 0)
  }

  /** Octet-wise lexicographic order. */
  predicate Less(a: seq<byte>, b: seq<byte>) {
    b != [] && (a == [] || a[0] < b[0] || (a[0] == b[0] && Less(a[1..], b[1..])))
  }

  /** The two differ first at `i`, and `a` has the lesser octet there. */
  predicate LowerAt(a: seq<byte>, b: seq<byte>, i: nat) {
    i < |a| && i < |b| && a[..i] == b[..i] && a[i] < b[i]
  }

  ghost predicate LowerFirst(a: seq<byte>, b: seq<byte>) {
    exists i: nat :: LowerAt(a, b, i)
  }

  lemma LowerAtNext(a: seq<byte>, b: seq<byte>, i: nat)
    requires a != [] && b != []
    ensures LowerAt(a, b, 0) <==> a[0] < b[0]
    ensures LowerAt(a, b, i + 1) <==> a[0] == b[0] && LowerAt(a[1..], b[1..], i)
  {
    if i + 1 < |a| && i + 1 < |b| {
      assert a[..i + 1] == [a[0]] + a[1..][..i] && b[..i + 1] == [b[0]] + b[1..][..i];
    }
  }

  /** The order is the lexicographic one: a proper beginning is less, and otherwise the first difference
      decides. */
  lemma {:induction false} LessIs(a: seq<byte>, b: seq<byte>)
    ensures Less(a, b) <==> a < b || LowerFirst(a, b)
  {
    if a != [] && b != [] {
      hide LowerAt;
      var p, q := a[1..], b[1..];
      LessIs(p, q);
      LowerAtNext(a, b, 0);
      assert a == [a[0]] + p && b == [b[0]] + q;
      if LowerFirst(a, b) {
        var i: nat :| LowerAt(a, b, i);
        if i > 0 {
          LowerAtNext(a, b, i - 1);
        }
      }
      if LowerFirst(p, q) {
        var i: nat :| LowerAt(p, q, i);
        LowerAtNext(a, b, i);
      }
    }
  }
}
