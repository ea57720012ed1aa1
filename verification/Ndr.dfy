/** Network Data Representation, little-endian: padding depends on the absolute position, so a writer
    and a reader agree only when they agree on where they stand. */
module Ndr {
  import opened Bytes

  datatype NdrError = ShortRead | BadCount | BadText

  /** One thing written: padding up to a boundary, a little-endian scalar after its own padding, or
      octets as they are. */
  datatype Field =
    | Align(to: nat)
    | U8(octet: byte)
    | U16(half: u16)
    | U32(word: u32)
    | U64(long: u64)
    | Guid(uuid: Uuid)
    | Raw(octets: seq<byte>)

  function Boundary(f: Field): (a: nat)
  {
    match f
    case Align(to) => to
    case U16(_) => 2
    case U32(_) => 4
    case U64(_) => 8
    case _ => 1
  }

  function Payload(f: Field): (bs: seq<byte>)
  {
    match f
    case Align(_) => []
    case U8(b) => [b]
    case U16(n) => ToLittleEndian(n, 2)
    case U32(n) => ToLittleEndian(n, 4)
    case U64(n) => ToLittleEndian(n, 8)
    case Guid(u) => u
    case Raw(bs) => bs
  }

  /** The padding in front of something that starts on a multiple of `to`; 0 and 1 ask for none. */
  function Pad(pos: nat, to: nat): (n: nat)
  {
    if to <= 1 || pos % to == 0 then 0 else to - pos % to
  }

  /** On the boundaries the encoding uses, the padding is the least that reaches a multiple. */
  lemma PadAligns(pos: nat, to: nat)
    requires to == 1 || to == 2 || to == 4 || to == 8
    ensures (pos + Pad(pos, to)) % to == 0 && Pad(pos, to) < to
  {
    if to == 2 {
      PadAlignsTwo(pos);
    } else if to == 4 {
      PadAlignsFour(pos);
    } else if to == 8 {
      PadAlignsEight(pos);
    }
  }

  lemma PadAlignsTwo(pos: nat)
    ensures (pos + Pad(pos, 2)) % 2 == 0 && Pad(pos, 2) < 2
  {
  }

  lemma PadAlignsFour(pos: nat)
    ensures (pos + Pad(pos, 4)) % 4 == 0 && Pad(pos, 4) < 4
  {
  }

  lemma PadAlignsEight(pos: nat)
    ensures (pos + Pad(pos, 8)) % 8 == 0 && Pad(pos, 8) < 8
  {
  }

  /** The octets of a field written at `pos`. */
  function Emit(pos: nat, f: Field): (bs: seq<byte>)
    ensures |bs| == Pad(pos, Boundary(f)) + |Payload(f)|
  {
    Zeros(Pad(pos, Boundary(f))) + Payload(f)
  }

  /** The octets of a list of fields written from `pos` on. */
  function EmitAll(pos: nat, fs: seq<Field>): (bs: seq<byte>)
    decreases |fs|
  {
    if fs == [] then [] else Emit(pos, fs[0]) + EmitAll(pos + |Emit(pos, fs[0])|, fs[1..])
  }

  /** Numbers go least significant octet first, behind zeroes up to their boundary. */
  lemma NumbersOnTheWire(pos: nat, n: u16, m: u32)
    ensures Emit(pos, U16(n)) == Zeros(Pad(pos, 2)) + [n % 256, n / 256]
    ensures Emit(pos, U32(m)) == Zeros(Pad(pos, 4)) + [m % 256, m / 256 % 256, m / 65536 % 256, m / 16777216]
    ensures LittleEndian(Payload(U64(m))) == m && |Payload(U64(m))| == 8
  {
    hide ToLittleEndian, LittleEndian, Pow256;
    HalfOctets(n);
    WordOctets(m);
    Pow256Values();
    LittleEndianRoundTrip(m, 8);
  }

  /** An octet, and a word behind it. */
  lemma OctetThenWord(a: byte, n: u32)
    ensures EmitAll(0, [U8(a), U32(n)]) ==
            [a] + ([0, 0, 0] + [n % 256, n / 256 % 256, n / 65536 % 256, n / 16777216])
  {
    hide Emit;
    var fs := [U8(a), U32(n)];
    OctetAlone(a);
    NumbersOnTheWire(1, 0, n);
    assert Zeros(Pad(1, 4)) == [0, 0, 0];
    assert fs[1..] == [U32(n)] && fs[1..][1..] == [];
    assert EmitAll(1, fs[1..]) == Emit(1, U32(n)) + [] == Emit(1, U32(n));
  }

  lemma OctetAlone(a: byte)
    ensures Emit(0, U8(a)) == [a]
  {
  }

  /** Where the writer stands after a list of fields. */
  function End(pos: nat, fs: seq<Field>): (p: nat)
    ensures p >= pos
  {
    pos + |EmitAll(pos, fs)|
  }

  lemma EmitCons(pos: nat, f: Field, rest: seq<Field>)
    ensures EmitAll(pos, [f] + rest) == Emit(pos, f) + EmitAll(pos + |Emit(pos, f)|, rest)
    ensures End(pos, [f] + rest) == End(pos + |Emit(pos, f)|, rest)
  {
    hide Emit;
    assert ([f] + rest)[1..] == rest;
  }

  lemma {:induction false} EmitAppend(pos: nat, a: seq<Field>, b: seq<Field>)
    ensures EmitAll(pos, a + b) == EmitAll(pos, a) + EmitAll(End(pos, a), b)
    ensures End(pos, a + b) == End(End(pos, a), b)
    decreases |a|
  {
    hide Emit, EmitAll;
    if a == [] {
      EmitNothing(pos);
      assert a + b == b && [] + EmitAll(pos, b) == EmitAll(pos, b);
    } else {
      var f, rest := a[0], a[1..];
      var p := pos + |Emit(pos, f)|;
      EmitAppend(p, rest, b);
      EmitCons(pos, f, rest);
      EmitCons(pos, f, rest + b);
      assert a == [f] + rest && a + b == [f] + (rest + b);
      var front, back := EmitAll(p, rest), EmitAll(End(pos, a), b);
      assert Emit(pos, f) + (front + back) == (Emit(pos, f) + front) + back;
    }
  }

  lemma EmitNothing(pos: nat)
    ensures EmitAll(pos, []) == []
  {
  }

  lemma EmitOne(pos: nat, f: Field)
    ensures EmitAll(pos, [f]) == Emit(pos, f)
  {
    hide Emit;
    assert [f][1..] == [] && Emit(pos, f) + [] == Emit(pos, f);
  }

  // ---- Reading ----

  type Read<T> = Result<(T, nat), NdrError>

  /** Moves up to a boundary; the padding must be there, whatever it holds. */
  function SkipTo(buf: seq<byte>, pos: nat, to: nat): (r: Result<nat, NdrError>)
    ensures r.Ok? ==> r.value >= pos
  {
    if pos + Pad(pos, to) > |buf| && Pad(pos, to) > 0 then Err(ShortRead) else Ok(pos + Pad(pos, to))
  }

  function Take(buf: seq<byte>, pos: nat, n: nat): (r: Read<seq<byte>>)
    ensures r.Ok? ==> |r.value.0| == n && r.value.1 == pos + n
  {
    if pos + n > |buf| then Err(ShortRead) else Ok((buf[pos..pos + n], pos + n))
  }

  /** A little-endian number of `size` octets on its natural boundary. */
  function Number(buf: seq<byte>, pos: nat, size: nat): (r: Read<nat>)
    ensures r.Ok? ==> r.value.0 < Pow256(size) && r.value.1 >= pos
  {
    var p :- SkipTo(buf, pos, size);
    var (bs, p) :- Take(buf, p, size);
    LittleEndianBound(bs);
    Ok((LittleEndian(bs), p))
  }

  function ReadU8(buf: seq<byte>, pos: nat): (r: Read<byte>)
    ensures r.Ok? ==> r.value.1 >= pos
  {
    var (bs, p) :- Take(buf, pos, 1);
    Ok((bs[0], p))
  }

  function ReadU16(buf: seq<byte>, pos: nat): (r: Read<u16>)
    ensures r.Ok? ==> r.value.1 >= pos
  {
    Pow256Values();
    var (n, p) :- Number(buf, pos, 2);
    Ok((n, p))
  }

  function ReadU32(buf: seq<byte>, pos: nat): (r: Read<u32>)
    ensures r.Ok? ==> r.value.1 >= pos
  {
    Pow256Values();
    var (n, p) :- Number(buf, pos, 4);
    Ok((n, p))
  }

  function ReadU64(buf: seq<byte>, pos: nat): (r: Read<u64>)
    ensures r.Ok? ==> r.value.1 >= pos
  {
    Pow256Values();
    var (n, p) :- Number(buf, pos, 8);
    Ok((n, p))
  }

  function ReadUuid(buf: seq<byte>, pos: nat): (r: Read<Uuid>)
    ensures r.Ok? ==> r.value.1 >= pos
  {
    var (bs, p) :- Take(buf, pos, 16);
    Ok((bs, p))
  }

  datatype Kind = AlignKind(to: nat) | U8Kind | U16Kind | U32Kind | U64Kind | GuidKind | RawKind(size: nat)

  function KindOf(f: Field): (k: Kind)
  {
    match f
    case Align(to) => AlignKind(to)
    case U8(_) => U8Kind
    case U16(_) => U16Kind
    case U32(_) => U32Kind
    case U64(_) => U64Kind
    case Guid(_) => GuidKind
    case Raw(bs) => RawKind(|bs|)
  }

  /** Reads one thing of the given kind. */
  function ReadField(buf: seq<byte>, pos: nat, k: Kind): (r: Read<Field>)
  {
    match k
    case AlignKind(to) =>
      var p :- SkipTo(buf, pos, to);
      Ok((Align(to), p))
    case U8Kind =>
      var (n, p) :- ReadU8(buf, pos);
      Ok((U8(n), p))
    case U16Kind =>
      var (n, p) :- ReadU16(buf, pos);
      Ok((U16(n), p))
    case U32Kind =>
      var (n, p) :- ReadU32(buf, pos);
      Ok((U32(n), p))
    case U64Kind =>
      var (n, p) :- ReadU64(buf, pos);
      Ok((U64(n), p))
    case GuidKind =>
      var (u, p) :- ReadUuid(buf, pos);
      Ok((Guid(u), p))
    case RawKind(size) =>
      var (bs, p) :- Take(buf, pos, size);
      Ok((Raw(bs), p))
  }

  function ReadFields(buf: seq<byte>, pos: nat, ks: seq<Kind>): (r: Read<seq<Field>>)
    decreases |ks|
  {
    if ks == [] then Ok(([], pos))
    else
      var (f, p) :- ReadField(buf, pos, ks[0]);
      var (fs, p) :- ReadFields(buf, p, ks[1..]);
      Ok(([f] + fs, p))
  }

  // ---- The position-indexed round trip ----

  lemma NumberReadsBack(buf: seq<byte>, pos: nat, n: nat, size: nat)
    requires n < Pow256(size)
    requires At(buf, pos, Zeros(Pad(pos, size)) + ToLittleEndian(n, size))
    ensures Number(buf, pos, size) == Ok((n, pos + Pad(pos, size) + size))
  {
    AtSplit(buf, pos, Zeros(Pad(pos, size)), ToLittleEndian(n, size));
    LittleEndianRoundTrip(n, size);
  }

  lemma FieldReadsBack(buf: seq<byte>, pos: nat, f: Field)
    requires At(buf, pos, Emit(pos, f))
    ensures ReadField(buf, pos, KindOf(f)) == Ok((f, pos + |Emit(pos, f)|))
  {
    hide Number, Pad, Pow256, ToLittleEndian, LittleEndian;
    Pow256Values();
    AtSplit(buf, pos, Zeros(Pad(pos, Boundary(f))), Payload(f));
    match f
    case U16(n) => NumberReadsBack(buf, pos, n, 2);
    case U32(n) => NumberReadsBack(buf, pos, n, 4);
    case U64(n) => NumberReadsBack(buf, pos, n, 8);
    case Align(_) =>
    case _ => NoPad(pos);
  }

  lemma NoPad(pos: nat)
    ensures Pad(pos, 1) == 0
  {
  }

  function KindsOf(fs: seq<Field>): (ks: seq<Kind>)
    ensures |ks| == |fs|
  {
    seq(|fs|, i requires 0 <= i < |fs| => KindOf(fs[i]))
  }

  /** Whatever is written from any offset, in any surrounding buffer, reading the same kinds from that
      offset returns the same values and leaves the reader where the writer stood. */
  lemma {:induction false} FieldsReadBack(buf: seq<byte>, pos: nat, fs: seq<Field>)
    requires At(buf, pos, EmitAll(pos, fs))
    ensures ReadFields(buf, pos, KindsOf(fs)) == Ok((fs, End(pos, fs)))
    decreases |fs|
  {
    hide ReadField, Emit, EmitAll, At, KindOf;
    if fs == [] {
      EndOfNothing(pos);
    } else {
      assert fs == [fs[0]] + fs[1..];
      var p := Step(buf, pos, fs[0], fs[1..]);
      FieldsReadBack(buf, p, fs[1..]);
      assert KindsOf(fs)[1..] == KindsOf(fs[1..]);
    }
  }

  /** One step of a structured reader. */
  lemma Step(buf: seq<byte>, pos: nat, f: Field, rest: seq<Field>) returns (p: nat)
    requires At(buf, pos, EmitAll(pos, [f] + rest))
    ensures p == pos + |Emit(pos, f)| && At(buf, p, EmitAll(p, rest))
    ensures ReadField(buf, pos, KindOf(f)) == Ok((f, p))
    ensures End(pos, [f] + rest) == End(p, rest)
    ensures f.U32? || f == Align(4) ==> p % 4 == 0
  {
    hide ReadField, Emit, EmitAll, At;
    p := pos + |Emit(pos, f)|;
    EmitCons(pos, f, rest);
    AtSplit(buf, pos, Emit(pos, f), EmitAll(p, rest));
    FieldReadsBack(buf, pos, f);
    if f.U32? || f == Align(4) {
      WordEnds(pos, f);
    }
  }

  lemma WordEnds(pos: nat, f: Field)
    requires f.U32? || f == Align(4)
    ensures (pos + |Emit(pos, f)|) % 4 == 0
  {
    hide Pad;
    PadAligns(pos, 4);
  }

  lemma Adjoined(buf: seq<byte>, pos: nat, a: seq<byte>, b: seq<byte>)
    requires Take(buf, pos, |a|) == Ok((a, pos + |a|)) && Take(buf, pos + |a|, |b|) == Ok((b, pos + |a| + |b|))
    ensures Take(buf, pos, |a| + |b|) == Ok((a + b, pos + |a| + |b|))
  {
    assert buf[pos..pos + |a| + |b|] == buf[pos..pos + |a|] + buf[pos + |a|..pos + |a| + |b|];
  }

  lemma OctetTaken(buf: seq<byte>, pos: nat)
    ensures ReadU8(buf, pos).Ok? ==> Take(buf, pos, 1) == Ok(([ReadU8(buf, pos).value.0], pos + 1))
  {
    if pos + 1 <= |buf| {
      assert buf[pos..pos + 1] == [buf[pos]];
    }
  }

  /** The parts of a composite structure stand one after the other. */
  lemma SplitParts(buf: seq<byte>, pos: nat, a: seq<Field>, b: seq<Field>)
    requires At(buf, pos, EmitAll(pos, a + b))
    ensures At(buf, pos, EmitAll(pos, a)) && At(buf, End(pos, a), EmitAll(End(pos, a), b))
    ensures End(pos, a + b) == End(End(pos, a), b)
  {
    hide EmitAll;
    EmitAppend(pos, a, b);
    AtSplit(buf, pos, EmitAll(pos, a), EmitAll(End(pos, a), b));
  }

  // ---- Conformant arrays ----

  function ArrayFields(data: seq<byte>): (fs: seq<Field>)
  {
    [U32(AsU32(|data|))] + ([U32(0)] + ([U32(AsU32(|data|))] + ([Raw(data)] + [])))
  }

  function ReadArray(buf: seq<byte>, pos: nat): (r: Read<seq<byte>>)
  {
    var (max, p) :- ReadU32(buf, pos);
    var (_, p) :- ReadU32(buf, p);
    var (actual, p) :- ReadU32(buf, p);
    if actual > max then Err(BadCount) else Take(buf, p, actual)
  }

  /** A conformant array comes back exactly when its count fits 32 bits. */
  lemma ArrayReadsBack(buf: seq<byte>, pos: nat, data: seq<byte>)
    requires At(buf, pos, EmitAll(pos, ArrayFields(data)))
    ensures ReadArray(buf, pos) == Ok((data, End(pos, ArrayFields(data)))) <==> |data| < 0x1_0000_0000
  {
    hide EmitAll, Emit, ReadU32, Take;
    if |data| < 0x1_0000_0000 {
      var n, d := U32(|data|), [Raw(data)] + [];
      var p1 := Step(buf, pos, n, [U32(0)] + ([n] + d));
      var p2 := Step(buf, p1, U32(0), [n] + d);
      var p3 := Step(buf, p2, n, d);
      var p4 := Step(buf, p3, Raw(data), []);
      EndOfNothing(p4);
    }
  }

  lemma EndOfNothing(pos: nat)
    ensures End(pos, []) == pos
  {
  }

  // ---- Counted lists ----

  /** A list written element after element. */
  function ListFields<T>(fields: T -> seq<Field>, xs: seq<T>): (fs: seq<Field>)
  {
    if xs == [] then [] else ListFields(fields, xs[..|xs| - 1]) + fields(xs[|xs| - 1])
  }

  /** `n` elements read one after the other. */
  function ListAt<T>(at: (seq<byte>, nat) -> Read<T>, n: nat, buf: seq<byte>, pos: nat): (r: Read<seq<T>>)
    ensures r.Ok? ==> |r.value.0| == n
    decreases n
  {
    if n == 0 then Ok(([], pos))
    else
      var (xs, p) :- ListAt(at, n - 1, buf, pos);
      var (x, p) :- at(buf, p);
      Ok((xs + [x], p))
  }

  lemma {:induction false} ListReadsBack<T>(fields: T -> seq<Field>, at: (seq<byte>, nat) -> Read<T>,
                                            buf: seq<byte>, pos: nat, xs: seq<T>)
    requires At(buf, pos, EmitAll(pos, ListFields(fields, xs)))
    requires forall x, p: nat | x in xs && At(buf, p, EmitAll(p, fields(x))) ::
               at(buf, p) == Ok((x, End(p, fields(x))))
    ensures ListAt(at, |xs|, buf, pos) == Ok((xs, End(pos, ListFields(fields, xs))))
    decreases |xs|
  {
    hide EmitAll, At;
    if xs == [] {
      EndOfNothing(pos);
    } else {
      var init, x := xs[..|xs| - 1], xs[|xs| - 1];
      assert xs == init + [x];
      SplitParts(buf, pos, ListFields(fields, init), fields(x));
      ListReadsBack(fields, at, buf, pos, init);
    }
  }

  /** A failed element fails the list, with its own error. */
  lemma {:induction false} ListAtFails<T>(at: (seq<byte>, nat) -> Read<T>, k: nat, n: nat, buf: seq<byte>, pos: nat)
    requires k <= n && ListAt(at, k, buf, pos).Err?
    ensures ListAt(at, n, buf, pos).Err? && ListAt(at, n, buf, pos).error == ListAt(at, k, buf, pos).error
    decreases n - k
  {
    if k < n {
      ListAtFails(at, k, n - 1, buf, pos);
    }
  }

  lemma {:induction false} ListAtEach<T(!new)>(at: (seq<byte>, nat) -> Read<T>, good: T -> bool,
                                               n: nat, buf: seq<byte>, pos: nat)
    requires forall p: nat :: at(buf, p).Ok? ==> good(at(buf, p).value.0)
    ensures ListAt(at, n, buf, pos).Ok? ==> forall x | x in ListAt(at, n, buf, pos).value.0 :: good(x)
    decreases n
  {
    if n > 0 {
      ListAtEach(at, good, n - 1, buf, pos);
    }
  }

  lemma ListGrows<T>(fields: T -> seq<Field>, xs: seq<T>, i: nat)
    requires i < |xs|
    ensures ListFields(fields, xs[..i + 1]) == ListFields(fields, xs[..i]) + fields(xs[i])
  {
    assert xs[..i + 1][..i] == xs[..i];
  }

  // ---- The imperative writer and reader ----

  /** An append-only buffer. The ghost record of what was written determines every octet of it. */
  class NdrWriter {
    var buf: seq<byte>
    ghost var fields: seq<Field>

    ghost predicate Valid()
      reads this
    {
      buf == EmitAll(0, fields)
    }

    constructor ()
      ensures Valid() && fields == [] && buf == []
    {
      buf, fields := [], [];
    }

    /** Pads with zero octets up to a multiple of `to`, then appends the payload. */
    method Write(to: nat, f: Field)
      requires Valid() && to == Boundary(f)
      modifies this
      ensures Valid() && fields == old(fields) + [f]
      ensures buf == old(buf) + Emit(|old(buf)|, f)
    {
      hide EmitAll, Payload, Boundary;
      var before := buf;
      if to > 1 && |buf| % to != 0 {
        buf := buf + Zeros(to - |buf| % to);
      }
      buf := buf + Payload(f);
      assert buf == before + (Zeros(Pad(|before|, to)) + Payload(f));
      EmitAppend(0, fields, [f]);
      EmitOne(|before|, f);
      fields := fields + [f];
    }

    method AlignTo(to: nat)
      requires Valid()
      modifies this
      ensures Valid() && fields == old(fields) + [Align(to)]
    {
      Write(to, Align(to));
    }

    method WriteBytes(bytes: seq<byte>)
      requires Valid()
      modifies this
      ensures Valid() && fields == old(fields) + [Raw(bytes)]
    {
      Write(1, Raw(bytes));
    }

    method WriteU8(n: byte)
      requires Valid()
      modifies this
      ensures Valid() && fields == old(fields) + [U8(n)]
    {
      Write(1, U8(n));
    }

    method WriteU32(n: u32)
      requires Valid()
      modifies this
      ensures Valid() && fields == old(fields) + [U32(n)]
    {
      Write(4, U32(n));
    }

    method WriteU64(n: u64)
      requires Valid()
      modifies this
      ensures Valid() && fields == old(fields) + [U64(n)]
    {
      Write(8, U64(n));
    }

    method WriteUuid(u: Uuid)
      requires Valid()
      modifies this
      ensures Valid() && fields == old(fields) + [Guid(u)]
    {
      Write(1, Guid(u));
    }
  }

  /** A read through the cursor has the outcome and the end position the specification gives. */
  predicate Agrees<T(==)>(spec: Read<T>, got: Result<T, NdrError>, pos: nat) {
    match spec
    case Ok((x, p)) => got == Ok(x) && pos == p
    case Err(e) => got == Err(e)
  }

  /** A cursor over a buffer. A failed read leaves the cursor where it was or at the boundary reached. */
  class NdrReader {
    const buf: seq<byte>
    var pos: nat

    constructor (buf: seq<byte>)
      ensures this.buf == buf && pos == 0
    {
      this.buf, pos := buf, 0;
    }

    method AlignTo(to: nat) returns (r: Result<(), NdrError>)
      modifies this
      ensures match SkipTo(buf, old(pos), to) case Ok(p) => r == Ok(()) && pos == p case Err(e) => r == Err(e)
    {
      if to > 1 && pos % to != 0 {
        var pad := to - pos % to;
        if pos + pad > |buf| {
          return Err(ShortRead);
        }
        pos := pos + pad;
      }
      r := Ok(());
    }

    method ReadBytes(n: nat) returns (r: Result<seq<byte>, NdrError>)
      modifies this
      ensures Agrees(Take(buf, old(pos), n), r, pos)
    {
      if pos + n > |buf| {
        return Err(ShortRead);
      }
      r := Ok(buf[pos..pos + n]);
      pos := pos + n;
    }

    method ReadNumber(size: nat) returns (r: Result<nat, NdrError>)
      modifies this
      ensures Agrees(Number(buf, old(pos), size), r, pos)
    {
      var _ :- AlignTo(size);
      var bs :- ReadBytes(size);
      r := Ok(LittleEndian(bs));
    }

    method ReadHalf() returns (r: Result<u16, NdrError>)
      modifies this
      ensures Agrees(ReadU16(buf, old(pos)), r, pos)
    {
      Pow256Values();
      var n :- ReadNumber(2);
      r := Ok(n);
    }

    method ReadWord() returns (r: Result<u32, NdrError>)
      modifies this
      ensures Agrees(ReadU32(buf, old(pos)), r, pos)
    {
      Pow256Values();
      var n :- ReadNumber(4);
      r := Ok(n);
    }

    method ReadLong() returns (r: Result<u64, NdrError>)
      modifies this
      ensures Agrees(ReadU64(buf, old(pos)), r, pos)
    {
      Pow256Values();
      var n :- ReadNumber(8);
      r := Ok(n);
    }

    method ReadGuid() returns (r: Result<Uuid, NdrError>)
      modifies this
      ensures Agrees(ReadUuid(buf, old(pos)), r, pos)
    {
      var bs :- ReadBytes(16);
      r := Ok(bs);
    }

    method ReadOctet() returns (r: Result<byte, NdrError>)
      modifies this
      ensures Agrees(ReadU8(buf, old(pos)), r, pos)
    {
      var bs :- ReadBytes(1);
      r := Ok(bs[0]);
    }
  }
}
