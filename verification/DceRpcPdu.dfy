/** Connection-oriented DCE/RPC protocol data units: Bind, Bind_ack and Request, their fragment length,
    and the framing of a stream of them. */
module DceRpcPdu {
  import opened Bytes
  import opened Ndr
  import opened Utf8

  const PTYPE_REQUEST: byte := 0
  const PTYPE_BIND: byte := 11
  const PTYPE_BIND_ACK: byte := 12
  const COMMON_HEADER_SIZE: nat := 16
  const FRAG_LENGTH_AT: nat := 8

  datatype Header = Header(version: byte, minor: byte, flags: byte, dataRep: u32, callId: u32)

  datatype Sizes = Sizes(maxXmit: u16, maxRecv: u16, group: u32)

  datatype Syntax = Syntax(uuid: Uuid, version: u32)

  datatype Context = Context(id: u16, uuid: Uuid, major: u16, minor: u16, transfers: seq<Syntax>)

  datatype Bind = Bind(header: Header, sizes: Sizes, contexts: seq<Context>)

  datatype Outcome = Outcome(result: u16, reason: u16, syntax: Syntax)

  datatype BindAck = BindAck(header: Header, sizes: Sizes, secAddr: Utf8String, outcomes: seq<Outcome>)

  // ---- Scalars without alignment ----

  /** A little-endian scalar written wherever the writer stands. */
  function Le(n: nat, k: nat): (f: Field)
  {
    Raw(ToLittleEndian(n, k))
  }

  function LeAt(buf: seq<byte>, pos: nat, k: nat): (r: Read<nat>)
    ensures r.Ok? ==> r.value.0 < Pow256(k) && r.value.1 == pos + k
  {
    var (bs, p) :- Take(buf, pos, k);
    LittleEndianBound(bs);
    Ok((LittleEndian(bs), p))
  }

  function Le16At(buf: seq<byte>, pos: nat): (r: Read<u16>)
  {
    Pow256Values();
    var (n, p) :- LeAt(buf, pos, 2);
    Ok((n, p))
  }

  function Le32At(buf: seq<byte>, pos: nat): (r: Read<u32>)
  {
    Pow256Values();
    var (n, p) :- LeAt(buf, pos, 4);
    Ok((n, p))
  }

  predicate Even(n: nat) {
    n % 2 == 0
  }

  lemma EvenTwice(k: nat)
    ensures Even(2 * k)
  {
  }

  lemma EvenFour(n: nat)
    requires n % 4 == 0
    ensures Even(n)
  {
    hide Even;
    EvenTwice(2 * (n / 4));
  }

  lemma EvenAfter(n: nat, k: nat)
    requires Even(n)
    ensures Even(n + 24 * k)
  {
    assert n == 2 * (n / 2);
    hide Even;
    EvenTwice(n / 2 + 12 * k);
  }

  /** A 16-bit length is kept exactly when it fits. */
  lemma CutWhen(n: nat)
    ensures AsU16(n) == n <==> n < 0x1_0000
  {
  }

  lemma StepLe(buf: seq<byte>, pos: nat, n: nat, k: nat, rest: seq<Field>) returns (p: nat)
    requires At(buf, pos, EmitAll(pos, [Le(n, k)] + rest)) && n < Pow256(k)
    ensures p == pos + k && At(buf, p, EmitAll(p, rest)) && LeAt(buf, pos, k) == Ok((n, p))
    ensures End(pos, [Le(n, k)] + rest) == End(p, rest)
  {
    hide EmitAll, At;
    p := Step(buf, pos, Le(n, k), rest);
    NoPad(pos);
    LittleEndianRoundTrip(n, k);
  }

  lemma Step16(buf: seq<byte>, pos: nat, n: u16, rest: seq<Field>) returns (p: nat)
    requires At(buf, pos, EmitAll(pos, [Le(n, 2)] + rest))
    ensures p == pos + 2 && At(buf, p, EmitAll(p, rest)) && Le16At(buf, pos) == Ok((n, p))
    ensures End(pos, [Le(n, 2)] + rest) == End(p, rest)
    ensures Even(pos) ==> Even(p) && ReadU16(buf, pos) == Ok((n, p))
  {
    hide EmitAll, At, Pow256;
    Pow256Values();
    p := StepLe(buf, pos, n, 2, rest);
  }

  lemma Step32(buf: seq<byte>, pos: nat, n: u32, rest: seq<Field>) returns (p: nat)
    requires At(buf, pos, EmitAll(pos, [Le(n, 4)] + rest))
    ensures p == pos + 4 && At(buf, p, EmitAll(p, rest)) && Le32At(buf, pos) == Ok((n, p))
    ensures End(pos, [Le(n, 4)] + rest) == End(p, rest)
  {
    hide EmitAll, At, Pow256;
    Pow256Values();
    p := StepLe(buf, pos, n, 4, rest);
  }

  lemma Step8(buf: seq<byte>, pos: nat, n: byte, rest: seq<Field>) returns (p: nat)
    requires At(buf, pos, EmitAll(pos, [U8(n)] + rest))
    ensures p == pos + 1 && At(buf, p, EmitAll(p, rest)) && ReadU8(buf, pos) == Ok((n, p))
    ensures End(pos, [U8(n)] + rest) == End(p, rest)
  {
    hide EmitAll, At;
    p := Step(buf, pos, U8(n), rest);
    NoPad(pos);
  }

  lemma StepGuid(buf: seq<byte>, pos: nat, u: Uuid, rest: seq<Field>) returns (p: nat)
    requires At(buf, pos, EmitAll(pos, [Guid(u)] + rest))
    ensures p == pos + 16 && At(buf, p, EmitAll(p, rest)) && ReadUuid(buf, pos) == Ok((u, p))
    ensures End(pos, [Guid(u)] + rest) == End(p, rest)
  {
    hide EmitAll, At;
    p := Step(buf, pos, Guid(u), rest);
    NoPad(pos);
  }

  // ---- The common header ----

  function HeaderFields(h: Header, ptype: byte, frag: u16): (fs: seq<Field>)
  {
    [U8(h.version)] + ([U8(h.minor)] + ([U8(ptype)] + ([U8(h.flags)] + ([Le(h.dataRep, 4)] +
    ([Le(frag, 2)] + ([Le(0, 2)] + ([Le(h.callId, 4)] + [])))))))
  }

  /** The header of a PDU of the expected type, with its fragment length. */
  function HeaderAt(buf: seq<byte>, ptype: byte): (r: Read<(Header, u16)>)
  {
    var (version, p) :- ReadU8(buf, 0);
    var (minor, p) :- ReadU8(buf, p);
    var (t, p) :- ReadU8(buf, p);
    if t != ptype then Err(BadCount)
    else
      var (flags, p) :- ReadU8(buf, p);
      var (dataRep, p) :- Le32At(buf, p);
      var (frag, p) :- Le16At(buf, p);
      var (_, p) :- Le16At(buf, p);
      var (callId, p) :- Le32At(buf, p);
      Ok(((Header(version, minor, flags, dataRep, callId), frag), p))
  }

  /** Where the fields of a header stand. */
  predicate HeaderLaidOut(buf: seq<byte>, h: Header, ptype: byte, frag: u16) {
    && ReadU8(buf, 0) == Ok((h.version, 1)) && ReadU8(buf, 1) == Ok((h.minor, 2))
    && ReadU8(buf, 2) == Ok((ptype, 3)) && ReadU8(buf, 3) == Ok((h.flags, 4))
    && Le32At(buf, 4) == Ok((h.dataRep, 8)) && Le16At(buf, 8) == Ok((frag, 10))
    && Le16At(buf, 10) == Ok((0, 12)) && Le32At(buf, 12) == Ok((h.callId, 16))
  }

  lemma HeaderLayout(buf: seq<byte>, h: Header, ptype: byte, frag: u16)
    requires At(buf, 0, EmitAll(0, HeaderFields(h, ptype, frag)))
    ensures HeaderLaidOut(buf, h, ptype, frag) && End(0, HeaderFields(h, ptype, frag)) == COMMON_HEADER_SIZE
  {
    hide EmitAll, At, Emit, ReadU8, Le16At, Le32At, Le;
    var f7 := [Le(h.callId, 4)] + [];
    var f6 := [Le(0, 2)] + f7;
    var f5 := [Le(frag, 2)] + f6;
    var f4 := [Le(h.dataRep, 4)] + f5;
    var f3 := [U8(h.flags)] + f4;
    var f2 := [U8(ptype)] + f3;
    var p1 := Step8(buf, 0, h.version, [U8(h.minor)] + f2);
    var p2 := Step8(buf, p1, h.minor, f2);
    var p3 := Step8(buf, p2, ptype, f3);
    var p4 := Step8(buf, p3, h.flags, f4);
    var p5 := Step32(buf, p4, h.dataRep, f5);
    var p6 := Step16(buf, p5, frag, f6);
    var p7 := Step16(buf, p6, 0, f7);
    var p8 := Step32(buf, p7, h.callId, []);
    EndOfNothing(p8);
  }

  lemma HeaderReadsBack(buf: seq<byte>, h: Header, ptype: byte, frag: u16)
    requires At(buf, 0, EmitAll(0, HeaderFields(h, ptype, frag)))
    ensures HeaderAt(buf, ptype) == Ok(((h, frag), COMMON_HEADER_SIZE)) && HeaderLaidOut(buf, h, ptype, frag)
    ensures End(0, HeaderFields(h, ptype, frag)) == COMMON_HEADER_SIZE
    ensures LittleEndian(buf[8..10]) == frag
  {
    hide EmitAll, At, ReadU8, Le16At, Le32At, HeaderFields;
    HeaderLayout(buf, h, ptype, frag);
    FragIs(buf, frag);
  }

  lemma FragIs(buf: seq<byte>, frag: u16)
    requires Le16At(buf, 8) == Ok((frag, 10))
    ensures |buf| >= 10 && LittleEndian(buf[8..10]) == frag
  {
  }

  function SizesFields(s: Sizes): (fs: seq<Field>)
  {
    [Le(s.maxXmit, 2)] + ([Le(s.maxRecv, 2)] + ([Le(s.group, 4)] + []))
  }

  function SizesAt(buf: seq<byte>, pos: nat): (r: Read<Sizes>)
  {
    var (maxXmit, p) :- Le16At(buf, pos);
    var (maxRecv, p) :- Le16At(buf, p);
    var (group, p) :- Le32At(buf, p);
    Ok((Sizes(maxXmit, maxRecv, group), p))
  }

  lemma SizesReadBack(buf: seq<byte>, pos: nat, s: Sizes)
    requires At(buf, pos, EmitAll(pos, SizesFields(s)))
    ensures SizesAt(buf, pos) == Ok((s, pos + 8)) && End(pos, SizesFields(s)) == pos + 8
    ensures Le16At(buf, pos) == Ok((s.maxXmit, pos + 2)) && Le16At(buf, pos + 2) == Ok((s.maxRecv, pos + 4))
    ensures Le32At(buf, pos + 4) == Ok((s.group, pos + 8))
  {
    hide EmitAll, At, Emit, Le16At, Le32At, Le;
    var f2 := [Le(s.group, 4)] + [];
    var p1 := Step16(buf, pos, s.maxXmit, [Le(s.maxRecv, 2)] + f2);
    var p2 := Step16(buf, p1, s.maxRecv, f2);
    var p3 := Step32(buf, p2, s.group, []);
    EndOfNothing(p3);
  }

  // ---- Bind ----

  function SyntaxFields(s: Syntax): (fs: seq<Field>)
  {
    [Guid(s.uuid)] + ([Le(s.version, 4)] + [])
  }

  function SyntaxAt(buf: seq<byte>, pos: nat): (r: Read<Syntax>)
  {
    var (uuid, p) :- ReadUuid(buf, pos);
    var (version, p) :- Le32At(buf, p);
    Ok((Syntax(uuid, version), p))
  }

  lemma SyntaxReadsBack(buf: seq<byte>, pos: nat, s: Syntax)
    requires At(buf, pos, EmitAll(pos, SyntaxFields(s)))
    ensures SyntaxAt(buf, pos) == Ok((s, pos + 20)) && End(pos, SyntaxFields(s)) == pos + 20
  {
    hide EmitAll, At, Emit, ReadUuid, Le32At, Le;
    var p1 := StepGuid(buf, pos, s.uuid, [Le(s.version, 4)] + []);
    var p2 := Step32(buf, p1, s.version, []);
    EndOfNothing(p2);
  }

  /** The interface version, major number in the upper half. */
  function VersionOf(c: Context): (n: u32)
  {
    var major: int := c.major;
    major * 0x1_0000 + c.minor
  }

  function ContextFields(c: Context): (fs: seq<Field>)
  {
    [Le(c.id, 2)] + ([U8(AsU8(|c.transfers|))] + ([U8(0)] + ([Guid(c.uuid)] + ([Le(VersionOf(c), 4)] +
    ListFields(SyntaxFields, c.transfers)))))
  }

  function ContextAt(buf: seq<byte>, pos: nat): (r: Read<Context>)
    ensures r.Ok? ==> |r.value.0.transfers| < 256
  {
    var (id, p) :- Le16At(buf, pos);
    var (n, p) :- ReadU8(buf, p);
    var (_, p) :- ReadU8(buf, p);
    var (uuid, p) :- ReadUuid(buf, p);
    var (version, p) :- Le32At(buf, p);
    var (transfers, p) :- ListAt(SyntaxAt, n, buf, p);
    Ok((Context(id, uuid, version / 0x1_0000, version % 0x1_0000, transfers), p))
  }

  lemma SyntaxesReadBack(buf: seq<byte>, pos: nat, xs: seq<Syntax>)
    requires At(buf, pos, EmitAll(pos, ListFields(SyntaxFields, xs)))
    ensures ListAt(SyntaxAt, |xs|, buf, pos) == Ok((xs, End(pos, ListFields(SyntaxFields, xs))))
  {
    hide EmitAll, At, ListAt, ListFields, SyntaxAt, SyntaxFields;
    forall x, p: nat | x in xs && At(buf, p, EmitAll(p, SyntaxFields(x)))
      ensures SyntaxAt(buf, p) == Ok((x, End(p, SyntaxFields(x))))
    {
      SyntaxReadsBack(buf, p, x);
    }
    ListReadsBack(SyntaxFields, SyntaxAt, buf, pos, xs);
  }

  lemma ContextReadsBack(buf: seq<byte>, pos: nat, c: Context)
    requires At(buf, pos, EmitAll(pos, ContextFields(c))) && |c.transfers| < 256
    ensures ContextAt(buf, pos) == Ok((c, End(pos, ContextFields(c))))
  {
    hide EmitAll, At, Emit, ReadU8, ReadUuid, Le16At, Le32At, Le, ListAt, ListFields;
    var f5 := ListFields(SyntaxFields, c.transfers);
    var f4 := [Le(VersionOf(c), 4)] + f5;
    var f3 := [Guid(c.uuid)] + f4;
    var f2 := [U8(0)] + f3;
    var p1 := Step16(buf, pos, c.id, [U8(AsU8(|c.transfers|))] + f2);
    var p2 := Step8(buf, p1, |c.transfers|, f2);
    var p3 := Step8(buf, p2, 0, f3);
    var p4 := StepGuid(buf, p3, c.uuid, f4);
    var p5 := Step32(buf, p4, VersionOf(c), f5);
    SyntaxesReadBack(buf, p5, c.transfers);
    assert VersionOf(c) / 0x1_0000 == c.major && VersionOf(c) % 0x1_0000 == c.minor;
  }

  function ContextsFields(contexts: seq<Context>): (fs: seq<Field>)
  {
    [U8(AsU8(|contexts|))] + ([U8(0)] + ([Le(0, 2)] + ListFields(ContextFields, contexts)))
  }

  function ContextsAt(buf: seq<byte>, pos: nat): (r: Read<seq<Context>>)
    ensures r.Ok? ==> |r.value.0| < 256
  {
    var (n, p) :- ReadU8(buf, pos);
    var (_, p) :- ReadU8(buf, p);
    var (_, p) :- Le16At(buf, p);
    ListAt(ContextAt, n, buf, p)
  }

  predicate SmallContext(c: Context) {
    |c.transfers| < 256
  }

  predicate ContextsFit(contexts: seq<Context>) {
    |contexts| < 256 && forall c | c in contexts :: SmallContext(c)
  }

  lemma ContextsReadBack(buf: seq<byte>, pos: nat, contexts: seq<Context>)
    requires At(buf, pos, EmitAll(pos, ContextsFields(contexts))) && ContextsFit(contexts)
    ensures ContextsAt(buf, pos) == Ok((contexts, End(pos, ContextsFields(contexts))))
  {
    hide EmitAll, At, Emit, ReadU8, Le16At, Le, ListAt, ListFields, ContextAt, ContextFields;
    var f3 := ListFields(ContextFields, contexts);
    var f2 := [Le(0, 2)] + f3;
    var p1 := Step8(buf, pos, |contexts|, [U8(0)] + f2);
    var p2 := Step8(buf, p1, 0, f2);
    var p3 := Step16(buf, p2, 0, f3);
    forall x, p: nat | x in contexts && At(buf, p, EmitAll(p, ContextFields(x)))
      ensures ContextAt(buf, p) == Ok((x, End(p, ContextFields(x))))
    {
      ContextReadsBack(buf, p, x);
    }
    ListReadsBack(ContextFields, ContextAt, buf, p3, contexts);
  }

  lemma ContextsAtFit(buf: seq<byte>, pos: nat)
    ensures ContextsAt(buf, pos).Ok? ==> ContextsFit(ContextsAt(buf, pos).value.0)
  {
    hide ReadU8, Le16At, ContextAt, ListAt;
    if ContextsAt(buf, pos).Ok? {
      var (n, p1) := ReadU8(buf, pos).value;
      var p2 := ReadU8(buf, p1).value.1;
      ListAtEach(ContextAt, SmallContext, n, buf, Le16At(buf, p2).value.1);
    }
  }

  function BindFields(b: Bind, frag: u16): (fs: seq<Field>)
  {
    HeaderFields(b.header, PTYPE_BIND, frag) + (SizesFields(b.sizes) + ContextsFields(b.contexts))
  }

  /** The PDU as sent: the fragment length is the number of octets, as far as 16 bits hold it. */
  function BindOctets(b: Bind): (bs: seq<byte>)
  {
    EmitAll(0, BindFields(b, AsU16(|EmitAll(0, BindFields(b, 0))|)))
  }

  function BindOf(buf: seq<byte>): (r: Result<Bind, NdrError>)
  {
    if |buf| < COMMON_HEADER_SIZE then Err(ShortRead)
    else
      var (h, p) :- HeaderAt(buf, PTYPE_BIND);
      var (sizes, p) :- SizesAt(buf, p);
      var (contexts, _) :- ContextsAt(buf, p);
      if h.1 != |buf| then Err(BadCount) else Ok(Bind(h.0, sizes, contexts))
  }

  /** What the header does not hold is the same for every fragment length. */
  lemma BodyApart(h: Header, ptype: byte, frag: u16, body: seq<Field>)
    ensures EmitAll(0, HeaderFields(h, ptype, frag) + body) ==
            EmitAll(0, HeaderFields(h, ptype, frag)) + EmitAll(COMMON_HEADER_SIZE, body)
    ensures |EmitAll(0, HeaderFields(h, ptype, frag))| == COMMON_HEADER_SIZE
  {
    hide EmitAll, HeaderFields;
    var fs := HeaderFields(h, ptype, frag);
    var octets := EmitAll(0, fs);
    assert At(octets, 0, octets);
    HeaderReadsBack(octets, h, ptype, frag);
    EmitAppend(0, fs, body);
  }

  /** A Bind comes back exactly when its counts fit one octet and its size fits two. */
  lemma BindRoundTrip(b: Bind)
    ensures BindOf(BindOctets(b)) == Ok(b) <==> ContextsFit(b.contexts) && |BindOctets(b)| < 0x1_0000
  {
    hide EmitAll, At, Emit, HeaderAt, SizesAt, ContextsAt, HeaderFields, SizesFields, ContextsFields, ContextsFit;
    var body := SizesFields(b.sizes) + ContextsFields(b.contexts);
    var frag := AsU16(|EmitAll(0, BindFields(b, 0))|);
    BodyApart(b.header, PTYPE_BIND, 0, body);
    BodyApart(b.header, PTYPE_BIND, frag, body);
    var buf := BindOctets(b);
    assert |buf| == |EmitAll(0, BindFields(b, 0))|;
    WholeAt(buf, []);
    SplitParts(buf, 0, HeaderFields(b.header, PTYPE_BIND, frag), body);
    HeaderReadsBack(buf, b.header, PTYPE_BIND, frag);
    SplitParts(buf, 16, SizesFields(b.sizes), ContextsFields(b.contexts));
    SizesReadBack(buf, 16, b.sizes);
    if ContextsFit(b.contexts) {
      ContextsReadBack(buf, 24, b.contexts);
    } else {
      ContextsAtFit(buf, 24);
    }
  }

  /** Where a bind carries its header and sizes. */
  lemma BindLaidOut(b: Bind)
    ensures var pdu := BindOctets(b);
            && HeaderLaidOut(pdu, b.header, PTYPE_BIND, AsU16(|pdu|))
            && Le16At(pdu, 16) == Ok((b.sizes.maxXmit, 18)) && Le16At(pdu, 18) == Ok((b.sizes.maxRecv, 20))
            && Le32At(pdu, 20) == Ok((b.sizes.group, 24))
  {
    hide EmitAll, At, HeaderAt, HeaderFields, SizesFields, ContextsFields, HeaderLaidOut, Le16At, Le32At;
    var body := SizesFields(b.sizes) + ContextsFields(b.contexts);
    var frag := AsU16(|EmitAll(0, BindFields(b, 0))|);
    BodyApart(b.header, PTYPE_BIND, 0, body);
    BodyApart(b.header, PTYPE_BIND, frag, body);
    var buf := BindOctets(b);
    WholeAt(buf, []);
    SplitParts(buf, 0, HeaderFields(b.header, PTYPE_BIND, frag), body);
    HeaderReadsBack(buf, b.header, PTYPE_BIND, frag);
    SplitParts(buf, 16, SizesFields(b.sizes), ContextsFields(b.contexts));
    SizesReadBack(buf, 16, b.sizes);
  }

  // ---- Bind_ack ----

  function OutcomeFields(o: Outcome): (fs: seq<Field>)
  {
    [Le(o.result, 2)] + ([Le(o.reason, 2)] + SyntaxFields(o.syntax))
  }

  /** The reader aligns these halves where the writer does not. */
  function OutcomeAt(buf: seq<byte>, pos: nat): (r: Read<Outcome>)
  {
    var (result, p) :- ReadU16(buf, pos);
    var (reason, p) :- ReadU16(buf, p);
    var (syntax, p) :- SyntaxAt(buf, p);
    Ok((Outcome(result, reason, syntax), p))
  }

  lemma OutcomeReadsBack(buf: seq<byte>, pos: nat, o: Outcome)
    requires At(buf, pos, EmitAll(pos, OutcomeFields(o))) && Even(pos)
    ensures OutcomeAt(buf, pos) == Ok((o, pos + 24)) && End(pos, OutcomeFields(o)) == pos + 24
  {
    hide EmitAll, At, Emit, ReadU16, SyntaxAt, SyntaxFields, Le, Even;
    var p1 := Step16(buf, pos, o.result, [Le(o.reason, 2)] + SyntaxFields(o.syntax));
    var p2 := Step16(buf, p1, o.reason, SyntaxFields(o.syntax));
    SyntaxReadsBack(buf, p2, o.syntax);
  }

  /** Every outcome takes 24 octets, so from an even position each starts on an even position. */
  lemma {:induction false} OutcomesReadBack(buf: seq<byte>, pos: nat, xs: seq<Outcome>)
    requires At(buf, pos, EmitAll(pos, ListFields(OutcomeFields, xs))) && Even(pos)
    ensures ListAt(OutcomeAt, |xs|, buf, pos) == Ok((xs, pos + 24 * |xs|))
    ensures End(pos, ListFields(OutcomeFields, xs)) == pos + 24 * |xs|
    decreases |xs|
  {
    hide EmitAll, At, End, OutcomeAt, OutcomeFields, Even;
    if xs == [] {
      EndOfNothing(pos);
    } else {
      var init, x := xs[..|xs| - 1], xs[|xs| - 1];
      SplitParts(buf, pos, ListFields(OutcomeFields, init), OutcomeFields(x));
      OutcomesReadBack(buf, pos, init);
      var p := End(pos, ListFields(OutcomeFields, init));
      EvenAfter(pos, |init|);
      OutcomeReadsBack(buf, p, x);
      assert xs == init + [x];
    }
  }

  /** The length of the address counts its terminator. */
  function AddressFields(s: Utf8String): (fs: seq<Field>)
  {
    [Le(AsU16(|s| + 1), 2)] + ([Raw(s)] + ([U8(0)] + ([Align(4)] + [])))
  }

  /** One terminator is dropped if there is one. */
  function WithoutNul(bs: seq<byte>): (r: seq<byte>)
  {
    if bs != [] && bs[|bs| - 1] == 0 then bs[..|bs| - 1] else bs
  }

  function AddressAt(buf: seq<byte>, pos: nat): (r: Read<Utf8String>)
  {
    var (n, p) :- ReadU16(buf, pos);
    var (bs, p) :- Take(buf, p, n);
    if !IsUtf8(WithoutNul(bs)) then Err(BadText)
    else
      var p :- SkipTo(buf, p, 4);
      Ok((WithoutNul(bs), p))
  }

  lemma TerminatorDropped(s: seq<byte>)
    ensures WithoutNul(s + [0]) == s
  {
    assert (s + [0])[..|s|] == s;
  }

  lemma AddressReadsBack(buf: seq<byte>, pos: nat, s: Utf8String)
    requires At(buf, pos, EmitAll(pos, AddressFields(s))) && |s| + 1 < 0x1_0000 && Even(pos)
    ensures AddressAt(buf, pos) == Ok((s, End(pos, AddressFields(s)))) && Even(End(pos, AddressFields(s)))
  {
    hide EmitAll, Emit, At, ReadU8, ReadU16, Take, SkipTo, Le, IsUtf8, WithoutNul, Even;
    var f3 := [Align(4)] + [];
    var f2 := [U8(0)] + f3;
    var p1 := Step16(buf, pos, |s| + 1, [Raw(s)] + f2);
    var p2 := Step(buf, p1, Raw(s), f2);
    RawSize(p1, s);
    var p3 := Step8(buf, p2, 0, f3);
    OctetTaken(buf, p2);
    Adjoined(buf, p1, s, [0]);
    TerminatorDropped(s);
    var p4 := Step(buf, p3, Align(4), []);
    EvenFour(p4);
    EndOfNothing(p4);
  }

  function OutcomesFields(outcomes: seq<Outcome>): (fs: seq<Field>)
  {
    [Le(AsU16(|outcomes|), 2)] + ([Le(0, 2)] + ListFields(OutcomeFields, outcomes))
  }

  function OutcomesAt(buf: seq<byte>, pos: nat): (r: Read<seq<Outcome>>)
  {
    var (n, p) :- ReadU16(buf, pos);
    var (_, p) :- ReadU16(buf, p);
    ListAt(OutcomeAt, n, buf, p)
  }

  function AckBody(a: BindAck): (fs: seq<Field>)
  {
    SizesFields(a.sizes) + (AddressFields(a.secAddr) + OutcomesFields(a.outcomes))
  }

  function AckOctets(a: BindAck): (bs: seq<byte>)
  {
    var total := |EmitAll(0, HeaderFields(a.header, PTYPE_BIND_ACK, 0) + AckBody(a))|;
    EmitAll(0, HeaderFields(a.header, PTYPE_BIND_ACK, AsU16(total)) + AckBody(a))
  }

  function AckOf(buf: seq<byte>): (r: Result<BindAck, NdrError>)
  {
    if |buf| < COMMON_HEADER_SIZE then Err(ShortRead)
    else
      var (h, p) :- HeaderAt(buf, PTYPE_BIND_ACK);
      var (sizes, p) :- SizesAt(buf, p);
      var (secAddr, p) :- AddressAt(buf, p);
      var (outcomes, _) :- OutcomesAt(buf, p);
      if h.1 != |buf| then Err(BadCount) else Ok(BindAck(h.0, sizes, secAddr, outcomes))
  }

  lemma OutcomesPartReadsBack(buf: seq<byte>, pos: nat, xs: seq<Outcome>)
    requires At(buf, pos, EmitAll(pos, OutcomesFields(xs))) && Even(pos)
    ensures End(pos, OutcomesFields(xs)) == pos + 4 + 24 * |xs|
    ensures |xs| < 0x1_0000 ==> OutcomesAt(buf, pos) == Ok((xs, pos + 4 + 24 * |xs|))
  {
    hide EmitAll, At, Emit, ReadU16, Le, ListAt, ListFields, Even, AsU16;
    var f2 := ListFields(OutcomeFields, xs);
    var p1 := Step16(buf, pos, AsU16(|xs|), [Le(0, 2)] + f2);
    var p2 := Step16(buf, p1, 0, f2);
    OutcomesReadBack(buf, p2, xs);
    CutWhen(|xs|);
  }

  lemma AddressSize(pos: nat, s: Utf8String)
    ensures End(pos, AddressFields(s)) >= pos + |s| + 3
  {
    hide EmitAll;
    var n, z, e := Le(AsU16(|s| + 1), 2), [U8(0)] + ([Align(4)] + []), EmitAll(pos, AddressFields(s));
    EmitCons(pos, n, [Raw(s)] + z);
    EmitCons(pos + |Emit(pos, n)|, Raw(s), z);
    var p := pos + |Emit(pos, n)| + |Emit(pos + |Emit(pos, n)|, Raw(s))|;
    EmitCons(p, U8(0), [Align(4)] + []);
  }

  lemma EndGrows(pos: nat, fs: seq<Field>)
    ensures End(pos, fs) == pos + |EmitAll(pos, fs)|
  {
    hide EmitAll;
  }

  lemma AckTailReadsBack(buf: seq<byte>, s: Utf8String, xs: seq<Outcome>)
    requires At(buf, 24, EmitAll(24, AddressFields(s) + OutcomesFields(xs)))
    requires End(24, AddressFields(s) + OutcomesFields(xs)) < 0x1_0000
    ensures var p := End(24, AddressFields(s));
            && AddressAt(buf, 24) == Ok((s, p))
            && OutcomesAt(buf, p).Ok? && OutcomesAt(buf, p).value.0 == xs
  {
    hide EmitAll, At, End, AddressAt, OutcomesAt, AddressFields, OutcomesFields, Even;
    SplitParts(buf, 24, AddressFields(s), OutcomesFields(xs));
    AddressSize(24, s);
    EvenFour(24);
    AddressReadsBack(buf, 24, s);
    OutcomesPartReadsBack(buf, End(24, AddressFields(s)), xs);
  }

  lemma AckBodyReadsBack(buf: seq<byte>, a: BindAck)
    requires At(buf, 16, EmitAll(16, AckBody(a))) && End(16, AckBody(a)) < 0x1_0000
    ensures var p := End(24, AddressFields(a.secAddr));
            && SizesAt(buf, 16) == Ok((a.sizes, 24)) && AddressAt(buf, 24) == Ok((a.secAddr, p))
            && OutcomesAt(buf, p).Ok? && OutcomesAt(buf, p).value.0 == a.outcomes
  {
    hide EmitAll, At, End, SizesAt, AddressAt, OutcomesAt, SizesFields, AddressFields, OutcomesFields;
    var tail := AddressFields(a.secAddr) + OutcomesFields(a.outcomes);
    SplitParts(buf, 16, SizesFields(a.sizes), tail);
    SizesReadBack(buf, 16, a.sizes);
    AckTailReadsBack(buf, a.secAddr, a.outcomes);
  }

  /** A Bind_ack comes back exactly when its size fits 16 bits: its counts then fit as well. */
  lemma AckRoundTrip(a: BindAck)
    ensures AckOf(AckOctets(a)) == Ok(a) <==> |AckOctets(a)| < 0x1_0000
  {
    hide EmitAll, At, Emit, End, HeaderAt, SizesAt, AddressAt, OutcomesAt, HeaderFields, AckBody;
    var body := AckBody(a);
    var frag := AsU16(|EmitAll(0, HeaderFields(a.header, PTYPE_BIND_ACK, 0) + body)|);
    BodyApart(a.header, PTYPE_BIND_ACK, 0, body);
    BodyApart(a.header, PTYPE_BIND_ACK, frag, body);
    var buf := AckOctets(a);
    WholeAt(buf, []);
    SplitParts(buf, 0, HeaderFields(a.header, PTYPE_BIND_ACK, frag), body);
    HeaderReadsBack(buf, a.header, PTYPE_BIND_ACK, frag);
    if |buf| < 0x1_0000 {
      EndGrows(16, body);
      AckBodyReadsBack(buf, a);
    }
  }

  // ---- Request ----

  function RequestOctets(callId: u32, context: u16, opnum: u16, stub: seq<byte>): (bs: seq<byte>)
  {
    EmitAll(0, HeaderFields(Header(5, 0, 3, 0x10, callId), PTYPE_REQUEST, AsU16(26 + |stub|)) +
               RequestBody(context, opnum, stub))
  }

  function RequestBody(context: u16, opnum: u16, stub: seq<byte>): (fs: seq<Field>)
  {
    [Le(AsU32(2 + |stub|), 4)] + ([Le(context, 2)] + ([U8(0)] + ([U8(0)] + ([Le(opnum, 2)] + ([Raw(stub)] + [])))))
  }

  // ---- Framing ----

  /** A PDU whose fragment length is its number of octets. */
  predicate WellFramed(pdu: seq<byte>) {
    |pdu| >= COMMON_HEADER_SIZE && LittleEndian(pdu[8..10]) == |pdu|
  }

  lemma HeaderFrames(h: Header, ptype: byte, frag: u16, body: seq<Field>)
    ensures var pdu := EmitAll(0, HeaderFields(h, ptype, frag) + body);
            |pdu| >= COMMON_HEADER_SIZE && LittleEndian(pdu[8..10]) == frag &&
            |pdu| == COMMON_HEADER_SIZE + |EmitAll(COMMON_HEADER_SIZE, body)|
  {
    hide EmitAll, HeaderFields, At, HeaderAt;
    BodyApart(h, ptype, frag, body);
    var pdu := EmitAll(0, HeaderFields(h, ptype, frag) + body);
    WholeAt(pdu, []);
    SplitParts(pdu, 0, HeaderFields(h, ptype, frag), body);
    HeaderReadsBack(pdu, h, ptype, frag);
  }

  lemma RequestBodySize(context: u16, opnum: u16, stub: seq<byte>)
    ensures |EmitAll(COMMON_HEADER_SIZE, RequestBody(context, opnum, stub))| == 10 + |stub|
  {
    hide EmitAll, Emit, At, Le, Le16At, Le32At, ReadU8, ReadField;
    var f5 := [Raw(stub)] + [];
    var f4 := [Le(opnum, 2)] + f5;
    var f3 := [U8(0)] + f4;
    var f2 := [U8(0)] + f3;
    var f1 := [Le(context, 2)] + f2;
    var octets := EmitAll(COMMON_HEADER_SIZE, RequestBody(context, opnum, stub));
    var buf := Zeros(COMMON_HEADER_SIZE) + octets;
    assert At(buf, COMMON_HEADER_SIZE, octets) by {
      assert buf[COMMON_HEADER_SIZE..COMMON_HEADER_SIZE + |octets|] == octets;
      AtMeans(buf, COMMON_HEADER_SIZE, octets);
    }
    var p1 := Step32(buf, COMMON_HEADER_SIZE, AsU32(2 + |stub|), f1);
    var p2 := Step16(buf, p1, context, f2);
    var p3 := Step8(buf, p2, 0, f3);
    var p4 := Step8(buf, p3, 0, f4);
    var p5 := Step16(buf, p4, opnum, f5);
    var p6 := Step(buf, p5, Raw(stub), []);
    NoPad(p5);
    EndOfNothing(p6);
    RawSize(p5, stub);
  }

  /** What a request carries behind its header: the allocation hint, the presentation context, two octets of
      padding, the operation number and the stub. */
  lemma RequestCarries(callId: u32, context: u16, opnum: u16, stub: seq<byte>)
    ensures var pdu := RequestOctets(callId, context, opnum, stub);
            && |pdu| == 26 + |stub|
            && HeaderLaidOut(pdu, Header(5, 0, 3, 0x10, callId), PTYPE_REQUEST, AsU16(26 + |stub|))
            && Le32At(pdu, 16) == Ok((AsU32(2 + |stub|), 20)) && Le16At(pdu, 20) == Ok((context, 22))
            && pdu[22..24] == [0, 0] && Le16At(pdu, 24) == Ok((opnum, 26)) && pdu[26..] == stub
  {
    hide EmitAll, Emit, At, Le, Le16At, Le32At, ReadU8, HeaderAt, HeaderFields;
    var header, frag := Header(5, 0, 3, 0x10, callId), AsU16(26 + |stub|);
    var body, pdu := RequestBody(context, opnum, stub), RequestOctets(callId, context, opnum, stub);
    HeaderFrames(header, PTYPE_REQUEST, frag, body);
    RequestBodySize(context, opnum, stub);
    WholeAt(pdu, []);
    SplitParts(pdu, 0, HeaderFields(header, PTYPE_REQUEST, frag), body);
    HeaderReadsBack(pdu, header, PTYPE_REQUEST, frag);
    var f5 := [Raw(stub)] + [];
    var f4 := [Le(opnum, 2)] + f5;
    var f3 := [U8(0)] + f4;
    var f2 := [U8(0)] + f3;
    var p1 := Step32(pdu, 16, AsU32(2 + |stub|), [Le(context, 2)] + f2);
    var p2 := Step16(pdu, p1, context, f2);
    var p3 := Step8(pdu, p2, 0, f3);
    var p4 := Step8(pdu, p3, 0, f4);
    var p5 := Step16(pdu, p4, opnum, f5);
    var p6 := Step(pdu, p5, Raw(stub), []);
    OctetIs(pdu, p2, 0);
    OctetIs(pdu, p3, 0);
    RestIs(pdu, p5, stub);
  }

  lemma OctetIs(buf: seq<byte>, pos: nat, n: byte)
    requires ReadU8(buf, pos) == Ok((n, pos + 1))
    ensures pos < |buf| && buf[pos] == n
  {
  }

  lemma RestIs(buf: seq<byte>, pos: nat, s: seq<byte>)
    requires pos + |s| == |buf| && ReadField(buf, pos, KindOf(Raw(s))) == Ok((Raw(s), pos + |Emit(pos, Raw(s))|))
    ensures buf[pos..] == s
  {
  }

  lemma AtMeans(buf: seq<byte>, pos: nat, s: seq<byte>)
    requires pos + |s| <= |buf| && buf[pos..pos + |s|] == s
    ensures At(buf, pos, s)
  {
  }

  lemma RawSize(pos: nat, s: seq<byte>)
    ensures |Emit(pos, Raw(s))| == |s|
  {
    NoPad(pos);
  }

  lemma BindFramed(b: Bind)
    ensures WellFramed(BindOctets(b)) <==> |BindOctets(b)| < 0x1_0000
  {
    hide EmitAll, HeaderFields, SizesFields, ContextsFields, AsU16;
    var body, n := SizesFields(b.sizes) + ContextsFields(b.contexts), |EmitAll(0, BindFields(b, 0))|;
    HeaderFrames(b.header, PTYPE_BIND, 0, body);
    HeaderFrames(b.header, PTYPE_BIND, AsU16(n), body);
    CutWhen(n);
  }

  lemma AckFramed(a: BindAck)
    ensures WellFramed(AckOctets(a)) <==> |AckOctets(a)| < 0x1_0000
  {
    hide EmitAll, HeaderFields, AckBody, AsU16;
    var n := |EmitAll(0, HeaderFields(a.header, PTYPE_BIND_ACK, 0) + AckBody(a))|;
    HeaderFrames(a.header, PTYPE_BIND_ACK, 0, AckBody(a));
    HeaderFrames(a.header, PTYPE_BIND_ACK, AsU16(n), AckBody(a));
    CutWhen(n);
  }

  lemma RequestFramed(callId: u32, context: u16, opnum: u16, stub: seq<byte>)
    ensures WellFramed(RequestOctets(callId, context, opnum, stub)) <==> 26 + |stub| < 0x1_0000
  {
    hide EmitAll, HeaderFields, RequestBody, AsU16;
    RequestBodySize(context, opnum, stub);
    HeaderFrames(Header(5, 0, 3, 0x10, callId), PTYPE_REQUEST, AsU16(26 + |stub|), RequestBody(context, opnum, stub));
    CutWhen(26 + |stub|);
  }

  /** The patched fragment length of every PDU sent equals its number of octets exactly when that number
      fits 16 bits. */
  lemma PdusAreFramed(b: Bind, a: BindAck, callId: u32, context: u16, opnum: u16, stub: seq<byte>)
    ensures WellFramed(BindOctets(b)) <==> |BindOctets(b)| < 0x1_0000
    ensures WellFramed(AckOctets(a)) <==> |AckOctets(a)| < 0x1_0000
    ensures WellFramed(RequestOctets(callId, context, opnum, stub)) <==> 26 + |stub| < 0x1_0000
  {
    hide BindOctets, AckOctets, RequestOctets, WellFramed;
    BindFramed(b);
    AckFramed(a);
    RequestFramed(callId, context, opnum, stub);
  }

  /** Takes one PDU off the stream, as long as its fragment length says. */
  function PduOf(stream: seq<byte>): (r: Result<(seq<byte>, seq<byte>), NdrError>)
    ensures r.Ok? ==> |r.value.1| < |stream|
  {
    if |stream| < COMMON_HEADER_SIZE then Err(ShortRead)
    else
      var n := LittleEndian(stream[8..10]);
      if n < COMMON_HEADER_SIZE then Err(BadCount)
      else if |stream| < n then Err(ShortRead)
      else Ok((stream[..n], stream[n..]))
  }

  function PdusOf(stream: seq<byte>): (r: Result<seq<seq<byte>>, NdrError>)
    decreases |stream|
  {
    if stream == [] then Ok([])
    else
      var (pdu, rest) :- PduOf(stream);
      var pdus :- PdusOf(rest);
      Ok([pdu] + pdus)
  }

  lemma PduIs(pdu: seq<byte>, rest: seq<byte>)
    requires WellFramed(pdu)
    ensures PduOf(pdu + rest) == Ok((pdu, rest))
  {
    hide LittleEndian;
    var stream := pdu + rest;
    assert stream[8..10] == pdu[8..10];
    assert stream[..|pdu|] == pdu && stream[|pdu|..] == rest;
  }

  lemma {:induction false} FramesReadBack(pdus: seq<seq<byte>>)
    requires forall p | p in pdus :: WellFramed(p)
    ensures PdusOf(Flatten(pdus)) == Ok(pdus)
  {
    hide WellFramed, PduOf;
    if pdus != [] {
      PduIs(pdus[0], Flatten(pdus[1..]));
      FramesReadBack(pdus[1..]);
      assert [pdus[0]] + pdus[1..] == pdus;
    }
  }

  lemma {:induction false} ReadFramesAre(stream: seq<byte>)
    requires PdusOf(stream).Ok?
    ensures Flatten(PdusOf(stream).value) == stream && forall p | p in PdusOf(stream).value :: WellFramed(p)
    decreases |stream|
  {
    hide LittleEndian;
    if stream != [] {
      var (pdu, rest) := PduOf(stream).value;
      ReadFramesAre(rest);
      var all := PdusOf(stream).value;
      assert all == [pdu] + PdusOf(rest).value && all[1..] == PdusOf(rest).value;
      assert stream == pdu + rest && pdu[8..10] == stream[8..10];
    }
  }

  /** Reading PDUs off a stream returns a list exactly when the stream is the concatenation of that
      list and each of them is well framed. */
  lemma FramingIsExact(stream: seq<byte>, pdus: seq<seq<byte>>)
    ensures PdusOf(stream) == Ok(pdus) <==> stream == Flatten(pdus) && forall p | p in pdus :: WellFramed(p)
  {
    hide PdusOf, Flatten, WellFramed;
    if PdusOf(stream) == Ok(pdus) {
      ReadFramesAre(stream);
    }
    if stream == Flatten(pdus) && forall p | p in pdus :: WellFramed(p) {
      FramesReadBack(pdus);
    }
  }
}
