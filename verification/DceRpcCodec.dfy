/** The PDU codecs as they run: fields through the writer, the fragment length patched in afterwards,
    counts driving the decoding loops, and the framing read off a stream. */
module DceRpcCodec {
  import opened Bytes
  import opened Ndr
  import opened Utf8
  import opened DceRpcPdu

  // ---- Writing ----

  method WriteLe(w: NdrWriter, n: nat, k: nat)
    requires w.Valid()
    modifies w
    ensures w.Valid() && w.fields == old(w.fields) + [Le(n, k)]
  {
    w.WriteBytes(ToLittleEndian(n, k));
  }

  method EncodeHeader(w: NdrWriter, h: Header, ptype: byte, frag: u16)
    requires w.Valid() && w.fields == []
    modifies w
    ensures w.Valid() && w.fields == HeaderFields(h, ptype, frag)
  {
    hide EmitAll, Le;
    w.WriteU8(h.version);
    w.WriteU8(h.minor);
    w.WriteU8(ptype);
    w.WriteU8(h.flags);
    WriteLe(w, h.dataRep, 4);
    WriteLe(w, frag, 2);
    WriteLe(w, 0, 2);
    WriteLe(w, h.callId, 4);
  }

  method EncodeSizes(w: NdrWriter, s: Sizes)
    requires w.Valid()
    modifies w
    ensures w.Valid() && w.fields == old(w.fields) + SizesFields(s)
  {
    hide EmitAll, Le;
    WriteLe(w, s.maxXmit, 2);
    WriteLe(w, s.maxRecv, 2);
    WriteLe(w, s.group, 4);
  }

  function UpToFrag(h: Header, ptype: byte): (fs: seq<Field>)
  {
    [U8(h.version)] + ([U8(h.minor)] + ([U8(ptype)] + ([U8(h.flags)] + ([Le(h.dataRep, 4)] + []))))
  }

  function PastFrag(h: Header): (fs: seq<Field>)
  {
    [Le(0, 2)] + ([Le(h.callId, 4)] + [])
  }

  lemma UpToFragSize(h: Header, ptype: byte)
    ensures |EmitAll(0, UpToFrag(h, ptype))| == FRAG_LENGTH_AT
  {
    hide EmitAll;
    var f4 := [Le(h.dataRep, 4)] + [];
    var f3 := [U8(h.flags)] + f4;
    var f2 := [U8(ptype)] + f3;
    EmitCons(0, U8(h.version), [U8(h.minor)] + f2);
    EmitCons(1, U8(h.minor), f2);
    EmitCons(2, U8(ptype), f3);
    EmitCons(3, U8(h.flags), f4);
    EmitCons(4, Le(h.dataRep, 4), []);
    EndOfNothing(8);
  }

  lemma HeaderSplit(h: Header, ptype: byte, frag: u16, body: seq<Field>)
    ensures EmitAll(0, HeaderFields(h, ptype, frag) + body) ==
            EmitAll(0, UpToFrag(h, ptype)) + (ToLittleEndian(frag, 2) + EmitAll(10, PastFrag(h) + body))
  {
    hide EmitAll, ToLittleEndian;
    UpToFragSize(h, ptype);
    var rest := PastFrag(h) + body;
    assert HeaderFields(h, ptype, frag) + body == UpToFrag(h, ptype) + ([Le(frag, 2)] + rest);
    EmitAppend(0, UpToFrag(h, ptype), [Le(frag, 2)] + rest);
    EmitAppend(8, [Le(frag, 2)], rest);
    EmitOne(8, Le(frag, 2));
    NoPad(8);
    assert Zeros(0) + ToLittleEndian(frag, 2) == ToLittleEndian(frag, 2);
  }

  /** Overwriting the placeholder gives the octets of the header with the length in place. */
  lemma PatchIs(h: Header, ptype: byte, frag: u16, body: seq<Field>)
    ensures var bytes := EmitAll(0, HeaderFields(h, ptype, 0) + body);
            |bytes| >= 10 &&
            bytes[..8] + ToLittleEndian(frag, 2) + bytes[10..] == EmitAll(0, HeaderFields(h, ptype, frag) + body)
  {
    hide EmitAll, ToLittleEndian, HeaderFields;
    UpToFragSize(h, ptype);
    HeaderSplit(h, ptype, 0, body);
    HeaderSplit(h, ptype, frag, body);
    var a, b := EmitAll(0, UpToFrag(h, ptype)), EmitAll(10, PastFrag(h) + body);
    var bytes := a + (ToLittleEndian(0, 2) + b);
    assert bytes[..8] == a && bytes[10..] == b;
    assert a + ToLittleEndian(frag, 2) + b == a + (ToLittleEndian(frag, 2) + b);
  }

  method Patched(w: NdrWriter, ghost h: Header, ghost ptype: byte, ghost body: seq<Field>) returns (bytes: seq<byte>)
    requires w.Valid() && w.fields == HeaderFields(h, ptype, 0) + body
    ensures bytes == EmitAll(0, HeaderFields(h, ptype, AsU16(|EmitAll(0, HeaderFields(h, ptype, 0) + body)|)) + body)
  {
    hide EmitAll, HeaderFields, ToLittleEndian;
    var total := AsU16(|w.buf|);
    PatchIs(h, ptype, total, body);
    bytes := w.buf[..8] + ToLittleEndian(total, 2) + w.buf[10..];
  }

  method EncodeSyntax(w: NdrWriter, s: Syntax)
    requires w.Valid()
    modifies w
    ensures w.Valid() && w.fields == old(w.fields) + SyntaxFields(s)
  {
    hide EmitAll, Le;
    w.WriteUuid(s.uuid);
    WriteLe(w, s.version, 4);
  }

  method EncodeSyntaxes(w: NdrWriter, syntaxes: seq<Syntax>)
    requires w.Valid()
    modifies w
    ensures w.Valid() && w.fields == old(w.fields) + ListFields(SyntaxFields, syntaxes)
  {
    hide EmitAll, SyntaxFields;
    for i := 0 to |syntaxes|
      invariant w.Valid() && w.fields == old(w.fields) + ListFields(SyntaxFields, syntaxes[..i])
    {
      EncodeSyntax(w, syntaxes[i]);
      ListGrows(SyntaxFields, syntaxes, i);
    }
    assert syntaxes[..|syntaxes|] == syntaxes;
  }

  method EncodeContext(w: NdrWriter, c: Context)
    requires w.Valid()
    modifies w
    ensures w.Valid() && w.fields == old(w.fields) + ContextFields(c)
  {
    hide EmitAll, Le, ListFields;
    WriteLe(w, c.id, 2);
    w.WriteU8(AsU8(|c.transfers|));
    w.WriteU8(0);
    w.WriteUuid(c.uuid);
    WriteLe(w, VersionOf(c), 4);
    EncodeSyntaxes(w, c.transfers);
  }

  method EncodeContexts(w: NdrWriter, contexts: seq<Context>)
    requires w.Valid()
    modifies w
    ensures w.Valid() && w.fields == old(w.fields) + ContextsFields(contexts)
  {
    hide EmitAll, Le, ContextFields;
    w.WriteU8(AsU8(|contexts|));
    w.WriteU8(0);
    WriteLe(w, 0, 2);
    ghost var head := w.fields;
    for i := 0 to |contexts|
      invariant w.Valid() && w.fields == head + ListFields(ContextFields, contexts[..i])
    {
      EncodeContext(w, contexts[i]);
      ListGrows(ContextFields, contexts, i);
    }
    assert contexts[..|contexts|] == contexts;
  }

  method EncodeBind(b: Bind) returns (bytes: seq<byte>)
    ensures bytes == BindOctets(b)
  {
    hide EmitAll, HeaderFields, SizesFields, ContextsFields;
    var w := new NdrWriter();
    EncodeHeader(w, b.header, PTYPE_BIND, 0);
    EncodeSizes(w, b.sizes);
    EncodeContexts(w, b.contexts);
    ghost var body := SizesFields(b.sizes) + ContextsFields(b.contexts);
    assert w.fields == HeaderFields(b.header, PTYPE_BIND, 0) + body;
    bytes := Patched(w, b.header, PTYPE_BIND, body);
  }

  method EncodeOutcome(w: NdrWriter, o: Outcome)
    requires w.Valid()
    modifies w
    ensures w.Valid() && w.fields == old(w.fields) + OutcomeFields(o)
  {
    hide EmitAll, Le, SyntaxFields;
    WriteLe(w, o.result, 2);
    WriteLe(w, o.reason, 2);
    EncodeSyntax(w, o.syntax);
  }

  method EncodeOutcomes(w: NdrWriter, outcomes: seq<Outcome>)
    requires w.Valid()
    modifies w
    ensures w.Valid() && w.fields == old(w.fields) + OutcomesFields(outcomes)
  {
    hide EmitAll, Le, OutcomeFields;
    WriteLe(w, AsU16(|outcomes|), 2);
    WriteLe(w, 0, 2);
    ghost var head := w.fields;
    for i := 0 to |outcomes|
      invariant w.Valid() && w.fields == head + ListFields(OutcomeFields, outcomes[..i])
    {
      EncodeOutcome(w, outcomes[i]);
      ListGrows(OutcomeFields, outcomes, i);
    }
    assert outcomes[..|outcomes|] == outcomes;
  }

  method EncodeAddress(w: NdrWriter, s: Utf8String)
    requires w.Valid()
    modifies w
    ensures w.Valid() && w.fields == old(w.fields) + AddressFields(s)
  {
    hide EmitAll, Le;
    WriteLe(w, AsU16(|s| + 1), 2);
    w.WriteBytes(s);
    w.WriteU8(0);
    w.AlignTo(4);
  }

  method EncodeBindAck(a: BindAck) returns (bytes: seq<byte>)
    ensures bytes == AckOctets(a)
  {
    hide EmitAll, HeaderFields, SizesFields, AddressFields, OutcomesFields;
    var w := new NdrWriter();
    EncodeHeader(w, a.header, PTYPE_BIND_ACK, 0);
    EncodeSizes(w, a.sizes);
    EncodeAddress(w, a.secAddr);
    EncodeOutcomes(w, a.outcomes);
    assert w.fields == HeaderFields(a.header, PTYPE_BIND_ACK, 0) + AckBody(a);
    bytes := Patched(w, a.header, PTYPE_BIND_ACK, AckBody(a));
  }

  method EncodeRequest(callId: u32, context: u16, opnum: u16, stub: seq<byte>) returns (bytes: seq<byte>)
    ensures bytes == RequestOctets(callId, context, opnum, stub)
  {
    hide EmitAll, HeaderFields, Le;
    var w := new NdrWriter();
    EncodeHeader(w, Header(5, 0, 3, 0x10, callId), PTYPE_REQUEST, AsU16(26 + |stub|));
    ghost var head := w.fields;
    WriteLe(w, AsU32(2 + |stub|), 4);
    WriteLe(w, context, 2);
    w.WriteU8(0);
    w.WriteU8(0);
    WriteLe(w, opnum, 2);
    w.WriteBytes(stub);
    assert w.fields == head + RequestBody(context, opnum, stub);
    bytes := w.buf;
  }

  // ---- Reading ----

  method ReadLe16(r: NdrReader) returns (got: Result<u16, NdrError>)
    modifies r
    ensures Agrees(Le16At(r.buf, old(r.pos)), got, r.pos)
  {
    Pow256Values();
    var bs :- r.ReadBytes(2);
    LittleEndianBound(bs);
    got := Ok(LittleEndian(bs));
  }

  method ReadLe32(r: NdrReader) returns (got: Result<u32, NdrError>)
    modifies r
    ensures Agrees(Le32At(r.buf, old(r.pos)), got, r.pos)
  {
    Pow256Values();
    var bs :- r.ReadBytes(4);
    LittleEndianBound(bs);
    got := Ok(LittleEndian(bs));
  }

  method DecodeHeader(r: NdrReader, ptype: byte) returns (got: Result<(Header, u16), NdrError>)
    requires r.pos == 0
    modifies r
    ensures Agrees(HeaderAt(r.buf, ptype), got, r.pos)
  {
    hide ReadU8, Le16At, Le32At;
    var version :- r.ReadOctet();
    var minor :- r.ReadOctet();
    var t :- r.ReadOctet();
    if t != ptype {
      return Err(BadCount);
    }
    var flags :- r.ReadOctet();
    var dataRep :- ReadLe32(r);
    var frag :- ReadLe16(r);
    var _ :- ReadLe16(r);
    var callId :- ReadLe32(r);
    got := Ok((Header(version, minor, flags, dataRep, callId), frag));
  }

  method DecodeSizes(r: NdrReader) returns (got: Result<Sizes, NdrError>)
    modifies r
    ensures Agrees(SizesAt(r.buf, old(r.pos)), got, r.pos)
  {
    hide Le16At, Le32At;
    var maxXmit :- ReadLe16(r);
    var maxRecv :- ReadLe16(r);
    var group :- ReadLe32(r);
    got := Ok(Sizes(maxXmit, maxRecv, group));
  }

  method DecodeSyntax(r: NdrReader) returns (got: Result<Syntax, NdrError>)
    modifies r
    ensures Agrees(SyntaxAt(r.buf, old(r.pos)), got, r.pos)
  {
    hide ReadUuid, Le32At;
    var uuid :- r.ReadGuid();
    var version :- ReadLe32(r);
    got := Ok(Syntax(uuid, version));
  }

  method DecodeContext(r: NdrReader) returns (got: Result<Context, NdrError>)
    modifies r
    ensures Agrees(ContextAt(r.buf, old(r.pos)), got, r.pos)
  {
    hide ReadU8, ReadUuid, Le16At, Le32At, SyntaxAt;
    var id :- ReadLe16(r);
    var n :- r.ReadOctet();
    var _ :- r.ReadOctet();
    var uuid :- r.ReadGuid();
    var version :- ReadLe32(r);
    ghost var start := r.pos;
    var transfers: seq<Syntax> := [];
    for i := 0 to n
      invariant ListAt(SyntaxAt, i, r.buf, start) == Ok((transfers, r.pos))
    {
      var s := DecodeSyntax(r);
      if s.Err? {
        ListAtFails(SyntaxAt, i + 1, n, r.buf, start);
        return Err(s.error);
      }
      transfers := transfers + [s.value];
    }
    got := Ok(Context(id, uuid, version / 0x1_0000, version % 0x1_0000, transfers));
  }

  method DecodeContexts(r: NdrReader) returns (got: Result<seq<Context>, NdrError>)
    modifies r
    ensures Agrees(ContextsAt(r.buf, old(r.pos)), got, r.pos)
  {
    hide ReadU8, Le16At, ContextAt;
    var n :- r.ReadOctet();
    var _ :- r.ReadOctet();
    var _ :- ReadLe16(r);
    ghost var start := r.pos;
    var contexts: seq<Context> := [];
    for i := 0 to n
      invariant ListAt(ContextAt, i, r.buf, start) == Ok((contexts, r.pos))
    {
      var c := DecodeContext(r);
      if c.Err? {
        ListAtFails(ContextAt, i + 1, n, r.buf, start);
        return Err(c.error);
      }
      contexts := contexts + [c.value];
    }
    got := Ok(contexts);
  }

  method DecodeBind(buf: seq<byte>) returns (got: Result<Bind, NdrError>)
    ensures got == BindOf(buf)
  {
    hide HeaderAt, SizesAt, ContextsAt;
    if |buf| < COMMON_HEADER_SIZE {
      return Err(ShortRead);
    }
    var r := new NdrReader(buf);
    var h :- DecodeHeader(r, PTYPE_BIND);
    var sizes :- DecodeSizes(r);
    var contexts :- DecodeContexts(r);
    if h.1 != |buf| {
      return Err(BadCount);
    }
    got := Ok(Bind(h.0, sizes, contexts));
  }

  method DecodeOutcome(r: NdrReader) returns (got: Result<Outcome, NdrError>)
    modifies r
    ensures Agrees(OutcomeAt(r.buf, old(r.pos)), got, r.pos)
  {
    hide ReadU16, SyntaxAt;
    var result :- r.ReadHalf();
    var reason :- r.ReadHalf();
    var syntax :- DecodeSyntax(r);
    got := Ok(Outcome(result, reason, syntax));
  }

  method DecodeOutcomes(r: NdrReader) returns (got: Result<seq<Outcome>, NdrError>)
    modifies r
    ensures Agrees(OutcomesAt(r.buf, old(r.pos)), got, r.pos)
  {
    hide ReadU16, OutcomeAt;
    var n :- r.ReadHalf();
    var _ :- r.ReadHalf();
    ghost var start := r.pos;
    var outcomes: seq<Outcome> := [];
    for i := 0 to n
      invariant ListAt(OutcomeAt, i, r.buf, start) == Ok((outcomes, r.pos))
    {
      var o := DecodeOutcome(r);
      if o.Err? {
        ListAtFails(OutcomeAt, i + 1, n, r.buf, start);
        return Err(o.error);
      }
      outcomes := outcomes + [o.value];
    }
    got := Ok(outcomes);
  }

  method DecodeAddress(r: NdrReader) returns (got: Result<Utf8String, NdrError>)
    modifies r
    ensures Agrees(AddressAt(r.buf, old(r.pos)), got, r.pos)
  {
    hide ReadU16, IsUtf8, SkipTo;
    var n :- r.ReadHalf();
    var bs :- r.ReadBytes(n);
    var trimmed := WithoutNul(bs);
    if !IsUtf8(trimmed) {
      return Err(BadText);
    }
    var _ :- r.AlignTo(4);
    got := Ok(trimmed);
  }

  method DecodeBindAck(buf: seq<byte>) returns (got: Result<BindAck, NdrError>)
    ensures got == AckOf(buf)
  {
    hide HeaderAt, SizesAt, AddressAt, OutcomesAt;
    if |buf| < COMMON_HEADER_SIZE {
      return Err(ShortRead);
    }
    var r := new NdrReader(buf);
    var h :- DecodeHeader(r, PTYPE_BIND_ACK);
    var sizes :- DecodeSizes(r);
    var secAddr :- DecodeAddress(r);
    var outcomes :- DecodeOutcomes(r);
    if h.1 != |buf| {
      return Err(BadCount);
    }
    got := Ok(BindAck(h.0, sizes, secAddr, outcomes));
  }

  // ---- Off the stream ----

  /** Exactly `n` octets off the front of the stream. */
  method ReadExact(stream: seq<byte>, n: nat) returns (r: Result<(seq<byte>, seq<byte>), NdrError>)
    ensures r == if |stream| < n then Err(ShortRead) else Ok((stream[..n], stream[n..]))
  {
    if |stream| < n {
      return Err(ShortRead);
    }
    r := Ok((stream[..n], stream[n..]));
  }

  /** Reads the header, then as much more as its fragment length asks for. */
  method ReadPdu(stream: seq<byte>) returns (r: Result<(seq<byte>, seq<byte>), NdrError>)
    ensures r == PduOf(stream)
  {
    hide LittleEndian;
    var header :- ReadExact(stream, COMMON_HEADER_SIZE);
    assert header.0[8..10] == stream[8..10];
    var fragLength := LittleEndian(header.0[8..10]);
    if fragLength < COMMON_HEADER_SIZE {
      return Err(BadCount);
    }
    var body :- ReadExact(header.1, fragLength - COMMON_HEADER_SIZE);
    assert header.0 + body.0 == stream[..fragLength] && body.1 == stream[fragLength..];
    r := Ok((header.0 + body.0, body.1));
  }
}
