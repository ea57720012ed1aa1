/** The codecs as they run: structures written through the buffer and read through the cursor, each
    proved to write exactly its field list and to read exactly what its position-indexed decoder says. */
module DrsuapiCodec {
  import opened Bytes
  import opened Ndr
  import opened Replication
  import opened Drsuapi
  import Utf16

  // ---- Writing ----

  method EncodeExtensions(w: NdrWriter, x: Extensions)
    requires w.Valid()
    modifies w
    ensures w.Valid() && w.fields == old(w.fields) + ExtensionsFields(x)
  {
    hide EmitAll;
    w.WriteU32(AsU32(EXTENSIONS_BODY_SIZE + |x.extra|));
    w.WriteU32(x.flags);
    w.WriteUuid(x.site);
    w.WriteU32(x.pid);
    w.WriteU32(x.epoch);
    w.WriteU32(x.flagsExt);
    w.WriteBytes(x.extra);
    w.AlignTo(4);
  }

  method EncodeEntry(w: NdrWriter, e: UtdEntry)
    requires w.Valid()
    modifies w
    ensures w.Valid() && w.fields == old(w.fields) + EntryFields(e)
  {
    hide EmitAll;
    w.WriteU64(e.usnHigh);
    w.WriteU64(e.usnLow);
    w.WriteUuid(e.dsa);
  }

  method EncodeVector(w: NdrWriter, v: Vector)
    requires w.Valid()
    modifies w
    ensures w.Valid() && w.fields == old(w.fields) + VectorFields(v)
  {
    hide EmitAll, EntryFields;
    w.WriteU32(AsU32(|v.entries|));
    w.WriteU32(v.version);
    w.WriteU32(0);
    ghost var head := w.fields;
    for i := 0 to |v.entries|
      invariant w.Valid() && w.fields == head + ListFields(EntryFields, v.entries[..i])
    {
      EncodeEntry(w, v.entries[i]);
      ListGrows(EntryFields, v.entries, i);
    }
    assert v.entries[..|v.entries|] == v.entries;
  }

  lemma RawEmits(fs: seq<Field>, a: seq<byte>)
    ensures EmitAll(0, fs + [Raw(a)]) == EmitAll(0, fs) + a
  {
    hide EmitAll;
    var p := End(0, fs);
    EmitAppend(0, fs, [Raw(a)]);
    EmitOne(p, Raw(a));
    NoPad(p);
    assert Zeros(0) + a == a;
  }

  /** Octets written in two pieces are the octets written in one. */
  lemma RawMerges(fs: seq<Field>, a: seq<byte>, b: seq<byte>)
    ensures EmitAll(0, (fs + [Raw(a)]) + [Raw(b)]) == EmitAll(0, fs + [Raw(a + b)])
  {
    hide EmitAll;
    RawEmits(fs, a);
    RawEmits(fs + [Raw(a)], b);
    RawEmits(fs, a + b);
    assert EmitAll(0, fs) + (a + b) == (EmitAll(0, fs) + a) + b;
  }

  /** The loop over the code units of a name. */
  method WriteUnits(w: NdrWriter, units: seq<u16>)
    requires w.Valid()
    modifies w
    ensures w.Valid() && w.fields == old(w.fields) + [Raw(Utf16.Octets(units))]
  {
    hide EmitAll;
    ghost var head := w.fields;
    RawEmits(head, []);
    w.fields := head + [Raw([])];
    for i := 0 to |units|
      invariant w.Valid() && w.fields == head + [Raw(Utf16.Octets(units[..i]))]
    {
      var pair: seq<byte> := [units[i] % 256, units[i] / 256];
      w.WriteBytes(pair);
      assert units[..i + 1] == units[..i] + [units[i]];
      Utf16.OctetsAppend(units[..i], units[i]);
      RawMerges(head, Utf16.Octets(units[..i]), pair);
      w.fields := head + [Raw(Utf16.Octets(units[..i + 1]))];
    }
    assert units[..|units|] == units;
  }

  method EncodeText(w: NdrWriter, name: string)
    requires w.Valid()
    modifies w
    ensures w.Valid() && w.fields == old(w.fields) + TextFields(name)
  {
    hide EmitAll, Utf16.Encoded, Utf16.Octets;
    var units := Utf16.Encoded(name);
    w.WriteU32(AsU32(|units|));
    WriteUnits(w, units);
    w.WriteBytes([0, 0]);
    w.AlignTo(4);
  }

  method EncodeDsName(w: NdrWriter, d: DsName)
    requires w.Valid()
    modifies w
    ensures w.Valid() && w.fields == old(w.fields) + DsNameFields(d)
  {
    hide EmitAll, TextFields, Utf16.Encoded;
    w.WriteU32(AsU32(StructLen(d)));
    w.WriteU32(AsU32(|d.sid|));
    w.WriteUuid(d.guid);
    ghost var head := w.fields;
    if d.sid != [] {
      w.WriteBytes(d.sid);
      w.AlignTo(4);
    }
    assert w.fields == head + PaddedFields(d.sid);
    EncodeText(w, d.name);
    assert w.fields == head + (PaddedFields(d.sid) + TextFields(d.name));
  }

  method EncodeLimits(w: NdrWriter, l: Limits)
    requires w.Valid()
    modifies w
    ensures w.Valid() && w.fields == old(w.fields) + LimitsFields(l)
  {
    hide EmitAll;
    w.WriteU32(l.flags);
    w.WriteU32(l.maxObjects);
    w.WriteU32(l.maxBytes);
    w.WriteU32(l.extendedOp);
    w.WriteU64(l.fsmoInfo);
  }

  method EncodeRequest(w: NdrWriter, q: Request)
    requires w.Valid()
    modifies w
    ensures w.Valid() && w.fields == old(w.fields) + RequestFields(q)
  {
    hide EmitAll, LimitsFields, DsNameFields, VectorFields;
    w.WriteUuid(q.dsa);
    w.WriteUuid(q.invocation);
    w.WriteU32(NON_NULL);
    ghost var head := w.fields;
    w.WriteU64(q.usn.objectUpdate);
    w.WriteU64(q.usn.propertyUpdate);
    assert w.fields == head + UsnFields(q.usn);
    w.WriteU32(NON_NULL);
    EncodeLimits(w, q.limits);
    EncodeDsName(w, q.nc);
    EncodeVector(w, q.utd);
    assert w.fields == head + (UsnFields(q.usn) + ([U32(NON_NULL)] + (LimitsFields(q.limits) +
                       (DsNameFields(q.nc) + VectorFields(q.utd)))));
  }

  method EncodeAttribute(w: NdrWriter, a: Attribute)
    requires w.Valid()
    modifies w
    ensures w.Valid() && w.fields == old(w.fields) + AttributeFields(a)
  {
    hide EmitAll, DsNameFields;
    w.WriteU32(NON_NULL);
    EncodeDsName(w, OfDn(a.name));
    ghost var head := w.fields;
    w.WriteU32(1);
    w.WriteU32(AsU32(|a.value|));
    w.WriteU32(0);
    w.WriteU32(AsU32(|a.value|));
    w.WriteBytes(a.value);
    w.AlignTo(4);
    assert w.fields == head + ([U32(1)] + ValueFields(a.value));
  }

  method EncodeAttributes(w: NdrWriter, attributes: seq<Attribute>)
    requires w.Valid()
    modifies w
    ensures w.Valid() && w.fields == old(w.fields) + ListFields(AttributeFields, attributes)
  {
    hide EmitAll, AttributeFields;
    for i := 0 to |attributes|
      invariant w.Valid() && w.fields == old(w.fields) + ListFields(AttributeFields, attributes[..i])
    {
      EncodeAttribute(w, attributes[i]);
      ListGrows(AttributeFields, attributes, i);
    }
    assert attributes[..|attributes|] == attributes;
  }

  method EncodeObject(w: NdrWriter, o: ReplObject)
    requires w.Valid()
    modifies w
    ensures w.Valid() && w.fields == old(w.fields) + ObjectFields(o)
  {
    hide EmitAll, DsNameFields, AttributeFields, ListFields;
    w.WriteU32(NON_NULL);
    EncodeDsName(w, ObjectName(o));
    ghost var named := w.fields;
    w.WriteU32(0);
    w.WriteU64(o.usn);
    w.WriteU32(AsU32(|o.attributes|));
    EncodeAttributes(w, o.attributes);
    assert w.fields == named + ([U32(0)] + ([U64(o.usn)] + ([U32(AsU32(|o.attributes|))] +
                       ListFields(AttributeFields, o.attributes))));
  }

  method EncodeObjects(w: NdrWriter, objects: seq<ReplObject>)
    requires w.Valid()
    modifies w
    ensures w.Valid() && w.fields == old(w.fields) + ListFields(ObjectFields, objects)
  {
    hide EmitAll, ObjectFields;
    for i := 0 to |objects|
      invariant w.Valid() && w.fields == old(w.fields) + ListFields(ObjectFields, objects[..i])
    {
      EncodeObject(w, objects[i]);
      ListGrows(ObjectFields, objects, i);
    }
    assert objects[..|objects|] == objects;
  }

  method EncodeTail(w: NdrWriter, more: bool, utd: Vector)
    requires w.Valid()
    modifies w
    ensures w.Valid() && w.fields == old(w.fields) + TailFields(more, utd)
  {
    hide EmitAll, VectorFields;
    w.WriteU8(if more then 1 else 0);
    w.AlignTo(4);
    w.WriteU32(NON_NULL);
    EncodeVector(w, utd);
  }

  method EncodeReply(w: NdrWriter, y: Reply)
    requires w.Valid()
    modifies w
    ensures w.Valid() && w.fields == old(w.fields) + ReplyFields(y)
  {
    hide EmitAll, ListFields, TailFields;
    w.WriteU32(y.numObjects);
    w.WriteU32(y.numNcs);
    w.WriteU32(AsU32(|y.objects|));
    EncodeObjects(w, y.objects);
    EncodeTail(w, y.more, y.utd);
  }

  // ---- Reading ----

  method DecodeExtensions(r: NdrReader) returns (got: Result<Extensions, NdrError>)
    modifies r
    ensures Agrees(ExtensionsAt(r.buf, old(r.pos)), got, r.pos)
  {
    hide ReadU32, ReadUuid, Take, SkipTo;
    var size :- r.ReadWord();
    if size < EXTENSIONS_BODY_SIZE {
      return Err(BadCount);
    }
    var flags :- r.ReadWord();
    var site :- r.ReadGuid();
    var pid :- r.ReadWord();
    var epoch :- r.ReadWord();
    var flagsExt :- r.ReadWord();
    var extra :- r.ReadBytes(size - EXTENSIONS_BODY_SIZE);
    var _ :- r.AlignTo(4);
    got := Ok(Extensions(flags, site, pid, epoch, flagsExt, extra));
  }

  method DecodeEntry(r: NdrReader) returns (got: Result<UtdEntry, NdrError>)
    modifies r
    ensures Agrees(EntryAt(r.buf, old(r.pos)), got, r.pos)
  {
    hide ReadU64, ReadUuid;
    var high :- r.ReadLong();
    var low :- r.ReadLong();
    var dsa :- r.ReadGuid();
    got := Ok(UtdEntry(high, low, dsa));
  }

  method DecodeVector(r: NdrReader) returns (got: Result<Vector, NdrError>)
    modifies r
    ensures Agrees(VectorAt(r.buf, old(r.pos)), got, r.pos)
  {
    hide ReadU32, EntryAt;
    var n :- r.ReadWord();
    var version :- r.ReadWord();
    var _ :- r.ReadWord();
    ghost var start := r.pos;
    var entries: seq<UtdEntry> := [];
    for i := 0 to n
      invariant ListAt(EntryAt, i, r.buf, start) == Ok((entries, r.pos))
    {
      var e := DecodeEntry(r);
      if e.Err? {
        ListAtFails(EntryAt, i + 1, n, r.buf, start);
        return Err(e.error);
      }
      entries := entries + [e.value];
    }
    got := Ok(Vector(version, entries));
  }

  method DecodeDsName(r: NdrReader) returns (got: Result<DsName, NdrError>)
    modifies r
    ensures Agrees(DsNameAt(r.buf, old(r.pos)), got, r.pos)
  {
    hide ReadU32, ReadUuid, Take, SkipTo, Utf16.Decoded, Utf16.Pairs;
    var _ :- r.ReadWord();
    var size :- r.ReadWord();
    var guid :- r.ReadGuid();
    var sid: seq<byte> := [];
    if size > 0 {
      sid :- r.ReadBytes(size);
      var _ :- r.AlignTo(4);
    }
    var count :- r.ReadWord();
    var length: int := count;
    var octets :- r.ReadBytes(2 * length);
    var nul :- r.ReadBytes(2);
    if nul != [0, 0] {
      return Err(BadText);
    }
    var _ :- r.AlignTo(4);
    match Utf16.Decoded(Utf16.Pairs(octets))
    case None => return Err(BadText);
    case Some(name) => got := Ok(DsName(guid, sid, name));
  }

  method DecodeRequest(r: NdrReader) returns (got: Result<Request, NdrError>)
    modifies r
    ensures Agrees(RequestAt(r.buf, old(r.pos)), got, r.pos)
  {
    hide ReadU32, ReadU64, ReadUuid, DsNameAt, VectorAt;
    var dsa :- r.ReadGuid();
    var invocation :- r.ReadGuid();
    var ncRef :- r.ReadWord();
    var o :- r.ReadLong();
    var q :- r.ReadLong();
    var utdRef :- r.ReadWord();
    var flags :- r.ReadWord();
    var maxObjects :- r.ReadWord();
    var maxBytes :- r.ReadWord();
    var extendedOp :- r.ReadWord();
    var fsmoInfo :- r.ReadLong();
    var nc := OfDn([]);
    if ncRef != 0 {
      nc :- DecodeDsName(r);
    }
    var utd := Vector(0, []);
    if utdRef != 0 {
      utd :- DecodeVector(r);
    }
    var limits := Limits(flags, maxObjects, maxBytes, extendedOp, fsmoInfo);
    got := Ok(Request(dsa, invocation, nc, UsnVector(o, q), utd, limits));
  }

  method DecodeAttribute(r: NdrReader) returns (got: Result<Attribute, NdrError>)
    modifies r
    ensures Agrees(AttributeAt(r.buf, old(r.pos)), got, r.pos)
  {
    hide ReadU32, Take, SkipTo, DsNameAt;
    var ref :- r.ReadWord();
    var d := OfDn([]);
    if ref != 0 {
      d :- DecodeDsName(r);
    }
    var _ :- r.ReadWord();
    var max :- r.ReadWord();
    var _ :- r.ReadWord();
    var actual :- r.ReadWord();
    var size := if actual < max then actual else max;
    var value: seq<byte> := [];
    if size > 0 {
      value :- r.ReadBytes(size);
      var _ :- r.AlignTo(4);
    }
    got := Ok(Attribute(d.name, value));
  }

  method DecodeObject(r: NdrReader) returns (got: Result<ReplObject, NdrError>)
    modifies r
    ensures Agrees(ObjectAt(r.buf, old(r.pos)), got, r.pos)
  {
    hide ReadU32, ReadU64, DsNameAt, AttributeAt;
    var ref :- r.ReadWord();
    var d := OfDn([]);
    if ref != 0 {
      d :- DecodeDsName(r);
    }
    var _ :- r.ReadWord();
    var usn :- r.ReadLong();
    var n :- r.ReadWord();
    ghost var start := r.pos;
    var attributes: seq<Attribute> := [];
    for i := 0 to n
      invariant ListAt(AttributeAt, i, r.buf, start) == Ok((attributes, r.pos))
    {
      var a := DecodeAttribute(r);
      if a.Err? {
        ListAtFails(AttributeAt, i + 1, n, r.buf, start);
        return Err(a.error);
      }
      attributes := attributes + [a.value];
    }
    got := Ok(ReplObject(d.name, d.guid, usn, attributes));
  }

  method DecodeReply(r: NdrReader) returns (got: Result<Reply, NdrError>)
    modifies r
    ensures Agrees(ReplyAt(r.buf, old(r.pos)), got, r.pos)
  {
    hide ReadU8, ReadU32, SkipTo, VectorAt, ObjectAt;
    var numObjects :- r.ReadWord();
    var numNcs :- r.ReadWord();
    var n :- r.ReadWord();
    ghost var start := r.pos;
    var objects: seq<ReplObject> := [];
    for i := 0 to n
      invariant ListAt(ObjectAt, i, r.buf, start) == Ok((objects, r.pos))
    {
      var o := DecodeObject(r);
      if o.Err? {
        ListAtFails(ObjectAt, i + 1, n, r.buf, start);
        return Err(o.error);
      }
      objects := objects + [o.value];
    }
    var flag :- r.ReadOctet();
    var _ :- r.AlignTo(4);
    var ref :- r.ReadWord();
    var utd := Vector(0, []);
    if ref != 0 {
      utd :- DecodeVector(r);
    }
    got := Ok(Reply(numObjects, numNcs, objects, flag != 0, utd));
  }
}
