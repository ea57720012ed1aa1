/** The replication structures of MS-DRSR in the form this implementation puts on the wire. Each has
    the list of fields its encoder writes, a position-indexed decoder, and the condition under which
    the two undo each other inside any surrounding buffer. */
module Drsuapi {
  import opened Bytes
  import opened Ndr
  import opened Replication
  import Utf16

  const NON_NULL: u32 := 0x0002_0000
  const EXTENSIONS_BODY_SIZE: u32 := 32

  predicate Counts(n: int) {
    n < 0x1_0000_0000
  }

  // ---- DRS_EXTENSIONS ----

  datatype Extensions =
    Extensions(flags: u32, site: Uuid, pid: u32, epoch: u32, flagsExt: u32, extra: seq<byte>)

  /** The part of the block after the site. */
  datatype Epoch = Epoch(pid: u32, epoch: u32, flagsExt: u32, extra: seq<byte>)

  function EpochFields(e: Epoch): (fs: seq<Field>)
  {
    [U32(e.pid)] + ([U32(e.epoch)] + ([U32(e.flagsExt)] + ([Raw(e.extra)] + ([Align(4)] + []))))
  }

  function EpochAt(buf: seq<byte>, pos: nat, size: nat): (r: Read<Epoch>)
    ensures r.Ok? ==> |r.value.0.extra| == size
  {
    var (pid, p) :- ReadU32(buf, pos);
    var (epoch, p) :- ReadU32(buf, p);
    var (flagsExt, p) :- ReadU32(buf, p);
    var (extra, p) :- Take(buf, p, size);
    var p :- SkipTo(buf, p, 4);
    Ok((Epoch(pid, epoch, flagsExt, extra), p))
  }

  lemma EpochReadsBack(buf: seq<byte>, pos: nat, e: Epoch)
    requires At(buf, pos, EmitAll(pos, EpochFields(e)))
    ensures EpochAt(buf, pos, |e.extra|) == Ok((e, End(pos, EpochFields(e))))
  {
    hide EmitAll, Emit, ReadU32, Take, SkipTo, At;
    var f3 := [Raw(e.extra)] + ([Align(4)] + []);
    var f2 := [U32(e.flagsExt)] + f3;
    var f1 := [U32(e.epoch)] + f2;
    var p1 := Step(buf, pos, U32(e.pid), f1);
    var p2 := Step(buf, p1, U32(e.epoch), f2);
    var p3 := Step(buf, p2, U32(e.flagsExt), f3);
    var p4 := Step(buf, p3, Raw(e.extra), [Align(4)] + []);
    var p5 := Step(buf, p4, Align(4), []);
    EndOfNothing(p5);
  }

  function EpochOf(x: Extensions): (e: Epoch)
  {
    Epoch(x.pid, x.epoch, x.flagsExt, x.extra)
  }

  function ExtensionsFields(x: Extensions): (fs: seq<Field>)
  {
    [U32(AsU32(EXTENSIONS_BODY_SIZE + |x.extra|))] + ([U32(x.flags)] + ([Guid(x.site)] + EpochFields(EpochOf(x))))
  }

  function ExtensionsAt(buf: seq<byte>, pos: nat): (r: Read<Extensions>)
  {
    var (size, p) :- ReadU32(buf, pos);
    if size < EXTENSIONS_BODY_SIZE then Err(BadCount)
    else
      var (flags, p) :- ReadU32(buf, p);
      var (site, p) :- ReadUuid(buf, p);
      var (e, p) :- EpochAt(buf, p, size - EXTENSIONS_BODY_SIZE);
      Ok((Extensions(flags, site, e.pid, e.epoch, e.flagsExt, e.extra), p))
  }

  /** The extension block comes back exactly when its size field does not wrap around. */
  lemma ExtensionsReadBack(buf: seq<byte>, pos: nat, x: Extensions)
    requires At(buf, pos, EmitAll(pos, ExtensionsFields(x)))
    ensures ExtensionsAt(buf, pos) == Ok((x, End(pos, ExtensionsFields(x)))) <==>
            Counts(EXTENSIONS_BODY_SIZE + |x.extra|)
  {
    hide EmitAll, Emit, ReadU32, ReadUuid, EpochAt, EpochFields, At;
    if Counts(EXTENSIONS_BODY_SIZE + |x.extra|) {
      var f3 := EpochFields(EpochOf(x));
      var f2 := [Guid(x.site)] + f3;
      var f1 := [U32(x.flags)] + f2;
      var p1 := Step(buf, pos, U32(EXTENSIONS_BODY_SIZE + |x.extra|), f1);
      var p2 := Step(buf, p1, U32(x.flags), f2);
      var p3 := Step(buf, p2, Guid(x.site), f3);
      EpochReadsBack(buf, p3, EpochOf(x));
    }
  }

  // ---- UPTODATE_VECTOR ----

  datatype Vector = Vector(version: u32, entries: seq<UtdEntry>)

  function EntryFields(e: UtdEntry): (fs: seq<Field>)
  {
    [U64(e.usnHigh)] + ([U64(e.usnLow)] + ([Guid(e.dsa)] + []))
  }

  function EntryAt(buf: seq<byte>, pos: nat): (r: Read<UtdEntry>)
  {
    var (high, p) :- ReadU64(buf, pos);
    var (low, p) :- ReadU64(buf, p);
    var (dsa, p) :- ReadUuid(buf, p);
    Ok((UtdEntry(high, low, dsa), p))
  }

  lemma EntryReadsBack(buf: seq<byte>, pos: nat, e: UtdEntry)
    requires At(buf, pos, EmitAll(pos, EntryFields(e)))
    ensures EntryAt(buf, pos) == Ok((e, End(pos, EntryFields(e))))
  {
    hide EmitAll, Emit, ReadU64, ReadUuid, At;
    var f2 := [Guid(e.dsa)] + [];
    var f1 := [U64(e.usnLow)] + f2;
    var p1 := Step(buf, pos, U64(e.usnHigh), f1);
    var p2 := Step(buf, p1, U64(e.usnLow), f2);
    var p3 := Step(buf, p2, Guid(e.dsa), []);
    EndOfNothing(p3);
  }

  function VectorFields(v: Vector): (fs: seq<Field>)
  {
    [U32(AsU32(|v.entries|))] + ([U32(v.version)] + ([U32(0)] + ListFields(EntryFields, v.entries)))
  }

  function VectorAt(buf: seq<byte>, pos: nat): (r: Read<Vector>)
    ensures r.Ok? ==> Counts(|r.value.0.entries|)
  {
    var (n, p) :- ReadU32(buf, pos);
    var (version, p) :- ReadU32(buf, p);
    var (_, p) :- ReadU32(buf, p);
    var (entries, p) :- ListAt(EntryAt, n, buf, p);
    Ok((Vector(version, entries), p))
  }

  /** An up-to-dateness vector comes back exactly when its count fits 32 bits. */
  lemma VectorReadsBack(buf: seq<byte>, pos: nat, v: Vector)
    requires At(buf, pos, EmitAll(pos, VectorFields(v)))
    ensures VectorAt(buf, pos) == Ok((v, End(pos, VectorFields(v)))) <==> Counts(|v.entries|)
  {
    hide EmitAll, Emit, ReadU32, At, ListAt, ListFields;
    if Counts(|v.entries|) {
      var f3 := ListFields(EntryFields, v.entries);
      var f2 := [U32(0)] + f3;
      var f1 := [U32(v.version)] + f2;
      var p1 := Step(buf, pos, U32(|v.entries|), f1);
      var p2 := Step(buf, p1, U32(v.version), f2);
      var p3 := Step(buf, p2, U32(0), f3);
      forall x, p: nat | x in v.entries && At(buf, p, EmitAll(p, EntryFields(x)))
        ensures EntryAt(buf, p) == Ok((x, End(p, EntryFields(x))))
      {
        EntryReadsBack(buf, p, x);
      }
      ListReadsBack(EntryFields, EntryAt, buf, p3, v.entries);
    }
  }

  // ---- DSNAME ----

  datatype DsName = DsName(guid: Uuid, sid: seq<byte>, name: string)

  const NIL_GUID: Uuid := [0, 0, 0, 0, 0, 0, 0, 0, 0, 0, 0, 0, 0, 0, 0, 0]

  function OfDn(dn: string): (d: DsName)
  {
    DsName(NIL_GUID, [], dn)
  }

  /** The size of the structure; the decoder reads it and ignores it. */
  function StructLen(d: DsName): (n: nat)
  {
    28 + (|d.sid| + 3) / 4 * 4 + 2 * (|Utf16.Encoded(d.name)| + 1)
  }

  /** Octets padded to a multiple of four; nothing at all for no octets. */
  function PaddedFields(sid: seq<byte>): (fs: seq<Field>)
  {
    if sid == [] then [] else [Raw(sid)] + ([Align(4)] + [])
  }

  function PaddedAt(buf: seq<byte>, pos: nat, size: nat): (r: Read<seq<byte>>)
    ensures r.Ok? ==> |r.value.0| == size
  {
    if size == 0 then Ok(([], pos))
    else
      var (sid, p) :- Take(buf, pos, size);
      var p :- SkipTo(buf, p, 4);
      Ok((sid, p))
  }

  function TextFields(name: string): (fs: seq<Field>)
  {
    var units := Utf16.Encoded(name);
    [U32(AsU32(|units|))] + ([Raw(Utf16.Octets(units))] + ([Raw([0, 0])] + ([Align(4)] + [])))
  }

  function TextAt(buf: seq<byte>, pos: nat): (r: Read<string>)
  {
    var (size, p) :- ReadU32(buf, pos);
    var (octets, p) :- Take(buf, p, 2 * size);
    var (nul, p) :- Take(buf, p, 2);
    if nul != [0, 0] then Err(BadText)
    else
      var p :- SkipTo(buf, p, 4);
      match Utf16.Decoded(Utf16.Pairs(octets))
      case None => Err(BadText)
      case Some(name) => Ok((name, p))
  }

  function DsNameFields(d: DsName): (fs: seq<Field>)
  {
    [U32(AsU32(StructLen(d)))] + ([U32(AsU32(|d.sid|))] + ([Guid(d.guid)] + (PaddedFields(d.sid) + TextFields(d.name))))
  }

  function DsNameAt(buf: seq<byte>, pos: nat): (r: Read<DsName>)
  {
    var (_, p) :- ReadU32(buf, pos);
    var (size, p) :- ReadU32(buf, p);
    var (guid, p) :- ReadUuid(buf, p);
    var (sid, p) :- PaddedAt(buf, p, size);
    var (name, p) :- TextAt(buf, p);
    Ok((DsName(guid, sid, name), p))
  }

  predicate DsNameFits(d: DsName) {
    Counts(|d.sid|) && Counts(|Utf16.Encoded(d.name)|)
  }

  lemma PaddedReadsBack(buf: seq<byte>, pos: nat, sid: seq<byte>)
    requires At(buf, pos, EmitAll(pos, PaddedFields(sid)))
    ensures PaddedAt(buf, pos, |sid|) == Ok((sid, End(pos, PaddedFields(sid))))
  {
    hide EmitAll, Emit, Take, SkipTo, At;
    if sid == [] {
      EndOfNothing(pos);
    } else {
      var p1 := Step(buf, pos, Raw(sid), [Align(4)] + []);
      var p2 := Step(buf, p1, Align(4), []);
      EndOfNothing(p2);
    }
  }

  lemma TextReadsBack(buf: seq<byte>, pos: nat, name: string)
    requires At(buf, pos, EmitAll(pos, TextFields(name))) && Counts(|Utf16.Encoded(name)|)
    ensures TextAt(buf, pos) == Ok((name, End(pos, TextFields(name))))
  {
    hide EmitAll, Emit, ReadU32, Take, SkipTo, At, Utf16.Encoded, Utf16.Decoded, Utf16.Octets, Utf16.Pairs;
    var units := Utf16.Encoded(name);
    var f3 := [Align(4)] + [];
    var f2 := [Raw([0, 0])] + f3;
    var f1 := [Raw(Utf16.Octets(units))] + f2;
    var p1 := Step(buf, pos, U32(|units|), f1);
    var p2 := Step(buf, p1, Raw(Utf16.Octets(units)), f2);
    var p3 := Step(buf, p2, Raw([0, 0]), f3);
    var p4 := Step(buf, p3, Align(4), []);
    EndOfNothing(p4);
    Utf16.TextRoundTrip(name);
    Utf16.PairsOfOctets(units);
  }

  /** Whatever text is decoded had a count of code units that fits its field. */
  lemma TextAtFits(buf: seq<byte>, pos: nat)
    ensures TextAt(buf, pos).Ok? ==> Counts(|Utf16.Encoded(TextAt(buf, pos).value.0)|)
  {
    hide Utf16.Encoded, Utf16.Decoded, Utf16.Pairs;
    if TextAt(buf, pos).Ok? {
      var (size, p) := ReadU32(buf, pos).value;
      var (octets, _) := Take(buf, p, 2 * size).value;
      Utf16.UnitsRoundTrip(Utf16.Pairs(octets));
    }
  }

  /** A distinguished name structure comes back exactly when both its counts fit 32 bits. */
  lemma DsNameReadsBack(buf: seq<byte>, pos: nat, d: DsName)
    requires At(buf, pos, EmitAll(pos, DsNameFields(d)))
    ensures DsNameAt(buf, pos) == Ok((d, End(pos, DsNameFields(d)))) <==> DsNameFits(d)
  {
    hide EmitAll, Emit, ReadU32, ReadUuid, At, PaddedAt, PaddedFields, TextAt, TextFields, Utf16.Encoded;
    if DsNameFits(d) {
      var f3 := PaddedFields(d.sid) + TextFields(d.name);
      var f2 := [Guid(d.guid)] + f3;
      var f1 := [U32(|d.sid|)] + f2;
      var p1 := Step(buf, pos, U32(AsU32(StructLen(d))), f1);
      var p2 := Step(buf, p1, U32(|d.sid|), f2);
      var p3 := Step(buf, p2, Guid(d.guid), f3);
      SplitParts(buf, p3, PaddedFields(d.sid), TextFields(d.name));
      PaddedReadsBack(buf, p3, d.sid);
      TextReadsBack(buf, End(p3, PaddedFields(d.sid)), d.name);
    } else {
      DsNameAtFits(buf, pos);
    }
  }

  lemma DsNameAtFits(buf: seq<byte>, pos: nat)
    ensures DsNameAt(buf, pos).Ok? ==> DsNameFits(DsNameAt(buf, pos).value.0)
  {
    hide ReadU32, ReadUuid, PaddedAt, TextAt, Utf16.Encoded;
    if DsNameAt(buf, pos).Ok? {
      var p1 := ReadU32(buf, pos).value.1;
      var (size, p2) := ReadU32(buf, p1).value;
      var p3 := ReadUuid(buf, p2).value.1;
      TextAtFits(buf, PaddedAt(buf, p3, size).value.1);
    }
  }

  /** Padding is counted from the last boundary. */
  lemma PadFrom(pos: nat, k: nat)
    requires pos % 4 == 0
    ensures Pad(pos + k, 4) == Pad(k, 4)
  {
  }

  lemma PaddedUp(k: nat)
    ensures k + Pad(k, 4) == (k + 3) / 4 * 4
  {
  }

  lemma WordSize(pos: nat, n: u32)
    requires pos % 4 == 0
    ensures |Emit(pos, U32(n))| == 4
  {
  }

  lemma PlainSize(pos: nat, f: Field)
    requires f.Raw? || f.Guid?
    ensures |Emit(pos, f)| == if f.Raw? then |f.octets| else 16
  {
  }

  lemma AlignSize(pos: nat)
    ensures |Emit(pos, Align(4))| == Pad(pos, 4)
  {
  }

  lemma PaddedSize(pos: nat, sid: seq<byte>)
    requires pos % 4 == 0
    ensures End(pos, PaddedFields(sid)) == pos + (|sid| + 3) / 4 * 4
  {
    hide EmitAll, Emit, Pad;
    if sid == [] {
      EndOfNothing(pos);
    } else {
      EmitCons(pos, Raw(sid), [Align(4)] + []);
      PlainSize(pos, Raw(sid));
      EmitCons(pos + |sid|, Align(4), []);
      AlignSize(pos + |sid|);
      PadFrom(pos, |sid|);
      PaddedUp(|sid|);
      EndOfNothing(pos + (|sid| + 3) / 4 * 4);
    }
  }

  lemma TextSize(pos: nat, name: string)
    requires pos % 4 == 0
    ensures var k := 4 + 2 * (|Utf16.Encoded(name)| + 1);
            End(pos, TextFields(name)) == pos + k + Pad(k, 4)
  {
    hide EmitAll, Emit, Pad, Utf16.Encoded, Utf16.Octets, AsU32;
    var units := Utf16.Encoded(name);
    var octets := Utf16.Octets(units);
    var f3 := [Align(4)] + [];
    var f2 := [Raw([0, 0])] + f3;
    EmitCons(pos, U32(AsU32(|units|)), [Raw(octets)] + f2);
    WordSize(pos, AsU32(|units|));
    EmitCons(pos + 4, Raw(octets), f2);
    PlainSize(pos + 4, Raw(octets));
    var p := pos + 4 + |octets|;
    EmitCons(p, Raw([0, 0]), f3);
    PlainSize(p, Raw([0, 0]));
    EmitCons(p + 2, Align(4), []);
    AlignSize(p + 2);
    PadFrom(pos, 4 + |octets| + 2);
    EndOfNothing(p + 2 + Pad(p + 2, 4));
  }

  /** The length field of a distinguished name structure counts its octets up to the terminator of the name,
      not the padding behind it. So it is the size of the structure exactly when the name has an odd number of
      code units. */
  lemma DsNameSize(pos: nat, d: DsName)
    requires pos % 4 == 0
    ensures End(pos, DsNameFields(d)) == pos + StructLen(d) + Pad(StructLen(d), 4)
    ensures End(pos, DsNameFields(d)) == pos + StructLen(d) <==> |Utf16.Encoded(d.name)| % 2 == 1
  {
    hide EmitAll, Emit, Pad, AsU32, Utf16.Encoded, PaddedFields, TextFields;
    var f3 := PaddedFields(d.sid) + TextFields(d.name);
    var f2 := [Guid(d.guid)] + f3;
    EmitCons(pos, U32(AsU32(StructLen(d))), [U32(AsU32(|d.sid|))] + f2);
    WordSize(pos, AsU32(StructLen(d)));
    EmitCons(pos + 4, U32(AsU32(|d.sid|)), f2);
    WordSize(pos + 4, AsU32(|d.sid|));
    EmitCons(pos + 8, Guid(d.guid), f3);
    PlainSize(pos + 8, Guid(d.guid));
    EmitAppend(pos + 24, PaddedFields(d.sid), TextFields(d.name));
    PaddedSize(pos + 24, d.sid);
    var up := (|d.sid| + 3) / 4 * 4;
    TextSize(pos + 24 + up, d.name);
    var k := 4 + 2 * (|Utf16.Encoded(d.name)| + 1);
    PadFrom(24 + up, k);
    OddUnits(d.sid, |Utf16.Encoded(d.name)|);
  }

  lemma OddUnits(sid: seq<byte>, units: nat)
    ensures Pad(28 + (|sid| + 3) / 4 * 4 + 2 * (units + 1), 4) == 0 <==> units % 2 == 1
  {
    PadFrom(28 + (|sid| + 3) / 4 * 4, 2 * (units + 1));
  }

  // ---- USN_VECTOR and the request ----

  datatype UsnVector = UsnVector(objectUpdate: u64, propertyUpdate: u64)

  function UsnFields(u: UsnVector): (fs: seq<Field>)
  {
    [U64(u.objectUpdate)] + ([U64(u.propertyUpdate)] + [])
  }

  function UsnAt(buf: seq<byte>, pos: nat): (r: Read<UsnVector>)
  {
    var (o, p) :- ReadU64(buf, pos);
    var (q, p) :- ReadU64(buf, p);
    Ok((UsnVector(o, q), p))
  }

  lemma UsnReadsBack(buf: seq<byte>, pos: nat, u: UsnVector)
    requires At(buf, pos, EmitAll(pos, UsnFields(u)))
    ensures UsnAt(buf, pos) == Ok((u, End(pos, UsnFields(u))))
  {
    hide EmitAll, Emit, ReadU64, At;
    var p1 := Step(buf, pos, U64(u.objectUpdate), [U64(u.propertyUpdate)] + []);
    var p2 := Step(buf, p1, U64(u.propertyUpdate), []);
    EndOfNothing(p2);
  }

  /** The scalars that follow the second reference of a request. */
  datatype Limits = Limits(flags: u32, maxObjects: u32, maxBytes: u32, extendedOp: u32, fsmoInfo: u64)

  function LimitsFields(l: Limits): (fs: seq<Field>)
  {
    [U32(l.flags)] + ([U32(l.maxObjects)] + ([U32(l.maxBytes)] + ([U32(l.extendedOp)] + ([U64(l.fsmoInfo)] + []))))
  }

  function LimitsAt(buf: seq<byte>, pos: nat): (r: Read<Limits>)
  {
    var (flags, p) :- ReadU32(buf, pos);
    var (maxObjects, p) :- ReadU32(buf, p);
    var (maxBytes, p) :- ReadU32(buf, p);
    var (extendedOp, p) :- ReadU32(buf, p);
    var (fsmoInfo, p) :- ReadU64(buf, p);
    Ok((Limits(flags, maxObjects, maxBytes, extendedOp, fsmoInfo), p))
  }

  lemma LimitsReadBack(buf: seq<byte>, pos: nat, l: Limits)
    requires At(buf, pos, EmitAll(pos, LimitsFields(l)))
    ensures LimitsAt(buf, pos) == Ok((l, End(pos, LimitsFields(l))))
  {
    hide EmitAll, Emit, ReadU32, ReadU64, At;
    var f4 := [U64(l.fsmoInfo)] + [];
    var f3 := [U32(l.extendedOp)] + f4;
    var f2 := [U32(l.maxBytes)] + f3;
    var f1 := [U32(l.maxObjects)] + f2;
    var p1 := Step(buf, pos, U32(l.flags), f1);
    var p2 := Step(buf, p1, U32(l.maxObjects), f2);
    var p3 := Step(buf, p2, U32(l.maxBytes), f3);
    var p4 := Step(buf, p3, U32(l.extendedOp), f4);
    var p5 := Step(buf, p4, U64(l.fsmoInfo), []);
    EndOfNothing(p5);
  }

  datatype Request =
    Request(dsa: Uuid, invocation: Uuid, nc: DsName, usn: UsnVector, utd: Vector, limits: Limits)

  function RequestFields(q: Request): (fs: seq<Field>)
  {
    [Guid(q.dsa)] + ([Guid(q.invocation)] + ([U32(NON_NULL)] + (UsnFields(q.usn) + ([U32(NON_NULL)] +
    (LimitsFields(q.limits) + (DsNameFields(q.nc) + VectorFields(q.utd)))))))
  }

  /** A pointed-to structure, or its default when the reference is null. */
  function PointedAt<T>(at: (seq<byte>, nat) -> Read<T>, ref: u32, absent: T, buf: seq<byte>, pos: nat): (r: Read<T>)
  {
    if ref != 0 then at(buf, pos) else Ok((absent, pos))
  }

  function RequestAt(buf: seq<byte>, pos: nat): (r: Read<Request>)
  {
    var (dsa, p) :- ReadUuid(buf, pos);
    var (invocation, p) :- ReadUuid(buf, p);
    var (ncRef, p) :- ReadU32(buf, p);
    var (usn, p) :- UsnAt(buf, p);
    var (utdRef, p) :- ReadU32(buf, p);
    var (limits, p) :- LimitsAt(buf, p);
    var (nc, p) :- PointedAt(DsNameAt, ncRef, OfDn([]), buf, p);
    var (utd, p) :- PointedAt(VectorAt, utdRef, Vector(0, []), buf, p);
    Ok((Request(dsa, invocation, nc, usn, utd, limits), p))
  }

  predicate RequestFits(q: Request) {
    DsNameFits(q.nc) && Counts(|q.utd.entries|)
  }

  /** A change request comes back exactly when the counts inside its pointed-to structures fit. */
  lemma RequestReadsBack(buf: seq<byte>, pos: nat, q: Request)
    requires At(buf, pos, EmitAll(pos, RequestFields(q)))
    ensures RequestAt(buf, pos) == Ok((q, End(pos, RequestFields(q)))) <==> RequestFits(q)
  {
    hide EmitAll, Emit, ReadU32, ReadUuid, At, UsnAt, LimitsAt, DsNameAt, VectorAt, UsnFields, LimitsFields;
    hide DsNameFields, VectorFields, DsNameFits;
    if RequestFits(q) {
      var f6 := DsNameFields(q.nc) + VectorFields(q.utd);
      var f5 := LimitsFields(q.limits) + f6;
      var f4 := [U32(NON_NULL)] + f5;
      var f3 := UsnFields(q.usn) + f4;
      var f2 := [U32(NON_NULL)] + f3;
      var f1 := [Guid(q.invocation)] + f2;
      var p1 := Step(buf, pos, Guid(q.dsa), f1);
      var p2 := Step(buf, p1, Guid(q.invocation), f2);
      var p3 := Step(buf, p2, U32(NON_NULL), f3);
      SplitParts(buf, p3, UsnFields(q.usn), f4);
      UsnReadsBack(buf, p3, q.usn);
      var p4 := End(p3, UsnFields(q.usn));
      var p5 := Step(buf, p4, U32(NON_NULL), f5);
      SplitParts(buf, p5, LimitsFields(q.limits), f6);
      LimitsReadBack(buf, p5, q.limits);
      var p6 := End(p5, LimitsFields(q.limits));
      SplitParts(buf, p6, DsNameFields(q.nc), VectorFields(q.utd));
      DsNameReadsBack(buf, p6, q.nc);
      VectorReadsBack(buf, End(p6, DsNameFields(q.nc)), q.utd);
    } else {
      RequestAtFits(buf, pos);
    }
  }

  lemma PointedNameFits(buf: seq<byte>, pos: nat, ref: u32)
    ensures var r := PointedAt(DsNameAt, ref, OfDn([]), buf, pos); r.Ok? ==> DsNameFits(r.value.0)
  {
    hide DsNameAt;
    DsNameAtFits(buf, pos);
  }

  lemma RequestAtFits(buf: seq<byte>, pos: nat)
    ensures RequestAt(buf, pos).Ok? ==> RequestFits(RequestAt(buf, pos).value.0)
  {
    hide ReadU32, ReadUuid, UsnAt, LimitsAt, DsNameAt, VectorAt, DsNameFits;
    if RequestAt(buf, pos).Ok? {
      var p1 := ReadUuid(buf, pos).value.1;
      var p2 := ReadUuid(buf, p1).value.1;
      var (ref, p3) := ReadU32(buf, p2).value;
      var p4 := UsnAt(buf, p3).value.1;
      var p5 := ReadU32(buf, p4).value.1;
      PointedNameFits(buf, LimitsAt(buf, p5).value.1, ref);
    }
  }

  // ---- Replicated objects ----

  datatype Attribute = Attribute(name: string, value: seq<byte>)

  datatype ReplObject = ReplObject(dn: string, uuid: Uuid, usn: u64, attributes: seq<Attribute>)

  function ValueFields(v: seq<byte>): (fs: seq<Field>)
  {
    [U32(AsU32(|v|))] + ([U32(0)] + ([U32(AsU32(|v|))] + ([Raw(v)] + ([Align(4)] + []))))
  }

  function ValueAt(buf: seq<byte>, pos: nat): (r: Read<seq<byte>>)
    ensures r.Ok? ==> Counts(|r.value.0|)
  {
    var (max, p) :- ReadU32(buf, pos);
    var (_, p) :- ReadU32(buf, p);
    var (actual, p) :- ReadU32(buf, p);
    PaddedAt(buf, p, if actual < max then actual else max)
  }

  /** The writer pads after an empty value as well, the reader does not; they agree because a word has
      just been read. */
  lemma ValueReadsBack(buf: seq<byte>, pos: nat, v: seq<byte>)
    requires At(buf, pos, EmitAll(pos, ValueFields(v)))
    ensures ValueAt(buf, pos) == Ok((v, End(pos, ValueFields(v)))) <==> Counts(|v|)
  {
    hide EmitAll, Emit, ReadU32, PaddedAt, At;
    if Counts(|v|) {
      var f3 := [Raw(v)] + ([Align(4)] + []);
      var f2 := [U32(|v|)] + f3;
      var f1 := [U32(0)] + f2;
      var p1 := Step(buf, pos, U32(|v|), f1);
      var p2 := Step(buf, p1, U32(0), f2);
      var p3 := Step(buf, p2, U32(|v|), f3);
      ValueOctetsReadBack(buf, p3, v);
    }
  }

  lemma ValueOctetsReadBack(buf: seq<byte>, pos: nat, v: seq<byte>)
    requires At(buf, pos, EmitAll(pos, [Raw(v)] + ([Align(4)] + []))) && pos % 4 == 0
    ensures PaddedAt(buf, pos, |v|) == Ok((v, End(pos, [Raw(v)] + ([Align(4)] + []))))
  {
    hide EmitAll, Take, SkipTo, At;
    var p1 := Step(buf, pos, Raw(v), [Align(4)] + []);
    var p2 := Step(buf, p1, Align(4), []);
    EndOfNothing(p2);
    assert v == [] ==> p1 == pos && p2 == pos;
  }

  function AttributeFields(a: Attribute): (fs: seq<Field>)
  {
    [U32(NON_NULL)] + (DsNameFields(OfDn(a.name)) + ([U32(1)] + ValueFields(a.value)))
  }

  function AttributeAt(buf: seq<byte>, pos: nat): (r: Read<Attribute>)
  {
    var (ref, p) :- ReadU32(buf, pos);
    var (d, p) :- PointedAt(DsNameAt, ref, OfDn([]), buf, p);
    var (_, p) :- ReadU32(buf, p);
    var (value, p) :- ValueAt(buf, p);
    Ok((Attribute(d.name, value), p))
  }

  predicate AttributeFits(a: Attribute) {
    Counts(|Utf16.Encoded(a.name)|) && Counts(|a.value|)
  }

  /** An attribute comes back exactly when its name's code-unit count and its value's length fit. */
  lemma AttributeReadsBack(buf: seq<byte>, pos: nat, a: Attribute)
    requires At(buf, pos, EmitAll(pos, AttributeFields(a)))
    ensures AttributeAt(buf, pos) == Ok((a, End(pos, AttributeFields(a)))) <==> AttributeFits(a)
  {
    hide EmitAll, Emit, ReadU32, At, DsNameAt, ValueAt, DsNameFields, ValueFields;
    if AttributeFits(a) {
      var d := OfDn(a.name);
      var f2 := [U32(1)] + ValueFields(a.value);
      var p1 := Step(buf, pos, U32(NON_NULL), DsNameFields(d) + f2);
      SplitParts(buf, p1, DsNameFields(d), f2);
      DsNameReadsBack(buf, p1, d);
      var p2 := Step(buf, End(p1, DsNameFields(d)), U32(1), ValueFields(a.value));
      ValueReadsBack(buf, p2, a.value);
    } else {
      AttributeAtFits(buf, pos);
    }
  }

  lemma AttributeAtFits(buf: seq<byte>, pos: nat)
    ensures AttributeAt(buf, pos).Ok? ==> AttributeFits(AttributeAt(buf, pos).value.0)
  {
    hide ReadU32, DsNameAt, ValueAt;
    forall p: nat
      ensures DsNameAt(buf, p).Ok? ==> DsNameFits(DsNameAt(buf, p).value.0)
    {
      DsNameAtFits(buf, p);
    }
  }

  function ObjectName(o: ReplObject): (d: DsName)
  {
    DsName(o.uuid, [], o.dn)
  }

  function ObjectFields(o: ReplObject): (fs: seq<Field>)
  {
    [U32(NON_NULL)] + (DsNameFields(ObjectName(o)) + ([U32(0)] + ([U64(o.usn)] + ([U32(AsU32(|o.attributes|))] +
    ListFields(AttributeFields, o.attributes)))))
  }

  function ObjectAt(buf: seq<byte>, pos: nat): (r: Read<ReplObject>)
  {
    var (ref, p) :- ReadU32(buf, pos);
    var (d, p) :- PointedAt(DsNameAt, ref, OfDn([]), buf, p);
    var (_, p) :- ReadU32(buf, p);
    var (usn, p) :- ReadU64(buf, p);
    var (n, p) :- ReadU32(buf, p);
    var (attributes, p) :- ListAt(AttributeAt, n, buf, p);
    Ok((ReplObject(d.name, d.guid, usn, attributes), p))
  }

  predicate ObjectFits(o: ReplObject) {
    Counts(|Utf16.Encoded(o.dn)|) && Counts(|o.attributes|) && forall a | a in o.attributes :: AttributeFits(a)
  }

  lemma AttributesReadBack(buf: seq<byte>, pos: nat, attributes: seq<Attribute>)
    requires At(buf, pos, EmitAll(pos, ListFields(AttributeFields, attributes)))
    requires forall a | a in attributes :: AttributeFits(a)
    ensures ListAt(AttributeAt, |attributes|, buf, pos) ==
            Ok((attributes, End(pos, ListFields(AttributeFields, attributes))))
  {
    hide EmitAll, At, ListAt, ListFields, AttributeAt, AttributeFields, AttributeFits;
    forall x, p: nat | x in attributes && At(buf, p, EmitAll(p, AttributeFields(x)))
      ensures AttributeAt(buf, p) == Ok((x, End(p, AttributeFields(x))))
    {
      AttributeReadsBack(buf, p, x);
    }
    ListReadsBack(AttributeFields, AttributeAt, buf, pos, attributes);
  }

  /** An object with any attributes comes back exactly when every count in it fits 32 bits. */
  lemma ObjectReadsBack(buf: seq<byte>, pos: nat, o: ReplObject)
    requires At(buf, pos, EmitAll(pos, ObjectFields(o)))
    ensures ObjectAt(buf, pos) == Ok((o, End(pos, ObjectFields(o)))) <==> ObjectFits(o)
  {
    hide EmitAll, Emit, ReadU32, ReadU64, At, DsNameAt, DsNameFields, ListAt, ListFields, AttributeFits;
    if ObjectFits(o) {
      var d := ObjectName(o);
      var f4 := ListFields(AttributeFields, o.attributes);
      var f3 := [U32(|o.attributes|)] + f4;
      var f2 := [U64(o.usn)] + f3;
      var f1 := [U32(0)] + f2;
      var p1 := Step(buf, pos, U32(NON_NULL), DsNameFields(d) + f1);
      SplitParts(buf, p1, DsNameFields(d), f1);
      DsNameReadsBack(buf, p1, d);
      var p2 := Step(buf, End(p1, DsNameFields(d)), U32(0), f2);
      var p3 := Step(buf, p2, U64(o.usn), f3);
      var p4 := Step(buf, p3, U32(|o.attributes|), f4);
      AttributesReadBack(buf, p4, o.attributes);
    } else {
      ObjectAtFits(buf, pos);
    }
  }

  lemma ObjectAtFits(buf: seq<byte>, pos: nat)
    ensures ObjectAt(buf, pos).Ok? ==> ObjectFits(ObjectAt(buf, pos).value.0)
  {
    hide ReadU32, ReadU64, DsNameAt, AttributeAt, AttributeFits, ListAt;
    forall p: nat
      ensures DsNameAt(buf, p).Ok? ==> DsNameFits(DsNameAt(buf, p).value.0)
      ensures AttributeAt(buf, p).Ok? ==> AttributeFits(AttributeAt(buf, p).value.0)
    {
      DsNameAtFits(buf, p);
      AttributeAtFits(buf, p);
    }
    forall n: nat, p: nat
      ensures ListAt(AttributeAt, n, buf, p).Ok? ==>
                forall a | a in ListAt(AttributeAt, n, buf, p).value.0 :: AttributeFits(a)
    {
      ListAtEach(AttributeAt, AttributeFits, n, buf, p);
    }
  }

  // ---- The reply ----

  datatype Reply = Reply(numObjects: u32, numNcs: u32, objects: seq<ReplObject>, more: bool, utd: Vector)

  /** The flag, its padding, and the source's vector behind a reference. */
  function TailFields(more: bool, utd: Vector): (fs: seq<Field>)
  {
    [U8(if more then 1 else 0)] + ([Align(4)] + ([U32(NON_NULL)] + VectorFields(utd)))
  }

  function TailAt(buf: seq<byte>, pos: nat): (r: Read<(bool, Vector)>)
    ensures r.Ok? ==> Counts(|r.value.0.1.entries|)
  {
    var (flag, p) :- ReadU8(buf, pos);
    var p :- SkipTo(buf, p, 4);
    var (ref, p) :- ReadU32(buf, p);
    var (utd, p) :- PointedAt(VectorAt, ref, Vector(0, []), buf, p);
    Ok(((flag != 0, utd), p))
  }

  lemma TailReadsBack(buf: seq<byte>, pos: nat, more: bool, utd: Vector)
    requires At(buf, pos, EmitAll(pos, TailFields(more, utd))) && Counts(|utd.entries|)
    ensures TailAt(buf, pos) == Ok(((more, utd), End(pos, TailFields(more, utd))))
  {
    hide EmitAll, Emit, ReadU8, ReadU32, SkipTo, At, VectorAt, VectorFields;
    var f2 := [U32(NON_NULL)] + VectorFields(utd);
    var f1 := [Align(4)] + f2;
    var p1 := Step(buf, pos, U8(if more then 1 else 0), f1);
    var p2 := Step(buf, p1, Align(4), f2);
    var p3 := Step(buf, p2, U32(NON_NULL), VectorFields(utd));
    VectorReadsBack(buf, p3, utd);
  }

  function ReplyFields(y: Reply): (fs: seq<Field>)
  {
    [U32(y.numObjects)] + ([U32(y.numNcs)] + ([U32(AsU32(|y.objects|))] +
    (ListFields(ObjectFields, y.objects) + TailFields(y.more, y.utd))))
  }

  function ReplyAt(buf: seq<byte>, pos: nat): (r: Read<Reply>)
  {
    var (numObjects, p) :- ReadU32(buf, pos);
    var (numNcs, p) :- ReadU32(buf, p);
    var (n, p) :- ReadU32(buf, p);
    var (objects, p) :- ListAt(ObjectAt, n, buf, p);
    var (tail, p) :- TailAt(buf, p);
    Ok((Reply(numObjects, numNcs, objects, tail.0, tail.1), p))
  }

  predicate ReplyFits(y: Reply) {
    Counts(|y.objects|) && Counts(|y.utd.entries|) && forall o | o in y.objects :: ObjectFits(o)
  }

  lemma ObjectsReadBack(buf: seq<byte>, pos: nat, objects: seq<ReplObject>)
    requires At(buf, pos, EmitAll(pos, ListFields(ObjectFields, objects)))
    requires forall o | o in objects :: ObjectFits(o)
    ensures ListAt(ObjectAt, |objects|, buf, pos) == Ok((objects, End(pos, ListFields(ObjectFields, objects))))
  {
    hide EmitAll, At, ListAt, ListFields, ObjectAt, ObjectFields, ObjectFits;
    forall x, p: nat | x in objects && At(buf, p, EmitAll(p, ObjectFields(x)))
      ensures ObjectAt(buf, p) == Ok((x, End(p, ObjectFields(x))))
    {
      ObjectReadsBack(buf, p, x);
    }
    ListReadsBack(ObjectFields, ObjectAt, buf, pos, objects);
  }

  /** A reply (any objects with any attributes) comes back exactly when every count in it fits 32 bits. */
  lemma ReplyReadsBack(buf: seq<byte>, pos: nat, y: Reply)
    requires At(buf, pos, EmitAll(pos, ReplyFields(y)))
    ensures ReplyAt(buf, pos) == Ok((y, End(pos, ReplyFields(y)))) <==> ReplyFits(y)
  {
    hide EmitAll, Emit, ReadU32, At, ListAt, ListFields, TailAt, TailFields, ObjectFits;
    if ReplyFits(y) {
      var f4 := TailFields(y.more, y.utd);
      var f3 := ListFields(ObjectFields, y.objects) + f4;
      var f2 := [U32(|y.objects|)] + f3;
      var f1 := [U32(y.numNcs)] + f2;
      var p1 := Step(buf, pos, U32(y.numObjects), f1);
      var p2 := Step(buf, p1, U32(y.numNcs), f2);
      var p3 := Step(buf, p2, U32(|y.objects|), f3);
      SplitParts(buf, p3, ListFields(ObjectFields, y.objects), f4);
      ObjectsReadBack(buf, p3, y.objects);
      TailReadsBack(buf, End(p3, ListFields(ObjectFields, y.objects)), y.more, y.utd);
    } else {
      ReplyAtFits(buf, pos);
    }
  }

  lemma ReplyAtFits(buf: seq<byte>, pos: nat)
    ensures ReplyAt(buf, pos).Ok? ==> ReplyFits(ReplyAt(buf, pos).value.0)
  {
    hide ReadU32, ObjectAt, ObjectFits, ListAt, TailAt;
    forall p: nat
      ensures ObjectAt(buf, p).Ok? ==> ObjectFits(ObjectAt(buf, p).value.0)
    {
      ObjectAtFits(buf, p);
    }
    forall n: nat, p: nat
      ensures ListAt(ObjectAt, n, buf, p).Ok? ==> forall o | o in ListAt(ObjectAt, n, buf, p).value.0 :: ObjectFits(o)
    {
      ListAtEach(ObjectAt, ObjectFits, n, buf, p);
    }
  }
}
