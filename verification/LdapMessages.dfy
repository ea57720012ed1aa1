/** LDAP messages (section 4 of RFC 4511): the operations, controls and their wire form. */
module LdapMessages {
  import opened Bytes
  import opened Ber
  import opened Utf8
  import opened Filters

  const APP_BIND_REQUEST: byte := 0x60
  const APP_BIND_RESPONSE: byte := 0x61
  const APP_UNBIND_REQUEST: byte := 0x42
  const APP_SEARCH_REQUEST: byte := 0x63
  const APP_SEARCH_RESULT_ENTRY: byte := 0x64
  const APP_SEARCH_RESULT_DONE: byte := 0x65
  const APP_MODIFY_REQUEST: byte := 0x66
  const APP_MODIFY_RESPONSE: byte := 0x67
  const APP_ADD_REQUEST: byte := 0x68
  const APP_ADD_RESPONSE: byte := 0x69
  const APP_DEL_REQUEST: byte := 0x4A
  const APP_DEL_RESPONSE: byte := 0x6B
  const AUTH_SIMPLE: byte := 0x80
  const AUTH_SASL: byte := 0xA3
  const SERVER_SASL_CREDS: byte := 0x87
  const CONTROLS_TAG: byte := 0xA0

  datatype ResultCode =
    | Success | OperationsError | ProtocolError | TimeLimitExceeded | SizeLimitExceeded
    | CompareFalse | CompareTrue | AuthMethodNotSupported | StrongerAuthRequired | Referral
    | AdminLimitExceeded | NoSuchAttribute | UndefinedAttributeType | InappropriateMatching
    | ConstraintViolation | AttributeOrValueExists | InvalidAttributeSyntax | NoSuchObject
    | InvalidDNSyntax | InappropriateAuthentication | InvalidCredentials | InsufficientAccessRights
    | Busy | Unavailable | UnwillingToPerform | LoopDetect | NamingViolation | ObjectClassViolation
    | NotAllowedOnNonLeaf | EntryAlreadyExists | Other

  function CodeNumber(c: ResultCode): (n: byte)
  {
    match c
    case Success => 0 case OperationsError => 1 case ProtocolError => 2 case TimeLimitExceeded => 3
    case SizeLimitExceeded => 4 case CompareFalse => 5 case CompareTrue => 6
    case AuthMethodNotSupported => 7 case StrongerAuthRequired => 8 case Referral => 10
    case AdminLimitExceeded => 11 case NoSuchAttribute => 16 case UndefinedAttributeType => 17
    case InappropriateMatching => 18 case ConstraintViolation => 19 case AttributeOrValueExists => 20
    case InvalidAttributeSyntax => 21 case NoSuchObject => 32 case InvalidDNSyntax => 34
    case InappropriateAuthentication => 48 case InvalidCredentials => 49
    case InsufficientAccessRights => 50 case Busy => 51 case Unavailable => 52
    case UnwillingToPerform => 53 case LoopDetect => 54 case NamingViolation => 64
    case ObjectClassViolation => 65 case NotAllowedOnNonLeaf => 66 case EntryAlreadyExists => 68
    case Other => 80
  }

  function CodeOfNumber(n: int): (c: ResultCode)
  {
    match n
    case 0 => Success case 1 => OperationsError case 2 => ProtocolError case 3 => TimeLimitExceeded
    case 4 => SizeLimitExceeded case 5 => CompareFalse case 6 => CompareTrue
    case 7 => AuthMethodNotSupported case 8 => StrongerAuthRequired case 10 => Referral
    case 11 => AdminLimitExceeded case 16 => NoSuchAttribute case 17 => UndefinedAttributeType
    case 18 => InappropriateMatching case 19 => ConstraintViolation case 20 => AttributeOrValueExists
    case 21 => InvalidAttributeSyntax case 32 => NoSuchObject case 34 => InvalidDNSyntax
    case 48 => InappropriateAuthentication case 49 => InvalidCredentials
    case 50 => InsufficientAccessRights case 51 => Busy case 52 => Unavailable
    case 53 => UnwillingToPerform case 54 => LoopDetect case 64 => NamingViolation
    case 65 => ObjectClassViolation case 66 => NotAllowedOnNonLeaf case 68 => EntryAlreadyExists
    case _ => Other
  }

  datatype LdapResult = LdapResult(code: ResultCode, matchedDn: Utf8String, diagnostic: Utf8String)

  datatype Authentication =
    | SimplePassword(password: seq<byte>)
    | Sasl(mechanism: Utf8String, credentials: Option<seq<byte>>)

  datatype Attribute = Attribute(name: Utf8String, values: seq<seq<byte>>)

  datatype ModificationOp = AddValues | DeleteValues | ReplaceValues

  datatype Change = Change(operation: ModificationOp, modification: Attribute)

  datatype Control = Control(oid: Utf8String, critical: bool, payload: Option<seq<byte>>)

  datatype ProtocolOp =
    | BindRequest(version: byte, name: Utf8String, authentication: Authentication)
    | BindResponse(result: LdapResult, serverCreds: Option<seq<byte>>)
    | UnbindRequest
    | SearchRequest(baseDn: Utf8String, scope: byte, derefAliases: byte, sizeLimit: i32, timeLimit: i32,
                    typesOnly: bool, filter: Filter, selection: seq<Utf8String>)
    | SearchResultEntry(dn: Utf8String, attributes: seq<Attribute>)
    | SearchResultDone(result: LdapResult)
    | ModifyRequest(target: Utf8String, changes: seq<Change>)
    | ModifyResponse(result: LdapResult)
    | AddRequest(entry: Utf8String, attributes: seq<Attribute>)
    | AddResponse(result: LdapResult)
    | DelRequest(entry: Utf8String)
    | DelResponse(result: LdapResult)

  datatype LdapMessage = LdapMessage(id: i32, op: ProtocolOp, controls: seq<Control>)

  /** The truncating cast to a signed 32-bit number. */
  function AsI32(n: int): (m: i32)
  {
    (n + 0x8000_0000) % 0x1_0000_0000 - 0x8000_0000
  }

  // ---- Lists of elements ----

  function ListOctets<T>(element: T -> Tlv, xs: seq<T>): (bs: seq<byte>)
  {
    if xs == [] then [] else TlvOctets(element(xs[0]).tag, element(xs[0]).value) + ListOctets(element, xs[1..])
  }

  /** Every element up to the end of the octets, each decoded by `of`. */
  function ListOf<T>(of: Tlv -> Result<T, BerError>, bytes: seq<byte>): (r: Result<seq<T>, BerError>)
    decreases |bytes|
  {
    if bytes == [] then Ok([])
    else
      var (t, rest) :- TlvOf(bytes);
      var x :- of(t);
      Prepend([x], ListOf(of, rest))
  }

  lemma {:induction false} ListRoundTrip<T>(element: T -> Tlv, of: Tlv -> Result<T, BerError>, xs: seq<T>)
    requires |ListOctets(element, xs)| < Pow256(4)
    requires forall x | x in xs :: element(x).tag % 32 != 31
    requires forall x | x in xs :: |element(x).value| < Pow256(4) ==> of(element(x)) == Ok(x)
    ensures ListOf(of, ListOctets(element, xs)) == Ok(xs)
  {
    hide TlvOf, TlvOctets, Pow256;
    if xs != [] {
      var x, rest := xs[0], ListOctets(element, xs[1..]);
      TlvRoundTrip(element(x).tag, element(x).value, rest);
      ListRoundTrip(element, of, xs[1..]);
      assert [x] + xs[1..] == xs;
    }
  }

  /** The encoder's loop over a list. */
  method EncodeList<T>(element: T -> Tlv, xs: seq<T>) returns (out: seq<byte>)
    ensures out == ListOctets(element, xs)
  {
    hide TlvOctets;
    out := [];
    for i := 0 to |xs|
      invariant ListOctets(element, xs) == out + ListOctets(element, xs[i..])
    {
      var t := element(xs[i]);
      assert xs[i..][1..] == xs[i + 1..] && xs[i..][0] == xs[i];
      var rest := ListOctets(element, xs[i + 1..]);
      assert out + (TlvOctets(t.tag, t.value) + rest) == (out + TlvOctets(t.tag, t.value)) + rest;
      out := EncodeTlv(t.tag, t.value, out);
    }
  }

  /** The decoder's loop over the rest of the octets. */
  method DecodeList<T>(of: Tlv -> Result<T, BerError>, bytes: seq<byte>) returns (r: Result<seq<T>, BerError>)
    ensures r == ListOf(of, bytes)
  {
    var xs: seq<T>, rest := [], bytes;
    PrependEnds(xs, ListOf(of, bytes));
    while rest != []
      invariant ListOf(of, bytes) == Prepend(xs, ListOf(of, rest))
      decreases |rest|
    {
      var next :- DecodeTlv(rest);
      var x :- of(next.0);
      PrependStep(xs, x, ListOf(of, next.1));
      xs, rest := xs + [x], next.1;
    }
    PrependEnds(xs, ListOf(of, rest));
    r := Ok(xs);
  }

  /** The cut to 32 bits keeps the number modulo 2^32, and every number that fits. */
  lemma AsI32Is(n: int, m: i32)
    ensures AsI32(n) == m <==> (n - m) % 0x1_0000_0000 == 0
  {
  }

  // ---- Reading one element ----

  /** The next element, refused unless it has the expected tag. */
  function Expect(tag: byte, bytes: seq<byte>): (r: Result<(seq<byte>, seq<byte>), BerError>)
    ensures r.Ok? ==> TlvOf(bytes) == Ok((Tlv(tag, r.value.0), r.value.1))
  {
    var (t, rest) :- TlvOf(bytes);
    if t.tag != tag then Err(UnexpectedTag(tag, t.tag)) else Ok((t.value, rest))
  }

  /** The next element, whatever its tag. */
  function Next(bytes: seq<byte>): (r: Result<(seq<byte>, seq<byte>), BerError>)
    ensures r.Ok? ==> TlvOf(bytes).Ok? && TlvOf(bytes).value.1 == r.value.1
  {
    var (t, rest) :- TlvOf(bytes);
    Ok((t.value, rest))
  }

  function AtEnd<T>(x: T, rest: seq<byte>): (r: Result<T, BerError>)
  {
    if rest != [] then Err(TrailingData(|rest|)) else Ok(x)
  }

  function BoolOf(value: seq<byte>): (r: Result<bool, BerError>)
  {
    if |value| != 1 then Err(InvalidInteger) else Ok(value[0] != 0x00)
  }

  function BoolOctets(b: bool): (bs: seq<byte>)
  {
    [if b then 0xFF else 0x00]
  }

  predicate Fits(value: seq<byte>) {
    |value| < Pow256(4)
  }

  /** A refusal for a tag names the tag that was expected and the one that came. */
  lemma WrongTag(tag: byte, bytes: seq<byte>, t: Tlv)
    requires TlvOf(bytes).Ok? && TlvOf(bytes).value.0.tag != tag
    ensures Expect(tag, bytes) == Err(UnexpectedTag(tag, TlvOf(bytes).value.0.tag))
    ensures t.tag != TAG_SEQUENCE ==>
              && AttributeOf(t) == Err(UnexpectedTag(TAG_SEQUENCE, t.tag))
              && ChangeOf(t) == Err(UnexpectedTag(TAG_SEQUENCE, t.tag))
              && ControlOf(t) == Err(UnexpectedTag(TAG_SEQUENCE, t.tag))
    ensures t.tag != AUTH_SIMPLE && t.tag != AUTH_SASL ==>
              AuthenticationOf(t) == Err(UnexpectedTag(AUTH_SIMPLE, t.tag))
  {
    hide TlvOf, ListOf, ModificationOf, ControlBodyOf;
  }

  /** An element in front of others is peeled off by all three readers. */
  lemma Peel(tag: byte, value: seq<byte>, after: seq<byte>)
    requires tag % 32 != 31 && Fits(value)
    ensures TlvOf(TlvOctets(tag, value) + after) == Ok((Tlv(tag, value), after))
    ensures Expect(tag, TlvOctets(tag, value) + after) == Ok((value, after))
    ensures Next(TlvOctets(tag, value) + after) == Ok((value, after))
  {
    hide TlvOf, TlvOctets;
    TlvRoundTrip(tag, value, after);
  }

  lemma PeelLast(tag: byte, value: seq<byte>)
    requires tag % 32 != 31 && Fits(value)
    ensures TlvOf(TlvOctets(tag, value)) == Ok((Tlv(tag, value), []))
    ensures Expect(tag, TlvOctets(tag, value)) == Ok((value, []))
    ensures Next(TlvOctets(tag, value)) == Ok((value, []))
  {
    hide TlvOf, TlvOctets;
    Peel(tag, value, []);
    assert TlvOctets(tag, value) + [] == TlvOctets(tag, value);
  }

  lemma IntegerBack(n: i32)
    ensures IntegerOf(IntegerOctets(n)) == Ok(n) && AsI32(n) == n && Fits(IntegerOctets(n))
  {
    hide IntegerOctets, IntegerOf;
    IntegerRoundTripShortest(n);
    Pow256Values();
  }

  lemma NumberBack(n: i64)
    ensures IntegerOf(IntegerOctets(n)) == Ok(n) && Fits(IntegerOctets(n))
  {
    hide IntegerOctets, IntegerOf;
    IntegerRoundTripShortest(n);
    Pow256Values();
  }

  lemma OctetBack(n: byte)
    ensures IntegerOf(IntegerOctets(n)) == Ok(n) && AsU8(n) == n && Fits(IntegerOctets(n))
  {
    hide IntegerOctets, IntegerOf;
    IntegerRoundTripShortest(n);
    Pow256Values();
  }

  // ---- Results ----

  function ResultOctets(r: LdapResult): (bs: seq<byte>)
  {
    TlvOctets(TAG_ENUMERATED, IntegerOctets(CodeNumber(r.code)))
    + (TlvOctets(TAG_OCTET_STRING, r.matchedDn) + TlvOctets(TAG_OCTET_STRING, r.diagnostic))
  }

  function ResultOf(bytes: seq<byte>): (r: Result<(LdapResult, seq<byte>), BerError>)
  {
    var (code, rest) :- Expect(TAG_ENUMERATED, bytes);
    var n :- IntegerOf(code);
    var (dn, rest) :- Expect(TAG_OCTET_STRING, rest);
    var matchedDn :- StringOf(dn);
    var (text, rest) :- Expect(TAG_OCTET_STRING, rest);
    var diagnostic :- StringOf(text);
    Ok((LdapResult(CodeOfNumber(n), matchedDn, diagnostic), rest))
  }

  /** A result on its own, with nothing after it. */
  function OnlyResultOf(value: seq<byte>): (r: Result<LdapResult, BerError>)
  {
    var (result, rest) :- ResultOf(value);
    AtEnd(result, rest)
  }

  /** A result code is read by its number; every number without a code of its own is read as other, 80. */
  lemma CodesByNumber(n: int)
    ensures CodeNumber(CodeOfNumber(n)) == n || (CodeOfNumber(n) == Other && n != 80)
    ensures CodeNumber(Other) == 80 && CodeNumber(Success) == 0
  {
  }

  lemma CodeBack(c: ResultCode)
    ensures CodeOfNumber(CodeNumber(c)) == c
  {
  }

  lemma ResultRoundTrip(r: LdapResult, after: seq<byte>)
    requires Fits(ResultOctets(r))
    ensures ResultOf(ResultOctets(r) + after) == Ok((r, after))
  {
    hide TlvOf, TlvOctets, Expect, IntegerOctets, IntegerOf, CodeNumber, CodeOfNumber, IsUtf8, Pow256;
    var c, d, t := IntegerOctets(CodeNumber(r.code)), TlvOctets(TAG_OCTET_STRING, r.matchedDn),
    TlvOctets(TAG_OCTET_STRING, r.diagnostic);
    assert ResultOctets(r) + after == TlvOctets(TAG_ENUMERATED, c) + (d + (t + after));
    OctetBack(CodeNumber(r.code));
    CodeBack(r.code);
    Peel(TAG_ENUMERATED, c, d + (t + after));
    Peel(TAG_OCTET_STRING, r.matchedDn, t + after);
    Peel(TAG_OCTET_STRING, r.diagnostic, after);
  }

  lemma OnlyResultRoundTrip(r: LdapResult)
    requires Fits(ResultOctets(r))
    ensures OnlyResultOf(ResultOctets(r)) == Ok(r)
  {
    hide ResultOctets, ResultOf;
    ResultRoundTrip(r, []);
    assert ResultOctets(r) + [] == ResultOctets(r);
  }

  // ---- Attributes and changes ----

  function ValueElement(v: seq<byte>): (t: Tlv)
  {
    Tlv(TAG_OCTET_STRING, v)
  }

  function ValueOfElement(t: Tlv): (r: Result<seq<byte>, BerError>)
  {
    Ok(t.value)
  }

  function StringElement(s: Utf8String): (t: Tlv)
  {
    Tlv(TAG_OCTET_STRING, s)
  }

  function StringOfElement(t: Tlv): (r: Result<Utf8String, BerError>)
  {
    StringOf(t.value)
  }

  function AttributeElement(a: Attribute): (t: Tlv)
  {
    Tlv(TAG_SEQUENCE,
        TlvOctets(TAG_OCTET_STRING, a.name) + TlvOctets(TAG_SET, ListOctets(ValueElement, a.values)))
  }

  function AttributeOf(t: Tlv): (r: Result<Attribute, BerError>)
  {
    if t.tag != TAG_SEQUENCE then Err(UnexpectedTag(TAG_SEQUENCE, t.tag))
    else
      var (n, rest) :- Next(t.value);
      var name :- StringOf(n);
      var (s, rest) :- Expect(TAG_SET, rest);
      var values :- ListOf(ValueOfElement, s);
      AtEnd(Attribute(name, values), rest)
  }

  /** The name may come under any tag. */
  lemma AttributeReads(tag: byte, a: Attribute)
    requires tag % 32 != 31
    requires Fits(TlvOctets(tag, a.name) + TlvOctets(TAG_SET, ListOctets(ValueElement, a.values)))
    ensures AttributeOf(Tlv(TAG_SEQUENCE, TlvOctets(tag, a.name)
                                          + TlvOctets(TAG_SET, ListOctets(ValueElement, a.values)))) == Ok(a)
  {
    hide TlvOf, TlvOctets, Expect, Next, ListOf, ListOctets, IsUtf8, Pow256;
    var s := ListOctets(ValueElement, a.values);
    Peel(tag, a.name, TlvOctets(TAG_SET, s));
    PeelLast(TAG_SET, s);
    ListRoundTrip(ValueElement, ValueOfElement, a.values);
  }

  lemma AttributeRoundTrip(a: Attribute)
    requires Fits(AttributeElement(a).value)
    ensures AttributeOf(AttributeElement(a)) == Ok(a)
  {
    hide TlvOctets, ListOctets, AttributeOf;
    AttributeReads(TAG_OCTET_STRING, a);
  }

  lemma AttributesRoundTrip(xs: seq<Attribute>)
    requires Fits(ListOctets(AttributeElement, xs))
    ensures ListOf(AttributeOf, ListOctets(AttributeElement, xs)) == Ok(xs)
  {
    hide ListOctets, ListOf, AttributeElement, AttributeOf;
    forall x | x in xs
      ensures AttributeElement(x).tag % 32 != 31
      ensures |AttributeElement(x).value| < Pow256(4) ==> AttributeOf(AttributeElement(x)) == Ok(x)
    {
      AttributeElementTag(x);
      if Fits(AttributeElement(x).value) {
        AttributeRoundTrip(x);
      }
    }
    ListRoundTrip(AttributeElement, AttributeOf, xs);
  }

  lemma AttributeElementTag(a: Attribute)
    ensures AttributeElement(a).tag == TAG_SEQUENCE
  {
  }

  function ModificationNumber(op: ModificationOp): (n: byte)
  {
    match op
    case AddValues => 0
    case DeleteValues => 1
    case ReplaceValues => 2
  }

  function ModificationOf(value: seq<byte>): (r: Result<ModificationOp, BerError>)
  {
    var n :- IntegerOf(value);
    if n == 0 then Ok(AddValues) else if n == 1 then Ok(DeleteValues)
    else if n == 2 then Ok(ReplaceValues) else Err(OutOfRange(n))
  }

  function ChangeElement(c: Change): (t: Tlv)
  {
    var a := AttributeElement(c.modification);
    Tlv(TAG_SEQUENCE,
        TlvOctets(TAG_ENUMERATED, IntegerOctets(ModificationNumber(c.operation))) + TlvOctets(a.tag, a.value))
  }

  /** What follows the attribute inside a change is not looked at. */
  function ChangeOf(t: Tlv): (r: Result<Change, BerError>)
  {
    if t.tag != TAG_SEQUENCE then Err(UnexpectedTag(TAG_SEQUENCE, t.tag))
    else
      var (o, rest) :- Next(t.value);
      var operation :- ModificationOf(o);
      var (a, _) :- TlvOf(rest);
      var modification :- AttributeOf(a);
      Ok(Change(operation, modification))
  }

  /** The operation may come under any tag, as any number but 0, 1 and 2 refused; what follows the attribute
      does not matter. */
  lemma ChangeReads(tag: byte, n: i64, a: Attribute, after: seq<byte>)
    requires tag % 32 != 31 && Fits(AttributeElement(a).value)
    ensures var o := TlvOctets(tag, IntegerOctets(n)) + (TlvOctets(TAG_SEQUENCE, AttributeElement(a).value) + after);
            ChangeOf(Tlv(TAG_SEQUENCE, o)) ==
            if n == 0 then Ok(Change(AddValues, a)) else if n == 1 then Ok(Change(DeleteValues, a))
            else if n == 2 then Ok(Change(ReplaceValues, a)) else Err(OutOfRange(n))
  {
    hide TlvOf, TlvOctets, Next, AttributeElement, AttributeOf, IntegerOctets, IntegerOf, Pow256;
    var e := AttributeElement(a);
    AttributeElementTag(a);
    NumberBack(n);
    Peel(tag, IntegerOctets(n), TlvOctets(TAG_SEQUENCE, e.value) + after);
    Peel(TAG_SEQUENCE, e.value, after);
    AttributeRoundTrip(a);
  }

  lemma ChangeRoundTrip(c: Change)
    requires Fits(ChangeElement(c).value)
    ensures ChangeOf(ChangeElement(c)) == Ok(c)
  {
    hide TlvOctets, AttributeElement, AttributeOf, IntegerOctets, ChangeOf, Pow256;
    var a := AttributeElement(c.modification);
    AttributeElementTag(c.modification);
    ChangeReads(TAG_ENUMERATED, ModificationNumber(c.operation), c.modification, []);
    assert TlvOctets(a.tag, a.value) + [] == TlvOctets(a.tag, a.value);
  }

  lemma ChangesRoundTrip(xs: seq<Change>)
    requires Fits(ListOctets(ChangeElement, xs))
    ensures ListOf(ChangeOf, ListOctets(ChangeElement, xs)) == Ok(xs)
  {
    hide ListOctets, ListOf, ChangeOf, AttributeElement;
    forall x | x in xs && |ChangeElement(x).value| < Pow256(4)
      ensures ChangeOf(ChangeElement(x)) == Ok(x)
    {
      ChangeRoundTrip(x);
    }
    ListRoundTrip(ChangeElement, ChangeOf, xs);
  }

  // ---- Controls ----

  function OptionalOctets(tag: byte, v: Option<seq<byte>>): (bs: seq<byte>)
  {
    if v.Some? then TlvOctets(tag, v.value) else []
  }

  function ControlElement(c: Control): (t: Tlv)
  {
    Tlv(TAG_SEQUENCE,
        TlvOctets(TAG_OCTET_STRING, c.oid)
        + (TlvOctets(TAG_BOOLEAN, BoolOctets(c.critical)) + OptionalOctets(TAG_OCTET_STRING, c.payload)))
  }

  /** Criticality is optional on the way in, and so is the value. */
  function ControlBodyOf(value: seq<byte>): (r: Result<Control, BerError>)
  {
    var (o, rest) :- Next(value);
    var oid :- StringOf(o);
    if rest == [] then Ok(Control(oid, false, None))
    else
      var (t, rest) :- TlvOf(rest);
      if t.tag != TAG_BOOLEAN && t.tag != TAG_OCTET_STRING then Err(UnexpectedTag(TAG_BOOLEAN, t.tag))
      else
        var critical :- if t.tag == TAG_BOOLEAN then BoolOf(t.value) else Ok(false);
        var first := if t.tag == TAG_BOOLEAN then None else Some(t.value);
        if rest == [] then Ok(Control(oid, critical, first))
        else
          var (v, rest) :- Expect(TAG_OCTET_STRING, rest);
          AtEnd(Control(oid, critical, Some(v)), rest)
  }

  function ControlOf(t: Tlv): (r: Result<Control, BerError>)
  {
    if t.tag != TAG_SEQUENCE then Err(UnexpectedTag(TAG_SEQUENCE, t.tag)) else ControlBodyOf(t.value)
  }

  lemma ControlRoundTrip(c: Control)
    requires Fits(ControlElement(c).value)
    ensures ControlOf(ControlElement(c)) == Ok(c)
  {
    hide TlvOf, TlvOctets, Next, Expect, IsUtf8, Pow256;
    var b := BoolOctets(c.critical);
    var v := OptionalOctets(TAG_OCTET_STRING, c.payload);
    Peel(TAG_OCTET_STRING, c.oid, TlvOctets(TAG_BOOLEAN, b) + v);
    Peel(TAG_BOOLEAN, b, v);
    if c.payload.Some? {
      PeelLast(TAG_OCTET_STRING, c.payload.value);
    }
  }

  /** Any octet but zero is true. */
  lemma BoolReads(value: seq<byte>)
    ensures BoolOf(value).Ok? <==> |value| == 1
    ensures forall b: byte :: BoolOf([b]) == Ok(b != 0)
  {
  }

  /** The forms of a control on the way in: the criticality may be missing, and is then false; so may the
      value; without a criticality a second value takes the place of the first. */
  lemma ControlReads(tag: byte, oid: Utf8String, b: byte, v: seq<byte>, w: seq<byte>)
    requires tag % 32 != 31 && Fits(oid) && Fits(v) && Fits(w)
    ensures var o, c := TlvOctets(tag, oid), TlvOctets(TAG_BOOLEAN, [b]);
            var x, y := TlvOctets(TAG_OCTET_STRING, v), TlvOctets(TAG_OCTET_STRING, w);
            && ControlBodyOf(o) == Ok(Control(oid, false, None))
            && ControlBodyOf(o + x) == Ok(Control(oid, false, Some(v)))
            && ControlBodyOf(o + c) == Ok(Control(oid, b != 0, None))
            && ControlBodyOf(o + (c + x)) == Ok(Control(oid, b != 0, Some(v)))
            && ControlBodyOf(o + (x + y)) == Ok(Control(oid, false, Some(w)))
  {
    hide TlvOf, TlvOctets, Next, Expect, IsUtf8;
    Pow256Values();
    var c, x, y := TlvOctets(TAG_BOOLEAN, [b]), TlvOctets(TAG_OCTET_STRING, v), TlvOctets(TAG_OCTET_STRING, w);
    PeelLast(tag, oid);
    Peel(tag, oid, x);
    Peel(tag, oid, c);
    Peel(tag, oid, c + x);
    Peel(tag, oid, x + y);
    PeelLast(TAG_OCTET_STRING, v);
    PeelLast(TAG_OCTET_STRING, w);
    PeelLast(TAG_BOOLEAN, [b]);
    Peel(TAG_BOOLEAN, [b], x);
    Peel(TAG_OCTET_STRING, v, y);
  }

  lemma ControlsRoundTrip(xs: seq<Control>)
    requires Fits(ListOctets(ControlElement, xs))
    ensures ListOf(ControlOf, ListOctets(ControlElement, xs)) == Ok(xs)
  {
    hide ListOctets, ListOf, ControlOf, TlvOctets;
    forall x | x in xs && |ControlElement(x).value| < Pow256(4)
      ensures ControlOf(ControlElement(x)) == Ok(x)
    {
      ControlRoundTrip(x);
    }
    ListRoundTrip(ControlElement, ControlOf, xs);
  }

  // ---- Operations ----

  function AuthenticationElement(a: Authentication): (t: Tlv)
    ensures t.tag % 32 != 31
  {
    match a
    case SimplePassword(password) => Tlv(AUTH_SIMPLE, password)
    case Sasl(mechanism, credentials) =>
      Tlv(AUTH_SASL, TlvOctets(TAG_OCTET_STRING, mechanism) + OptionalOctets(TAG_OCTET_STRING, credentials))
  }

  /** At most one more element. */
  function OptionalOf(rest: seq<byte>): (r: Result<Option<seq<byte>>, BerError>)
  {
    if rest == [] then Ok(None)
    else
      var (v, rest) :- Next(rest);
      AtEnd(Some(v), rest)
  }

  lemma OptionalRoundTrip(tag: byte, v: Option<seq<byte>>)
    requires tag % 32 != 31 && (v.Some? ==> Fits(v.value))
    ensures OptionalOf(OptionalOctets(tag, v)) == Ok(v)
  {
    hide TlvOctets, TlvOf, Next;
    if v.Some? {
      PeelLast(tag, v.value);
    }
  }

  function AuthenticationOf(t: Tlv): (r: Result<Authentication, BerError>)
  {
    if t.tag == AUTH_SIMPLE then Ok(SimplePassword(t.value))
    else if t.tag == AUTH_SASL then
      var (m, rest) :- Next(t.value);
      var mechanism :- StringOf(m);
      var credentials :- OptionalOf(rest);
      Ok(Sasl(mechanism, credentials))
    else Err(UnexpectedTag(AUTH_SIMPLE, t.tag))
  }

  lemma AuthenticationRoundTrip(a: Authentication)
    requires Fits(AuthenticationElement(a).value)
    ensures AuthenticationOf(AuthenticationElement(a)) == Ok(a)
  {
    hide TlvOctets, TlvOf, Next, OptionalOf, IsUtf8, Pow256;
    if a.Sasl? {
      Peel(TAG_OCTET_STRING, a.mechanism, OptionalOctets(TAG_OCTET_STRING, a.credentials));
      OptionalRoundTrip(TAG_OCTET_STRING, a.credentials);
    }
  }

  function BindRequestOctets(version: byte, name: Utf8String, a: Authentication): (bs: seq<byte>)
  {
    var t := AuthenticationElement(a);
    TlvOctets(TAG_INTEGER, IntegerOctets(version)) + (TlvOctets(TAG_OCTET_STRING, name) + TlvOctets(t.tag, t.value))
  }

  function BindRequestOf(value: seq<byte>): (r: Result<ProtocolOp, BerError>)
  {
    var (v, rest) :- Expect(TAG_INTEGER, value);
    var version :- IntegerOf(v);
    var (n, rest) :- Next(rest);
    var name :- StringOf(n);
    var (a, rest) :- TlvOf(rest);
    var authentication :- AuthenticationOf(a);
    AtEnd(BindRequest(AsU8(version), name, authentication), rest)
  }

  /** The version is cut to an octet, and the name may come under any tag. */
  lemma BindRequestReads(tag: byte, version: i64, name: Utf8String, a: Authentication)
    requires tag % 32 != 31 && Fits(name) && Fits(AuthenticationElement(a).value)
    ensures var t := AuthenticationElement(a);
            BindRequestOf(TlvOctets(TAG_INTEGER, IntegerOctets(version))
                          + (TlvOctets(tag, name) + TlvOctets(t.tag, t.value))) ==
            Ok(BindRequest(AsU8(version), name, a))
  {
    hide TlvOctets, TlvOf, Next, Expect, IntegerOctets, IntegerOf, AuthenticationElement, AuthenticationOf, IsUtf8;
    hide Pow256, AsU8;
    var t := AuthenticationElement(a);
    NumberBack(version);
    Peel(TAG_INTEGER, IntegerOctets(version), TlvOctets(tag, name) + TlvOctets(t.tag, t.value));
    Peel(tag, name, TlvOctets(t.tag, t.value));
    PeelLast(t.tag, t.value);
    AuthenticationRoundTrip(a);
  }

  lemma BindRequestRoundTrip(version: byte, name: Utf8String, a: Authentication)
    requires Fits(BindRequestOctets(version, name, a))
    ensures BindRequestOf(BindRequestOctets(version, name, a)) == Ok(BindRequest(version, name, a))
  {
    hide TlvOctets, IntegerOctets, AuthenticationElement, BindRequestOf, Pow256;
    BindRequestReads(TAG_OCTET_STRING, version, name, a);
  }

  function BindResponseOf(value: seq<byte>): (r: Result<ProtocolOp, BerError>)
  {
    var (result, rest) :- ResultOf(value);
    var creds :- OptionalOf(rest);
    Ok(BindResponse(result, creds))
  }

  lemma BindResponseRoundTrip(r: LdapResult, creds: Option<seq<byte>>)
    requires Fits(ResultOctets(r) + OptionalOctets(SERVER_SASL_CREDS, creds))
    ensures BindResponseOf(ResultOctets(r) + OptionalOctets(SERVER_SASL_CREDS, creds)) == Ok(BindResponse(r, creds))
  {
    hide ResultOctets, ResultOf, OptionalOf, TlvOctets;
    ResultRoundTrip(r, OptionalOctets(SERVER_SASL_CREDS, creds));
    OptionalRoundTrip(SERVER_SASL_CREDS, creds);
  }

  function SelectionOctets(selection: seq<Utf8String>): (bs: seq<byte>)
  {
    TlvOctets(TAG_SEQUENCE, ListOctets(StringElement, selection))
  }

  function SearchTailOctets(typesOnly: bool, filter: Filter, selection: seq<Utf8String>): (bs: seq<byte>)
  {
    TlvOctets(TAG_BOOLEAN, BoolOctets(typesOnly))
    + (TlvOctets(TagOf(filter), Body(filter)) + SelectionOctets(selection))
  }

  function SearchOctets(s: ProtocolOp): (bs: seq<byte>)
    requires s.SearchRequest?
  {
    TlvOctets(TAG_OCTET_STRING, s.baseDn)
    + (TlvOctets(TAG_ENUMERATED, IntegerOctets(s.scope))
       + (TlvOctets(TAG_ENUMERATED, IntegerOctets(s.derefAliases))
          + (TlvOctets(TAG_INTEGER, IntegerOctets(s.sizeLimit))
             + (TlvOctets(TAG_INTEGER, IntegerOctets(s.timeLimit))
                + SearchTailOctets(s.typesOnly, s.filter, s.selection)))))
  }

  datatype SearchTail = SearchTail(typesOnly: bool, filter: Filter, selection: seq<Utf8String>)

  function SearchTailOf(bytes: seq<byte>): (r: Result<SearchTail, BerError>)
  {
    var (b, rest) :- Expect(TAG_BOOLEAN, bytes);
    var typesOnly :- BoolOf(b);
    var (f, rest) :- TlvOf(rest);
    var filter :- FilterOf(f.tag, f.value);
    var (a, rest) :- Expect(TAG_SEQUENCE, rest);
    var selection :- ListOf(StringOfElement, a);
    AtEnd(SearchTail(typesOnly, filter, selection), rest)
  }

  function SearchOf(value: seq<byte>): (r: Result<ProtocolOp, BerError>)
  {
    var (d, rest) :- Next(value);
    var baseDn :- StringOf(d);
    var (s, rest) :- Expect(TAG_ENUMERATED, rest);
    var scope :- IntegerOf(s);
    var (a, rest) :- Next(rest);
    var derefAliases :- IntegerOf(a);
    var (n, rest) :- Next(rest);
    var sizeLimit :- IntegerOf(n);
    var (t, rest) :- Next(rest);
    var timeLimit :- IntegerOf(t);
    var tail :- SearchTailOf(rest);
    Ok(SearchRequest(baseDn, AsU8(scope), AsU8(derefAliases), AsI32(sizeLimit), AsI32(timeLimit),
                     tail.typesOnly, tail.filter, tail.selection))
  }

  lemma SelectionRoundTrip(xs: seq<Utf8String>)
    requires Fits(ListOctets(StringElement, xs))
    ensures ListOf(StringOfElement, ListOctets(StringElement, xs)) == Ok(xs)
  {
    hide ListOctets, ListOf, IsUtf8;
    ListRoundTrip(StringElement, StringOfElement, xs);
  }

  lemma SearchTailRoundTrip(typesOnly: bool, filter: Filter, selection: seq<Utf8String>)
    requires Fits(SearchTailOctets(typesOnly, filter, selection))
    ensures SearchTailOf(SearchTailOctets(typesOnly, filter, selection)) == Ok(SearchTail(typesOnly, filter, selection))
  {
    hide TlvOctets, TlvOf, Next, Expect, ListOctets, ListOf, TagOf, Body, FilterOf, Pow256;
    var b, a := BoolOctets(typesOnly), ListOctets(StringElement, selection);
    Peel(TAG_BOOLEAN, b, TlvOctets(TagOf(filter), Body(filter)) + TlvOctets(TAG_SEQUENCE, a));
    Peel(TagOf(filter), Body(filter), TlvOctets(TAG_SEQUENCE, a));
    PeelLast(TAG_SEQUENCE, a);
    BodyRoundTrip(filter);
    SelectionRoundTrip(selection);
  }

  /** The tags of a search request that the decoder does not look at. */
  datatype SearchTags = SearchTags(base: byte, aliases: byte, size: byte, time: byte)

  predicate OneOctetTags(t: SearchTags) {
    t.base % 32 != 31 && t.aliases % 32 != 31 && t.size % 32 != 31 && t.time % 32 != 31
  }

  /** The numbers of a search request are cut to their width, and the base and all numbers but the scope may
      come under any tag. */
  lemma SearchReads(g: SearchTags, baseDn: Utf8String, scope: i64, aliases: i64, size: i64, time: i64, tail: SearchTail)
    requires OneOctetTags(g) && Fits(baseDn)
    requires Fits(SearchTailOctets(tail.typesOnly, tail.filter, tail.selection))
    ensures SearchOf(TlvOctets(g.base, baseDn)
                     + (TlvOctets(TAG_ENUMERATED, IntegerOctets(scope))
                        + (TlvOctets(g.aliases, IntegerOctets(aliases))
                           + (TlvOctets(g.size, IntegerOctets(size))
                              + (TlvOctets(g.time, IntegerOctets(time))
                                 + SearchTailOctets(tail.typesOnly, tail.filter, tail.selection)))))) ==
            Ok(SearchRequest(baseDn, AsU8(scope), AsU8(aliases), AsI32(size), AsI32(time),
                             tail.typesOnly, tail.filter, tail.selection))
  {
    hide TlvOctets, TlvOf, Next, Expect, IntegerOctets, IntegerOf, AsU8, AsI32, SearchTailOctets, SearchTailOf;
    hide IsUtf8, Pow256;
    var e := SearchTailOctets(tail.typesOnly, tail.filter, tail.selection);
    var d := TlvOctets(g.time, IntegerOctets(time)) + e;
    var c := TlvOctets(g.size, IntegerOctets(size)) + d;
    var b := TlvOctets(g.aliases, IntegerOctets(aliases)) + c;
    var a := TlvOctets(TAG_ENUMERATED, IntegerOctets(scope)) + b;
    Peel(g.base, baseDn, a);
    NumberBack(scope);
    Peel(TAG_ENUMERATED, IntegerOctets(scope), b);
    NumberBack(aliases);
    Peel(g.aliases, IntegerOctets(aliases), c);
    NumberBack(size);
    Peel(g.size, IntegerOctets(size), d);
    NumberBack(time);
    Peel(g.time, IntegerOctets(time), e);
    SearchTailRoundTrip(tail.typesOnly, tail.filter, tail.selection);
  }

  lemma SearchRoundTrip(s: ProtocolOp)
    requires s.SearchRequest? && Fits(SearchOctets(s))
    ensures SearchOf(SearchOctets(s)) == Ok(s)
  {
    hide TlvOctets, IntegerOctets, IntegerOf, AsU8, AsI32, SearchTailOctets, SearchOf, Pow256;
    SearchReads(SearchTags(TAG_OCTET_STRING, TAG_ENUMERATED, TAG_INTEGER, TAG_INTEGER), s.baseDn, s.scope,
                s.derefAliases, s.sizeLimit, s.timeLimit, SearchTail(s.typesOnly, s.filter, s.selection));
    OctetBack(s.scope);
    OctetBack(s.derefAliases);
    IntegerBack(s.sizeLimit);
    IntegerBack(s.timeLimit);
  }

  /** A name followed by a sequence of elements: the content of entries, additions and modifications. */
  function NamedListOctets(name: Utf8String, list: seq<byte>): (bs: seq<byte>)
  {
    TlvOctets(TAG_OCTET_STRING, name) + TlvOctets(TAG_SEQUENCE, list)
  }

  function NamedListOf<T>(of: Tlv -> Result<T, BerError>, value: seq<byte>): (r: Result<(Utf8String, seq<T>), BerError>)
  {
    var (n, rest) :- Next(value);
    var name :- StringOf(n);
    var (l, rest) :- Expect(TAG_SEQUENCE, rest);
    var xs :- ListOf(of, l);
    AtEnd((name, xs), rest)
  }

  /** The name may come under any tag. */
  lemma NamedListReads<T>(tag: byte, of: Tlv -> Result<T, BerError>, name: Utf8String, list: seq<byte>, xs: seq<T>)
    requires tag % 32 != 31 && Fits(name) && Fits(list) && ListOf(of, list) == Ok(xs)
    ensures NamedListOf(of, TlvOctets(tag, name) + TlvOctets(TAG_SEQUENCE, list)) == Ok((name, xs))
  {
    hide TlvOctets, TlvOf, Next, Expect, ListOf, IsUtf8, Pow256;
    Peel(tag, name, TlvOctets(TAG_SEQUENCE, list));
    PeelLast(TAG_SEQUENCE, list);
  }

  lemma NamedListRoundTrip<T>(of: Tlv -> Result<T, BerError>, name: Utf8String, list: seq<byte>, xs: seq<T>)
    requires Fits(NamedListOctets(name, list)) && ListOf(of, list) == Ok(xs)
    ensures NamedListOf(of, NamedListOctets(name, list)) == Ok((name, xs))
  {
    hide TlvOctets, NamedListOf, ListOf, Pow256;
    NamedListReads(TAG_OCTET_STRING, of, name, list, xs);
  }

  function OpTag(op: ProtocolOp): (tag: byte)
    ensures tag % 32 != 31
  {
    match op
    case BindRequest(_, _, _) => APP_BIND_REQUEST
    case BindResponse(_, _) => APP_BIND_RESPONSE
    case UnbindRequest => APP_UNBIND_REQUEST
    case SearchRequest(_, _, _, _, _, _, _, _) => APP_SEARCH_REQUEST
    case SearchResultEntry(_, _) => APP_SEARCH_RESULT_ENTRY
    case SearchResultDone(_) => APP_SEARCH_RESULT_DONE
    case ModifyRequest(_, _) => APP_MODIFY_REQUEST
    case ModifyResponse(_) => APP_MODIFY_RESPONSE
    case AddRequest(_, _) => APP_ADD_REQUEST
    case AddResponse(_) => APP_ADD_RESPONSE
    case DelRequest(_) => APP_DEL_REQUEST
    case DelResponse(_) => APP_DEL_RESPONSE
  }

  function OpBody(op: ProtocolOp): (bs: seq<byte>)
  {
    match op
    case BindRequest(version, name, a) => BindRequestOctets(version, name, a)
    case BindResponse(result, creds) => ResultOctets(result) + OptionalOctets(SERVER_SASL_CREDS, creds)
    case UnbindRequest => []
    case SearchRequest(_, _, _, _, _, _, _, _) => SearchOctets(op)
    case SearchResultEntry(dn, attributes) => NamedListOctets(dn, ListOctets(AttributeElement, attributes))
    case ModifyRequest(target, changes) => NamedListOctets(target, ListOctets(ChangeElement, changes))
    case AddRequest(entry, attributes) => NamedListOctets(entry, ListOctets(AttributeElement, attributes))
    case DelRequest(entry) => entry
    case _ => ResultOctets(op.result)
  }

  function OpOf(tag: byte, value: seq<byte>): (r: Result<ProtocolOp, BerError>)
  {
    if tag == APP_BIND_REQUEST then BindRequestOf(value)
    else if tag == APP_BIND_RESPONSE then BindResponseOf(value)
    else if tag == APP_UNBIND_REQUEST then AtEnd(ProtocolOp.UnbindRequest, value)
    else if tag == APP_SEARCH_REQUEST then SearchOf(value)
    else if tag == APP_SEARCH_RESULT_ENTRY then
      var (dn, attributes) :- NamedListOf(AttributeOf, value);
      Ok(SearchResultEntry(dn, attributes))
    else if tag == APP_SEARCH_RESULT_DONE then
      var result :- OnlyResultOf(value);
      Ok(SearchResultDone(result))
    else if tag == APP_MODIFY_REQUEST then
      var (target, changes) :- NamedListOf(ChangeOf, value);
      Ok(ModifyRequest(target, changes))
    else if tag == APP_MODIFY_RESPONSE then
      var result :- OnlyResultOf(value);
      Ok(ModifyResponse(result))
    else if tag == APP_ADD_REQUEST then
      var (entry, attributes) :- NamedListOf(AttributeOf, value);
      Ok(AddRequest(entry, attributes))
    else if tag == APP_ADD_RESPONSE then
      var result :- OnlyResultOf(value);
      Ok(AddResponse(result))
    else if tag == APP_DEL_REQUEST then
      var entry :- StringOf(value);
      Ok(DelRequest(entry))
    else if tag == APP_DEL_RESPONSE then
      var result :- OnlyResultOf(value);
      Ok(DelResponse(result))
    else Err(UnknownProtocolOp(tag))
  }

  lemma OpRoundTrip(op: ProtocolOp)
    requires Fits(OpBody(op))
    ensures OpOf(OpTag(op), OpBody(op)) == Ok(op)
  {
    hide BindRequestOctets, BindRequestOf, ResultOctets, ResultOf, BindResponseOf, SearchOctets, SearchOf, NamedListOf,
         OnlyResultOf, ListOctets, ListOf, TlvOctets, AttributeElement, AttributeOf, ChangeElement, ChangeOf, IsUtf8;
    match op
    case BindRequest(version, name, a) => BindRequestRoundTrip(version, name, a);
    case BindResponse(result, creds) => BindResponseRoundTrip(result, creds);
    case UnbindRequest =>
    case SearchRequest(_, _, _, _, _, _, _, _) => SearchRoundTrip(op);
    case SearchResultEntry(dn, attributes) =>
      AttributesRoundTrip(attributes);
      NamedListRoundTrip(AttributeOf, dn, ListOctets(AttributeElement, attributes), attributes);
    case ModifyRequest(target, changes) =>
      ChangesRoundTrip(changes);
      NamedListRoundTrip(ChangeOf, target, ListOctets(ChangeElement, changes), changes);
    case AddRequest(entry, attributes) =>
      AttributesRoundTrip(attributes);
      NamedListRoundTrip(AttributeOf, entry, ListOctets(AttributeElement, attributes), attributes);
    case DelRequest(_) =>
    case _ => OnlyResultRoundTrip(op.result);
  }

  // ---- Messages ----

  function ControlsOctets(cs: seq<Control>): (bs: seq<byte>)
  {
    if cs == [] then [] else TlvOctets(CONTROLS_TAG, ListOctets(ControlElement, cs))
  }

  function ControlsOf(rest: seq<byte>): (r: Result<seq<Control>, BerError>)
  {
    if rest == [] then Ok([])
    else
      var (c, rest) :- Expect(CONTROLS_TAG, rest);
      var controls :- ListOf(ControlOf, c);
      AtEnd(controls, rest)
  }

  function MessageBody(m: LdapMessage): (bs: seq<byte>)
  {
    TlvOctets(TAG_INTEGER, IntegerOctets(m.id))
    + (TlvOctets(OpTag(m.op), OpBody(m.op)) + ControlsOctets(m.controls))
  }

  function MessageOctets(m: LdapMessage): (bs: seq<byte>)
  {
    TlvOctets(TAG_SEQUENCE, MessageBody(m))
  }

  function MessageBodyOf(value: seq<byte>): (r: Result<LdapMessage, BerError>)
  {
    var (i, rest) :- Expect(TAG_INTEGER, value);
    var id :- IntegerOf(i);
    var (o, rest) :- TlvOf(rest);
    var op :- OpOf(o.tag, o.value);
    var controls :- ControlsOf(rest);
    Ok(LdapMessage(AsI32(id), op, controls))
  }

  /** The message at the front of `bytes`; what follows it is ignored. */
  function MessageOf(bytes: seq<byte>): (r: Result<LdapMessage, BerError>)
  {
    var (value, _) :- Expect(TAG_SEQUENCE, bytes);
    MessageBodyOf(value)
  }

  lemma ControlListRoundTrip(cs: seq<Control>)
    requires Fits(ControlsOctets(cs))
    ensures ControlsOf(ControlsOctets(cs)) == Ok(cs)
  {
    hide TlvOctets, TlvOf, Expect, ListOctets, ListOf, Pow256;
    if cs != [] {
      PeelLast(CONTROLS_TAG, ListOctets(ControlElement, cs));
      ControlsRoundTrip(cs);
    }
  }

  /** The message identifier is cut to 32 bits. */
  lemma MessageBodyReads(id: i64, op: ProtocolOp, controls: seq<Control>)
    requires Fits(OpBody(op)) && Fits(ControlsOctets(controls))
    ensures MessageBodyOf(TlvOctets(TAG_INTEGER, IntegerOctets(id))
                          + (TlvOctets(OpTag(op), OpBody(op)) + ControlsOctets(controls))) ==
            Ok(LdapMessage(AsI32(id), op, controls))
  {
    hide TlvOctets, TlvOf, Expect, IntegerOctets, IntegerOf, OpTag, OpBody, OpOf, ControlsOctets, ControlsOf, AsI32;
    hide Pow256;
    var c := ControlsOctets(controls);
    NumberBack(id);
    Peel(TAG_INTEGER, IntegerOctets(id), TlvOctets(OpTag(op), OpBody(op)) + c);
    Peel(OpTag(op), OpBody(op), c);
    OpRoundTrip(op);
    ControlListRoundTrip(controls);
  }

  lemma MessageBodyRoundTrip(m: LdapMessage)
    requires Fits(MessageBody(m))
    ensures MessageBodyOf(MessageBody(m)) == Ok(m)
  {
    hide TlvOctets, IntegerOctets, IntegerOf, OpTag, OpBody, ControlsOctets, AsI32, MessageBodyOf, Pow256;
    IntegerBack(m.id);
    MessageBodyReads(m.id, m.op, m.controls);
  }

  /** Every message (all operations, arbitrarily nested filters, attribute lists and controls) decodes
      to itself in front of any octets, exactly when its content fits four length octets. */
  lemma MessageRoundTrip(m: LdapMessage, after: seq<byte>)
    requires |MessageBody(m)| < Pow256(8)
    ensures MessageOf(MessageOctets(m) + after) == Ok(m) <==> |MessageBody(m)| < Pow256(4)
  {
    hide TlvOctets, TlvOf, MessageBody, MessageBodyOf, Expect, Pow256;
    if Fits(MessageBody(m)) {
      Peel(TAG_SEQUENCE, MessageBody(m), after);
      MessageBodyRoundTrip(m);
    } else {
      LongLengthRefused(TAG_SEQUENCE, MessageBody(m), after);
      ExpectRefused(TAG_SEQUENCE, MessageOctets(m) + after);
    }
  }

  lemma ExpectRefused(tag: byte, bytes: seq<byte>)
    requires TlvOf(bytes).Err?
    ensures Expect(tag, bytes).Err?
  {
  }

  // ---- Messages on the wire ----

  const CN: seq<byte> := [0x63, 0x6E]

  lemma CnIsText()
    ensures IsUtf8(CN)
  {
    assert CN[1..][1..] == [] && IsUtf8(CN[1..][1..]) && IsUtf8(CN[1..]);
  }

  lemma SearchTailOnTheWire()
    ensures IsUtf8(CN)
    ensures SearchTailOctets(true, Present(CN), []) == [0x01, 0x01, 0xFF, 0x87, 0x02, 0x63, 0x6E, 0x30, 0x00]
  {
    hide TlvOctets, IsUtf8;
    CnIsText();
    var none: seq<Utf8String> := [];
    assert ListOctets(StringElement, none) == [];
    ShortTlv(TAG_SEQUENCE, []);
    ShortTlv(FILTER_PRESENT, CN);
    ShortTlv(TAG_BOOLEAN, [0xFF]);
  }

  lemma SearchHeadOnTheWire(f: Filter)
    ensures SearchOctets(SearchRequest([], 2, 3, 4, 5, true, f, [])) ==
            [0x04, 0x00, 0x0A, 0x01, 0x02, 0x0A, 0x01, 0x03, 0x02, 0x01, 0x04, 0x02, 0x01, 0x05]
            + SearchTailOctets(true, f, [])
  {
    hide TlvOctets, IntegerOctets, SearchTailOctets;
    ShortTlv(TAG_OCTET_STRING, []);
    ShortInteger(TAG_ENUMERATED, 2);
    ShortInteger(TAG_ENUMERATED, 3);
    ShortInteger(TAG_INTEGER, 4);
    ShortInteger(TAG_INTEGER, 5);
  }

  /** A message with short contents and no controls. */
  lemma ShortMessage(id: nat, op: ProtocolOp)
    requires id < 0x80 && |OpBody(op)| < 0x78
    ensures MessageOctets(LdapMessage(id, op, [])) ==
            [0x30, |OpBody(op)| + 5, 0x02, 0x01, id, OpTag(op), |OpBody(op)|] + OpBody(op)
  {
    hide TlvOctets, IntegerOctets, OpBody, OpTag;
    var body := OpBody(op);
    ShortInteger(TAG_INTEGER, id);
    ShortTlv(OpTag(op), body);
    var all := [0x02, 0x01, id, OpTag(op), |body|] + body;
    assert MessageBody(LdapMessage(id, op, [])) == all;
    ShortTlv(TAG_SEQUENCE, all);
  }

  /** A subtree search below the root for entries with a cn: each field has its place. */
  lemma SearchOnTheWire()
    ensures IsUtf8(CN) &&
            MessageOctets(LdapMessage(1, SearchRequest([], 2, 3, 4, 5, true, Present(CN), []), [])) ==
            [0x30, 0x1C, 0x02, 0x01, 0x01, 0x63, 0x17]
            + ([0x04, 0x00, 0x0A, 0x01, 0x02, 0x0A, 0x01, 0x03, 0x02, 0x01, 0x04, 0x02, 0x01, 0x05]
               + [0x01, 0x01, 0xFF, 0x87, 0x02, 0x63, 0x6E, 0x30, 0x00])
  {
    hide MessageOctets, SearchOctets, SearchTailOctets;
    SearchTailOnTheWire();
    SearchHeadOnTheWire(Present(CN));
    ShortMessage(1, SearchRequest([], 2, 3, 4, 5, true, Present(CN), []));
  }

  /** The end of a search whose base does not exist, with the closest name that does and a text. */
  lemma ResultOnTheWire(dn: Utf8String, text: Utf8String)
    requires |dn| + |text| < 0x70
    ensures MessageOctets(LdapMessage(2, SearchResultDone(LdapResult(NoSuchObject, dn, text)), [])) ==
            [0x30, |dn| + |text| + 12, 0x02, 0x01, 0x02, 0x65, |dn| + |text| + 7]
            + ([0x0A, 0x01, 0x20] + (([0x04, |dn|] + dn) + ([0x04, |text|] + text)))
  {
    hide TlvOctets, IntegerOctets, MessageOctets, IsUtf8;
    ShortTlv(TAG_OCTET_STRING, dn);
    ShortTlv(TAG_OCTET_STRING, text);
    ShortInteger(TAG_ENUMERATED, 0x20);
    ShortMessage(2, SearchResultDone(LdapResult(NoSuchObject, dn, text)));
  }

  /** The imperative message encoder. */
  method EncodeMessage(m: LdapMessage) returns (out: seq<byte>)
    ensures out == MessageOctets(m)
  {
    hide TlvOctets, IntegerOctets, OpBody, ListOctets;
    var id := IntToBytes(m.id);
    var body := EncodeTlv(TAG_INTEGER, id, []);
    body := EncodeTlv(OpTag(m.op), OpBody(m.op), body);
    if m.controls != [] {
      var controls := EncodeList(ControlElement, m.controls);
      body := EncodeTlv(CONTROLS_TAG, controls, body);
    }
    assert body == MessageBody(m);
    out := EncodeTlv(TAG_SEQUENCE, body, []);
  }

  /** The imperative message decoder. */
  method DecodeMessage(bytes: seq<byte>) returns (r: Result<LdapMessage, BerError>)
    ensures r == MessageOf(bytes)
  {
    hide TlvOf, IntegerOf, OpOf, ListOf;
    var message :- DecodeTlv(bytes);
    if message.0.tag != TAG_SEQUENCE {
      return Err(UnexpectedTag(TAG_SEQUENCE, message.0.tag));
    }
    var first :- DecodeTlv(message.0.value);
    if first.0.tag != TAG_INTEGER {
      return Err(UnexpectedTag(TAG_INTEGER, first.0.tag));
    }
    var id :- DecodeIntegerValue(first.0.value);
    var second :- DecodeTlv(first.1);
    var op :- OpOf(second.0.tag, second.0.value);
    var controls: seq<Control> := [];
    if second.1 != [] {
      var third :- DecodeTlv(second.1);
      if third.0.tag != CONTROLS_TAG {
        return Err(UnexpectedTag(CONTROLS_TAG, third.0.tag));
      }
      controls :- DecodeList(ControlOf, third.0.value);
      if third.1 != [] {
        return Err(TrailingData(|third.1|));
      }
    }
    r := Ok(LdapMessage(AsI32(id), op, controls));
  }
}
