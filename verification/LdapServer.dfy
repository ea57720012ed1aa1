/** The connection loop: reassembling messages from whatever pieces the stream delivers. */
module LdapServer {
  import opened Bytes
  import opened Ber
  import opened LdapMessages

  /** One attempt to take a message off the front of the buffer. */
  datatype Attempt = NeedMore | Got(message: LdapMessage, consumed: nat) | Malformed(error: BerError)

  function TryDecode(buf: seq<byte>): (a: Attempt)
    ensures a.Got? ==> 0 < a.consumed <= |buf|
  {
    match TlvOf(buf)
    case Err(e) => if AsksForMore(e) then NeedMore else Malformed(e)
    case Ok((_, rest)) =>
      var consumed := |buf| - |rest|;
      match MessageOf(buf[..consumed])
      case Ok(m) => Got(m, consumed)
      case Err(e) => Malformed(e)
  }

  datatype Verdict = PeerClosed | Unbound | Refused(error: BerError)

  datatype Outcome = Outcome(dispatched: seq<LdapMessage>, verdict: Verdict)

  function After(m: LdapMessage, o: Outcome): (r: Outcome)
  {
    Outcome([m] + o.dispatched, o.verdict)
  }

  /** What a whole stream amounts to when it is there from the start: its messages in order, up to an
      unbind request, the first malformed element, or octets that no longer complete a message. */
  function Serve(stream: seq<byte>): (o: Outcome)
    decreases |stream|
  {
    match TryDecode(stream)
    case NeedMore => Outcome([], PeerClosed)
    case Malformed(e) => Outcome([], Refused(e))
    case Got(m, k) => if m.op.UnbindRequest? then Outcome([m], Unbound) else After(m, Serve(stream[k..]))
  }

  /** A decision on a buffer stands whatever arrives later. */
  lemma TryDecodeStable(buf: seq<byte>, more: seq<byte>)
    requires !TryDecode(buf).NeedMore?
    ensures TryDecode(buf + more) == TryDecode(buf)
  {
    hide MessageOf, TlvOf;
    TlvStable(buf, more);
    if TlvOf(buf).Ok? {
      var consumed := |buf| - |TlvOf(buf).value.1|;
      assert (buf + more)[..consumed] == buf[..consumed];
    }
  }

  /** Strict prefixes of a complete element never provoke a decision. */
  lemma PrefixNeedsMore(buf: seq<byte>, k: nat)
    requires TlvOf(buf).Ok? && k < |buf| - |TlvOf(buf).value.1|
    ensures TryDecode(buf[..k]).NeedMore?
  {
    hide MessageOf, TlvOf;
    PrefixAsksForMore(buf, k);
  }

  /** The loop waits exactly as long as further octets could complete the element at the front. */
  lemma WaitsWhileCompletable(buf: seq<byte>)
    ensures TryDecode(buf).NeedMore? <==> TlvOf(buf).Err? && exists more :: TlvOf(buf + more).Ok?
  {
    hide MessageOf, TlvOf;
    if TlvOf(buf).Err? {
      AsksWhileCompletable(buf);
    }
  }

  /** What a buffer is refused for: an element that nothing could complete, or a complete element that is
      not a message; a complete element that is one is taken off whole. */
  lemma RefusedFor(buf: seq<byte>)
    ensures TryDecode(buf).Malformed? && TlvOf(buf).Err? ==> TryDecode(buf).error == TlvOf(buf).error
    ensures TlvOf(buf).Ok? ==>
              var element := buf[..|buf| - |TlvOf(buf).value.1|];
              && (MessageOf(element).Err? ==> TryDecode(buf) == Malformed(MessageOf(element).error))
              && (MessageOf(element).Ok? ==> TryDecode(buf) == Got(MessageOf(element).value, |element|))
  {
    hide MessageOf, TlvOf;
  }

  /** The reads before the first one that delivers nothing, which is how the stream reports its end. */
  function UntilClosed(chunks: seq<seq<byte>>): (r: seq<seq<byte>>)
  {
    if chunks == [] || chunks[0] == [] then [] else [chunks[0]] + UntilClosed(chunks[1..])
  }

  function Extend(done: seq<LdapMessage>, o: Outcome): (r: Outcome)
  {
    Outcome(done + o.dispatched, o.verdict)
  }

  /** The loop itself, over the reads that the stream will deliver. Its outcome depends on the octets
      alone, never on how they were cut: it is what serving the concatenation at once gives. Octets
      taken off the buffer and octets left in it are always the octets read so far. */
  method ServeConnection(chunks: seq<seq<byte>>)
    returns (dispatched: seq<LdapMessage>, verdict: Verdict, taken: seq<byte>, buf: seq<byte>, count: nat)
    ensures Outcome(dispatched, verdict) == Serve(Flatten(UntilClosed(chunks)))
    ensures count <= |chunks| && taken + buf == Flatten(chunks[..count])
  {
    hide TryDecode, Run, Flatten, Extend;
    dispatched, taken, buf, count := [], [], [], 0;
    assert chunks[0..] == chunks && chunks[..0] == [];
    Nothing(chunks);
    while true
      invariant count <= |chunks|
      invariant taken + buf == Flatten(chunks[..count])
      invariant Run([], chunks) == Extend(dispatched, Run(buf, chunks[count..]))
      decreases |chunks| - count, |buf|
    {
      RunIs(buf, chunks[count..]);
      match TryDecode(buf) {
        case Got(m, consumed) =>
          ExtendStep(dispatched, m, Run(buf[consumed..], chunks[count..]));
          assert taken + buf == (taken + buf[..consumed]) + buf[consumed..];
          taken, buf := taken + buf[..consumed], buf[consumed..];
          dispatched := dispatched + [m];
          if m.op.UnbindRequest? {
            RunServesAll(chunks);
            return dispatched, Unbound, taken, buf, count;
          }
        case Malformed(e) =>
          ExtendEnd(dispatched, Refused(e));
          RunServesAll(chunks);
          return dispatched, Refused(e), taken, buf, count;
        case NeedMore =>
          if count == |chunks| || chunks[count] == [] {
            ExtendEnd(dispatched, PeerClosed);
            RunServesAll(chunks);
            return dispatched, PeerClosed, taken, buf, count;
          }
          assert chunks[count..][0] == chunks[count] && chunks[count..][1..] == chunks[count + 1..];
          NextRead(chunks, count, buf, taken);
          buf, count := buf + chunks[count], count + 1;
      }
    }
  }

  lemma Nothing(chunks: seq<seq<byte>>)
    ensures Flatten([]) == [] && Run([], chunks) == Extend([], Run([], chunks))
  {
    hide Run;
    assert [] + Run([], chunks).dispatched == Run([], chunks).dispatched;
  }

  lemma RunServesAll(chunks: seq<seq<byte>>)
    ensures Run([], chunks) == Serve(Flatten(UntilClosed(chunks)))
  {
    hide Run, Serve;
    RunServes([], chunks);
    assert [] + Flatten(UntilClosed(chunks)) == Flatten(UntilClosed(chunks));
  }

  /** What the state machine does next. */
  lemma RunIs(buf: seq<byte>, chunks: seq<seq<byte>>)
    ensures var d := TryDecode(buf);
            && (d.Malformed? ==> Run(buf, chunks) == Outcome([], Refused(d.error)))
            && (d.Got? && d.message.op.UnbindRequest? ==> Run(buf, chunks) == Outcome([d.message], Unbound))
            && (d.Got? && !d.message.op.UnbindRequest? ==>
                Run(buf, chunks) == After(d.message, Run(buf[d.consumed..], chunks)))
            && (d.NeedMore? && (chunks == [] || chunks[0] == []) ==> Run(buf, chunks) == Outcome([], PeerClosed))
            && (d.NeedMore? && chunks != [] && chunks[0] != [] ==>
                Run(buf, chunks) == Run(buf + chunks[0], chunks[1..]))
  {
    hide TryDecode;
  }

  lemma ExtendEnd(done: seq<LdapMessage>, v: Verdict)
    ensures Extend(done, Outcome([], v)) == Outcome(done, v)
  {
    assert done + [] == done;
  }

  lemma ExtendStep(done: seq<LdapMessage>, m: LdapMessage, o: Outcome)
    ensures Extend(done, After(m, o)) == Extend(done + [m], o)
    ensures Extend(done, Outcome([m], Unbound)) == Outcome(done + [m], Unbound)
  {
    assert done + ([m] + o.dispatched) == (done + [m]) + o.dispatched;
  }

  lemma NextRead(chunks: seq<seq<byte>>, count: nat, buf: seq<byte>, taken: seq<byte>)
    requires count < |chunks|
    requires taken + buf == Flatten(chunks[..count])
    ensures taken + (buf + chunks[count]) == Flatten(chunks[..count + 1])
  {
    var next := chunks[count];
    assert chunks[..count + 1] == chunks[..count] + [next];
    FlattenAppend(chunks[..count], [next]);
    assert Flatten([next]) == next + Flatten([next][1..]) == next;
    assert taken + (buf + next) == (taken + buf) + next;
  }

  // ---- The same loop as a state machine, and its independence of the cut ----

  /** Everything the loop does with `chunks` still to be read and `buf` in the buffer. */
  function Run(buf: seq<byte>, chunks: seq<seq<byte>>): (o: Outcome)
    decreases |chunks|, |buf|
  {
    match TryDecode(buf)
    case Malformed(e) => Outcome([], Refused(e))
    case Got(m, k) => if m.op.UnbindRequest? then Outcome([m], Unbound) else After(m, Run(buf[k..], chunks))
    case NeedMore =>
      if chunks == [] || chunks[0] == [] then Outcome([], PeerClosed)
      else Run(buf + chunks[0], chunks[1..])
  }

  lemma {:induction false} RunServes(buf: seq<byte>, chunks: seq<seq<byte>>)
    ensures Run(buf, chunks) == Serve(buf + Flatten(UntilClosed(chunks)))
    decreases |chunks|, |buf|
  {
    hide TryDecode, MessageOf;
    var ahead := Flatten(UntilClosed(chunks));
    match TryDecode(buf)
    case Malformed(_) => TryDecodeStable(buf, ahead);
    case Got(m, k) =>
      TryDecodeStable(buf, ahead);
      assert (buf + ahead)[k..] == buf[k..] + ahead;
      RunServes(buf[k..], chunks);
    case NeedMore =>
      if chunks == [] || chunks[0] == [] {
        assert buf + [] == buf;
      } else {
        RunServes(buf + chunks[0], chunks[1..]);
        var rest := UntilClosed(chunks[1..]);
        assert ([chunks[0]] + rest)[1..] == rest;
        assert buf + (chunks[0] + Flatten(rest)) == (buf + chunks[0]) + Flatten(rest);
      }
  }

  /** Two ways of cutting the same octets, well formed or not, into reads give the same messages, the
      same verdict and the same error. */
  lemma ChunkingIndependent(a: seq<seq<byte>>, b: seq<seq<byte>>)
    requires Flatten(UntilClosed(a)) == Flatten(UntilClosed(b))
    ensures Run([], a) == Run([], b)
  {
    RunServes([], a);
    RunServes([], b);
  }

  // ---- End to end ----

  function Encoded(ms: seq<LdapMessage>): (bs: seq<byte>)
  {
    if ms == [] then [] else MessageOctets(ms[0]) + Encoded(ms[1..])
  }

  predicate Sendable(ms: seq<LdapMessage>) {
    forall i | 0 <= i < |ms| :: Fits(MessageBody(ms[i])) && (ms[i].op.UnbindRequest? ==> i == |ms| - 1)
  }

  lemma OneMessage(m: LdapMessage, after: seq<byte>)
    requires Fits(MessageBody(m))
    ensures TryDecode(MessageOctets(m) + after) == Got(m, |MessageOctets(m)|)
  {
    hide MessageOf, MessageBody, TlvOf, TlvOctets, Pow256;
    var octets := MessageOctets(m);
    Peel(TAG_SEQUENCE, MessageBody(m), after);
    Pow256Values();
    MessageRoundTrip(m, []);
    assert octets + [] == octets && (octets + after)[..|octets|] == octets;
  }

  lemma ServeStep(m: LdapMessage, after: seq<byte>)
    requires Fits(MessageBody(m))
    ensures Serve(MessageOctets(m) + after) ==
            if m.op.UnbindRequest? then Outcome([m], Unbound) else After(m, Serve(after))
  {
    hide TryDecode, MessageOctets, MessageBody;
    OneMessage(m, after);
    assert (MessageOctets(m) + after)[|MessageOctets(m)|..] == after;
  }

  lemma SendableTail(ms: seq<LdapMessage>)
    requires Sendable(ms) && ms != []
    ensures Sendable(ms[1..]) && Fits(MessageBody(ms[0])) && (ms[0].op.UnbindRequest? ==> ms == [ms[0]])
  {
    hide MessageBody;
    forall i | 0 <= i < |ms[1..]|
      ensures Fits(MessageBody(ms[1..][i])) && (ms[1..][i].op.UnbindRequest? ==> i == |ms[1..]| - 1)
    {
      assert ms[1..][i] == ms[i + 1];
    }
  }

  predicate EndsInUnbind(ms: seq<LdapMessage>) {
    ms != [] && ms[|ms| - 1].op.UnbindRequest?
  }

  lemma EndsInTail(ms: seq<LdapMessage>)
    requires ms != []
    ensures ms == [ms[0]] + ms[1..]
    ensures |ms| > 1 ==> (EndsInUnbind(ms) <==> EndsInUnbind(ms[1..]))
    ensures |ms| == 1 ==> ms[1..] == [] && (EndsInUnbind(ms) <==> ms[0].op.UnbindRequest?)
    ensures !EndsInUnbind([])
  {
  }

  lemma ExtendNothing(o: Outcome)
    ensures Extend([], o) == o && !EndsInUnbind([])
  {
    assert [] + o.dispatched == o.dispatched;
  }

  lemma ExtendMore(m: LdapMessage, ms: seq<LdapMessage>, o: Outcome)
    ensures After(m, Extend(ms, o)) == Extend([m] + ms, o)
    ensures forall v :: After(m, Outcome(ms, v)) == Outcome([m] + ms, v)
  {
    assert [m] + (ms + o.dispatched) == ([m] + ms) + o.dispatched;
  }

  lemma EncodedCons(ms: seq<LdapMessage>, rest: seq<byte>)
    ensures Encoded(ms) + rest ==
            if ms == [] then rest else MessageOctets(ms[0]) + (Encoded(ms[1..]) + rest)
  {
    hide MessageOctets;
  }

  /** Messages in front of anything else: they are dispatched in order, and what follows decides the rest,
      unless the last of them is an unbind request, after which nothing is looked at. */
  lemma {:induction false} EncodedServed(ms: seq<LdapMessage>, rest: seq<byte>)
    requires Sendable(ms)
    ensures Serve(Encoded(ms) + rest) == if EndsInUnbind(ms) then Outcome(ms, Unbound) else Extend(ms, Serve(rest))
    decreases |ms|
  {
    hide Serve, MessageOctets, Sendable, Encoded, EndsInUnbind, After, Extend;
    EncodedCons(ms, rest);
    if ms == [] {
      ExtendNothing(Serve(rest));
    } else {
      var m, tail := ms[0], ms[1..];
      SendableTail(ms);
      EndsInTail(ms);
      ServeStep(m, Encoded(tail) + rest);
      EncodedServed(tail, rest);
      ExtendMore(m, tail, Serve(rest));
    }
  }

  /** A client that sends messages back to back, and then anything, has each of the messages dispatched once
      and in order, however the transport cuts the octets. After an unbind request nothing else counts.
      Otherwise octets that no longer complete a message end the connection as closed by the peer, and a
      malformed element ends it with its error. */
  lemma DeliversExactly(ms: seq<LdapMessage>, rest: seq<byte>, chunks: seq<seq<byte>>)
    requires Sendable(ms) && Flatten(UntilClosed(chunks)) == Encoded(ms) + rest
    ensures var o, unbound := Run([], chunks), EndsInUnbind(ms);
            && (unbound ==> o == Outcome(ms, Unbound))
            && (!unbound && TryDecode(rest).NeedMore? ==> o == Outcome(ms, PeerClosed))
            && (!unbound && TryDecode(rest).Malformed? ==> o == Outcome(ms, Refused(TryDecode(rest).error)))
            && (!unbound && TryDecode(rest).Got? ==> |o.dispatched| > |ms| && o.dispatched[..|ms| + 1] ==
                                                     ms + [TryDecode(rest).message])
  {
    hide TryDecode, Run, Encoded, Sendable, Flatten, UntilClosed;
    RunServes([], chunks);
    EncodedServed(ms, rest);
    assert [] + (Encoded(ms) + rest) == Encoded(ms) + rest;
    assert ms + [] == ms;
    if TryDecode(rest).Got? && !EndsInUnbind(ms) {
      var more := Serve(rest).dispatched;
      assert more != [] && more[0] == TryDecode(rest).message;
      assert (ms + more)[..|ms| + 1] == ms + [more[0]];
    }
  }
}
