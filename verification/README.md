# Adrian: a verified model

Adrian is a directory service written in Rust. This project models its protocol and state cores in
Dafny and proves what they promise.

- **LDAP.** BER elements and integers, search filters on the wire and as text, whole messages, the
  connection loop that reassembles messages from reads, filter evaluation and substring matching, name
  scoping, search candidates and modify changes.
- **NDR, DCE/RPC and DRSUAPI.** The position-dependent NDR encoding, the Bind, Bind_ack and Request PDUs
  and their framing, the replication structures, up-to-dateness vectors, conflict resolution, and the
  GetNCChanges handler behind the wire.
- **RID pools.** SIDs, the ordered key/value store with its transactions, allocation, batches, reports and
  reclaims, up to whole interleaved runs over many pools.
- **Identity mapping.** The forward and reverse indexes and the two caches in front of them.
- **Key rotation.** HSM key versions, and krbtgt rotation with its HSM step and its promotion as separate
  steps.
- **Raft receivers.** AppendEntries and RequestVote over whole runs of a cluster: log matching, leader
  completeness, and that after every run a new leader can be elected.

Most modules state an operation twice: as a specification function, about which the lemmas speak, and as
the imperative method or class that the source has, proved to compute that function.

## How the source is represented

- Machine integers are subset types of `int`; every truncating cast is an explicit modulus, every
  saturating operation an explicit bound. Text in the LDAP and DCE/RPC modules is a UTF-8 octet sequence,
  text in the replication structures is `string`.
- Errors are kept as the distinctions a caller can act on, not with their messages.
- Reads of a socket are an arbitrary list of chunks, an empty one being the end of the stream. A store
  transaction is one atomic step. Random key material, the directory behind a handler and the lossy UTF-8
  conversion of the matcher are parameters; of the conversion the lemmas on pattern texts assume that it
  leaves the empty value empty.
- A 64-bit counter that would overflow in the RID allocator is an error that leaves the store unchanged, as
  the arithmetic check of the Rust code stops the call before its commit.
- The writers and readers are given alignments that are powers of two, as all callers do.
- A few LDAP lemmas assume an encoded length below 2^64, which every vector in memory satisfies.

## Where code and stated intent differ

The model follows the code.

- Printing a substring filter writes stars only around any parts; `TextRoundTrip` has the exact condition,
  `InitialFinalIsLost` the failing family.
- Ordering and approximate filters with an unescaped star parse to an empty value
  (`StarredOrderingIsEmptied`).
- A subtree search lists an existing base twice (`BaseComesBackTwice`, `ComesBackAsStoredWhen`).
- A prefix scan reads only the prefix itself when that ends in 0xFF, so such a pool is not reclaimed
  (`ReclaimRemoves`, `ReclaimRestarts`).
- Reclaiming such a domain resets its mark but not its counter, and a single allocation then dispenses past
  its mark (`LeftBehindItsCounter`, `DispensedWithinMark`).
- RIDs wrap around at 32 bits without an error (`BatchIsSingles`, `BatchRefinesSingles`, `PoolRun`).
- `merge` takes the minimum of the low USNs where its comment says the maximum
  (`LowIsGreaterWhen`, `LowIsGreatestWhen`, `LowGoesDown`).
- The length field of a DSNAME is documented as its total size, but leaves out the padding at the end
  (`DsNameSize`).
- `rotate` does not hold the lock across the HSM step, so promotions can overtake each other
  (`QuiescentCurrent`, `OverlapGoesBack`).
- The Raft commit index is bounded by the last log entry, not by the last entry of the message
  (`CommitAgrees`, `HeartbeatCommitsLeftover`), and is kept when committed entries are dropped
  (`CommittedSurvive`, `CommittedDropped`).
- Replicas keep different values under one greatest stamp (`ReplicasConverge`, `EqualStampsDiverge`).

## Model

| member | source | states |
|---|---|---|
| Ber.TlvRoundTrip | rust/crates/adrian-directory-service/src/ber.rs:228-285 | for every tag, value and following octets, decoding the encoded element returns it and leaves exactly those octets, if and only if the tag is a one-octet tag and the value length fits four length octets |
| Ber.TlvStable | rust/crates/adrian-directory-service/src/ber.rs:240-285 | a decoding verdict other than a request for more octets does not change when any octets are appended |
| Ber.PrefixAsksForMore | rust/crates/adrian-directory-service/src/ber.rs:240-285 | every strict prefix of a well-formed element is answered with a request for more octets, never with an error |
| Ber.LengthShortest | rust/crates/adrian-directory-service/src/ber.rs:210-225 | no header the decoder accepts for a length is shorter than the one the encoder emits |
| Ber.TlvAccepts | rust/crates/adrian-directory-service/src/ber.rs:240-285 | an element is taken off the front if and only if the octets are a one-octet tag, a definite length of the content (one octet below 128, or a count of one to four and that many octets, leading zeroes allowed), the content and the rest |
| Ber.AsksWhileCompletable | rust/crates/adrian-directory-service/src/ber.rs:240-285 | the decoder asks for more octets if and only if some octets could complete the element |
| Ber.RefusalIs | rust/crates/adrian-directory-service/src/ber.rs:240-285 | why elements that cannot be completed are refused: long-form tags, indefinite lengths, and more than four length octets |
| Ber.IntegerRoundTripShortest | rust/crates/adrian-directory-service/src/ber.rs:330-375 | over all 64-bit values: 1 to 8 octets, lossless through the decoder, minimal among all octet strings of that value, no redundant sign octet (section 8.3.2 of ITU-T X.690) |
| Ber.IntegerAccepts | rust/crates/adrian-directory-service/src/ber.rs:358-375 | one to eight octets are a number, and nothing else is |
| Ber.EncodeLength | rust/crates/adrian-directory-service/src/ber.rs:210-225 | the loop that pushes length octets in front of one another computes the specified length octets |
| Ber.DecodeTlv | rust/crates/adrian-directory-service/src/ber.rs:240-285 | the loop that accumulates a long-form length has the specified outcome on every input, errors included |
| Ber.IntToBytes | rust/crates/adrian-directory-service/src/ber.rs:330-354 | the shifting loop computes the shortest two's-complement form |
| Ber.DecodeIntegerValue | rust/crates/adrian-directory-service/src/ber.rs:358-375 | the accumulating loop computes the signed value, and refuses no octets and more than eight |
| Filters.FilterRoundTrip | rust/crates/adrian-directory-service/src/filter.rs:127-287 | every filter, however deeply nested, decodes from its encoding in front of any octets, if and only if its content fits four length octets |
| Filters.AcceptedIsCanonicalised | rust/crates/adrian-directory-service/src/filter.rs:190-287 | whatever octets the decoder accepts as a filter, the encoder's octets for that filter are no longer and decode to the same filter |
| Filters.LongLengthRefused | rust/crates/adrian-directory-service/src/ber.rs:240-285 | an element that needs five to eight length octets is refused with a length error |
| Filters.AssertionReads | rust/crates/adrian-directory-service/src/filter.rs:190-287 | an assertion is read whatever the tags of its attribute and value elements |
| Filters.SubstringFilterReads | rust/crates/adrian-directory-service/src/filter.rs:190-287 | so is a substring filter, for any parts |
| Filters.ChoicesOnTheWire | rust/crates/adrian-directory-service/src/filter.rs:127-187 | the octets of the five single tests over short names and values, each choice under its number (section 4.5.1 of RFC 4511) |
| Filters.ConnectivesOnTheWire | rust/crates/adrian-directory-service/src/filter.rs:127-187 | the octets of And, Or and Not over any short filter |
| Filters.PartsOnTheWire | rust/crates/adrian-directory-service/src/filter.rs:127-187 | the octets of a substring filter with an initial, an any and a final part |
| Filters.EncodeFilter | rust/crates/adrian-directory-service/src/filter.rs:127-187 | the recursive encoder that builds inner vectors appends exactly the specified octets |
| Filters.DecodeFilter | rust/crates/adrian-directory-service/src/filter.rs:190-287 | the decoder with its loops over the remaining octets has the specified outcome on every tag and value |
| FilterText.TextRoundTrip | rust/crates/adrian-directory-service/src/filter.rs:290-616 | parsing the printed form returns the same filter if and only if it is printable: non-empty And/Or, names without operator characters or surrounding blanks, substring patterns Initial? Any+ Final? in order with non-empty parts; values are arbitrary octets (section 3 of RFC 4515) |
| FilterText.InitialFinalIsLost | rust/crates/adrian-directory-service/src/filter.rs:316-322 | for all names and parts, an initial and a final part without an any part between them print without a star and come back as an equality |
| FilterText.BlanksAround | rust/crates/adrian-directory-service/src/filter.rs:368-386 | blanks around a printed filter do not matter, and anything else behind it is refused at its position |
| FilterValues.AsciiBlanks | rust/crates/adrian-directory-service/src/filter.rs:368-386 | the blanks around a filter are the ASCII ones among those around a name, but for the vertical tab |
| FilterValues.RawParses | rust/crates/adrian-directory-service/src/filter.rs:467-553 | a name, an operator and any value text parse if and only if the text is well escaped, to what the operator makes of the pieces between the stars |
| FilterValues.NameIsTrimmed | rust/crates/adrian-directory-service/src/filter.rs:467-485 | blanks around a name make no difference |
| FilterValues.StarCutIs | rust/crates/adrian-directory-service/src/filter.rs:558-616 | the cut at the stars outside escapes, joined by stars, is the text again, and is one piece if and only if there is no such star |
| FilterValues.StarCutOfJoin | rust/crates/adrian-directory-service/src/filter.rs:558-616 | the cut is the only way to write a text as plain texts joined by stars |
| FilterValues.EqualityText | rust/crates/adrian-directory-service/src/filter.rs:467-616 | a match by the equality operator over any value text parses if and only if the text is well escaped: to an equality with the value it spells without a star, to a presence test if it is nothing but stars, and otherwise to the pattern with the first piece initial, the last final, those between any, and empty ones dropped |
| FilterValues.OneStarSeparates | rust/crates/adrian-directory-service/src/filter.rs:596-606 | (name=a*b) is a pattern with an initial and a final part |
| FilterValues.HexEitherCase | rust/crates/adrian-directory-service/src/filter.rs:558-616 | the digits of an escape may be of either case |
| FilterValues.StarredOrderingIsEmptied | rust/crates/adrian-directory-service/src/filter.rs:467-553 | an ordering or approximate filter over any value text parses if and only if the text is well escaped; its value is then the one the text spells if and only if no star stands outside an escape, and otherwise empty; an error for a bare star is declared but no text is refused for one |
| FilterValues.LoneStar | rust/crates/adrian-directory-service/src/filter.rs:467-616 | (cn>=al*ce) comes back with the empty value, (cn=al*ce) with an initial and a final part |
| Utf8Text.Utf8Exactly | rust/crates/adrian-directory-service/src/ber.rs:389-394 | octets are accepted as a string if and only if they are the UTF-8 form of some text |
| Utf8Text.TrimIs | rust/crates/adrian-directory-service/src/filter.rs:476-480 | trimming takes away the blanks on both sides of a text, and nothing else |
| Utf8Text.BlankSizeIs | rust/crates/adrian-directory-service/src/filter.rs:476-480 | the blanks are the characters with the Unicode property White_Space |
| FilterText.EscapeValue | rust/crates/adrian-directory-service/src/filter.rs:341-362 | the escaping loop computes the specified text of any octets |
| FilterText.EscapeIsPrintable | rust/crates/adrian-directory-service/src/filter.rs:341-362 | a printed value is printable ASCII, and the value itself if and only if no octet of it needs an escape |
| FilterText.Display | rust/crates/adrian-directory-service/src/filter.rs:290-337 | the printer, with its loops over parts and lists, writes the specified text |
| FilterText.ParsePieces | rust/crates/adrian-directory-service/src/filter.rs:558-616 | the value loop with its escapes and stars has the specified pieces, end position and errors at every position of every input |
| FilterText.ParseFilter | rust/crates/adrian-directory-service/src/filter.rs:368-463 | the recursive descent over a shared position has the specified outcome on every input, trailing text included |
| LdapMessages.MessageRoundTrip | rust/crates/adrian-directory-service/src/types.rs:1096-1240 | every message (twelve operations, nested filters, attribute lists, controls) decodes to itself in front of any octets, if and only if its content fits four length octets |
| LdapMessages.OpRoundTrip | rust/crates/adrian-directory-service/src/types.rs:191-895 | each operation's decoder undoes its encoder whenever the body fits |
| LdapMessages.ListRoundTrip | rust/crates/adrian-directory-service/src/types.rs:358-431 | any list of elements read by a loop until the octets run out is the list written, given that each element reads back |
| LdapMessages.SearchReads | rust/crates/adrian-directory-service/src/types.rs:287-350 | the numbers of a search request are cut to their width, and its base and all numbers but the scope are read under any tag |
| LdapMessages.BindRequestReads | rust/crates/adrian-directory-service/src/types.rs:512-565 | the version of a bind request is cut to an octet, and its name is read under any tag |
| LdapMessages.ChangeReads | rust/crates/adrian-directory-service/src/types.rs:656-785 | a change is read with its operation under any tag, refused for any number but 0, 1 and 2, and whatever follows its attribute |
| LdapMessages.AttributeReads | rust/crates/adrian-directory-service/src/types.rs:385-431 | an attribute is read with its name under any tag |
| LdapMessages.ControlReads | rust/crates/adrian-directory-service/src/types.rs:1021-1070 | the accepted forms of a control: a missing criticality is false, any octet but zero is true, the value may be missing |
| LdapMessages.MessageBodyReads | rust/crates/adrian-directory-service/src/types.rs:1189-1240 | the message identifier is cut to 32 bits |
| LdapMessages.AsI32Is | rust/crates/adrian-directory-service/src/types.rs:1189-1240 | the cut to 32 bits keeps a number modulo 2^32 |
| LdapMessages.CodesByNumber | rust/crates/adrian-directory-service/src/types.rs:111-165 | a result code is read by its number, and every number without a code of its own as other, 80 |
| LdapMessages.WrongTag | rust/crates/adrian-directory-service/src/types.rs:191-1240 | a refusal for a tag names the tag expected and the tag that came |
| LdapMessages.SearchOnTheWire | rust/crates/adrian-directory-service/src/types.rs:265-285 | the octets of a search request with all its numbers different (section 4.5.1 of RFC 4511) |
| LdapMessages.ResultOnTheWire | rust/crates/adrian-directory-service/src/types.rs:191-197 | the octets of a search result for any short name and text (section 4.1.9 of RFC 4511) |
| LdapMessages.EncodeMessage | rust/crates/adrian-directory-service/src/types.rs:1171-1185 | the encoder writes the specified octets |
| LdapMessages.DecodeMessage | rust/crates/adrian-directory-service/src/types.rs:1189-1240 | the decoder has the specified outcome on every input |
| LdapServer.ServeConnection | rust/crates/adrian-directory-service/src/server.rs:88-130 | for every list of reads, the buffer loop dispatches the messages and ends with the verdict that the whole octet stream determines; octets taken plus octets buffered are the octets read |
| LdapServer.TryDecodeStable | rust/crates/adrian-directory-service/src/server.rs:136-153 | a decision on a buffer stands whatever arrives later |
| LdapServer.PrefixNeedsMore | rust/crates/adrian-directory-service/src/server.rs:136-153 | a buffer that holds a strict prefix of an element provokes no decision |
| LdapServer.WaitsWhileCompletable | rust/crates/adrian-directory-service/src/server.rs:136-153 | the loop waits if and only if further octets could complete the element at the front of the buffer |
| LdapServer.RefusedFor | rust/crates/adrian-directory-service/src/server.rs:136-153 | a refusal carries the error of the element that nothing could complete, or of the complete element that is not a message; a complete message is taken off whole |
| LdapServer.RunServes | rust/crates/adrian-directory-service/src/server.rs:88-153 | a run over reads from any buffer content equals serving the concatenated octets at once |
| LdapServer.ChunkingIndependent | rust/crates/adrian-directory-service/src/server.rs:88-153 | two ways of cutting the same octets, well formed or not, into reads give the same messages in the same order, the same verdict and the same error |
| LdapServer.DeliversExactly | rust/crates/adrian-directory-service/src/server.rs:88-153 | messages sent back to back and followed by anything are each dispatched once and in order, however the transport cuts them; after an unbind request nothing else counts, a truncated element ends the connection as closed by the peer, and a malformed one with its error |
| SubstringMatch.GreedyIsComplete | rust/crates/adrian-directory-service/src/handler.rs:324-364 | taking the leftmost occurrence of each part never loses a match |
| SubstringMatch.AcceptsExactlySplits | rust/crates/adrian-directory-service/src/handler.rs:324-364 | the greedy test accepts if and only if the value splits as initial, gap, any1, gap, ..., gap, final without overlap (section 4.5.1.7.2 of RFC 4511) |
| SubstringMatch.SubstringsMatch | rust/crates/adrian-directory-service/src/handler.rs:324-364 | the imperative matcher accepts exactly those splits of the case-folded value, for any number of parts, empty ones included |
| SubstringMatch.SubstringFilterMeaning | rust/crates/adrian-directory-service/src/handler.rs:265-320 | a substring filter holds of an entry if and only if some value of the named attribute splits as the pattern says |
| FilterMeaning.ConnectiveLaws | rust/crates/adrian-directory-service/src/handler.rs:265-271 | a conjunction holds if and only if all members do, a disjunction if and only if one does, a negation if and only if its member does not; the empty conjunction holds, the empty disjunction does not |
| FilterMeaning.PushedMatches | rust/crates/adrian-directory-service/src/handler.rs:265-271 | pushing negations inwards to single tests keeps the verdict on every entry |
| FilterMeaning.SomeValue | rust/crates/adrian-directory-service/src/handler.rs:271-320 | a single test holds of an entry if and only if it holds of one of its values |
| FilterMeaning.OneValue | rust/crates/adrian-directory-service/src/handler.rs:271-299 | what presence, equality, approximate match and the two orderings say of one value: names and approximate values up to the case of ASCII letters, orderings in lexicographic order of the text |
| FilterMeaning.TestStrength | rust/crates/adrian-directory-service/src/handler.rs:271-299 | an equality implies the approximate match and both orderings, and each of these implies presence |
| FilterMeaning.OrderingsMeet | rust/crates/adrian-directory-service/src/handler.rs:286-299 | of one value some ordering of a bound always holds, and both if and only if the texts are equal |
| FilterMeaning.PartsCollected | rust/crates/adrian-directory-service/src/handler.rs:300-312 | of several initial or final parts the last counts, and the any parts keep their order |
| FilterMeaning.PatternTextMeaning | rust/crates/adrian-directory-service/src/handler.rs:300-364 | the text (name=p1*...*pn) of two pieces or more, empty ones included, holds of an entry if and only if some value of the attribute is, up to case, the pieces in order with arbitrary gaps between them |
| FilterMeaning.TwoPieceMeaning | rust/crates/adrian-directory-service/src/handler.rs:300-364 | (name=a*b) holds if and only if some value folds to a, a gap, then b |
| FilterMeaning.FilterMatches | rust/crates/adrian-directory-service/src/handler.rs:265-320 | the recursive evaluator with its loops decides the filter |
| SubstringMatch.CollectParts | rust/crates/adrian-directory-service/src/handler.rs:265-320 | one pass over the parts keeps the last initial, all anys in order, and the last final |
| DistinguishedNames.ScopeTests | rust/crates/adrian-directory-service/src/handler.rs:188-228 | on normalised names the string tests for child and descendant are exactly the relations on RDN lists, up to case |
| DistinguishedNames.DescendantIsClosure | rust/crates/adrian-directory-service/src/handler.rs:188-228 | being a descendant is the reflexive-transitive closure of being a child |
| DistinguishedNames.JoinInjective | rust/crates/adrian-directory-service/src/handler.rs:188-228 | normalised RDN lists with the same joined name are equal |
| DirectoryHandlers.GatherCandidates | rust/crates/adrian-directory-service/src/handler.rs:146-184 | the gathering loop lists the specified candidates for every scope, unknown scopes refused |
| DirectoryHandlers.CandidateCounts | rust/crates/adrian-directory-service/src/handler.rs:146-184 | a base search returns the looked-up entry and nothing else; a one-level search returns every entry directly below the base as often as it is stored, and no other |
| DirectoryHandlers.SelectInOrder | rust/crates/adrian-directory-service/src/handler.rs:146-184 | a search lists the store in its order |
| DirectoryHandlers.SubtreeIsClosure | rust/crates/adrian-directory-service/src/handler.rs:146-228 | as a set, a subtree search at any base, the root included, returns the looked-up base and exactly the stored entries from which steps to parent names, stored or not, lead to the base (section 4.5.1.2 of RFC 4511) |
| DirectoryHandlers.SubtreeIsIterated | rust/crates/adrian-directory-service/src/handler.rs:146-228 | a subtree search returns what one-level searches, repeated from every entry found, return together with the base, if and only if every stored entry below the base is its child or has its parent stored |
| DirectoryHandlers.OrphanIsMissed | rust/crates/adrian-directory-service/src/handler.rs:146-228 | an entry two levels below the base with nothing stored between is returned by the subtree search and by no one-level search |
| DirectoryHandlers.BaseComesBackTwice | rust/crates/adrian-directory-service/src/handler.rs:163-176 | for any store, base and lookup, an entry comes back as often as it is stored below the base, and once more when the lookup of the base found it |
| DirectoryHandlers.ComesBackAsStoredWhen | rust/crates/adrian-directory-service/src/handler.rs:163-176 | every candidate comes back as often as it is stored if and only if the lookup found nothing, or found an entry stored once that the scope test does not list; away from the root, if and only if it found nothing |
| DirectoryHandlers.ModifyPerAttribute | rust/crates/adrian-directory-service/src/handler.rs:444-499 | for every list of changes and every name, the ordered values afterwards are the fold of only the changes naming it over the values before (section 4.6 of RFC 4511) |
| DirectoryHandlers.ChangeLeavesOthers | rust/crates/adrian-directory-service/src/handler.rs:461-499 | a change leaves every attribute of another name with its spelling, value and order |
| DirectoryHandlers.StoredObject.Apply | rust/crates/adrian-directory-service/src/handler.rs:461-499 | the edit in place has exactly the specified effect of one change |
| DirectoryHandlers.StoredObject.ApplyAll | rust/crates/adrian-directory-service/src/handler.rs:444-447 | the loop over changes has the specified effect and the per-attribute meaning |
| Ndr.PadAligns | rust/crates/adrian-dcerpc/src/ndr.rs:68-82 | padding for boundaries 1, 2, 4 and 8 is the least that reaches a multiple |
| Ndr.NumbersOnTheWire | rust/crates/adrian-dcerpc/src/ndr.rs:95-111 | numbers go least significant octet first, behind zeroes up to their boundary |
| Ndr.OctetThenWord | rust/crates/adrian-dcerpc/src/ndr.rs:68-105 | the octets of an octet and a word behind it |
| Ndr.FieldsReadBack | rust/crates/adrian-dcerpc/src/ndr.rs:68-306 | any list of typed fields written from any offset, in any surrounding buffer, reads back as the same values and leaves the reader where the writer stood |
| Ndr.EmitAppend | rust/crates/adrian-dcerpc/src/ndr.rs:30-143 | what a list of fields writes is its first part followed by what the rest writes from the position reached |
| Ndr.ArrayReadsBack | rust/crates/adrian-dcerpc/src/ndr.rs:121-282 | a conformant array comes back from any position if and only if its count fits 32 bits |
| Ndr.NdrWriter.Write | rust/crates/adrian-dcerpc/src/ndr.rs:68-117 | the append-only buffer always holds the octets of the fields written so far, padding included |
| Ndr.NdrReader.ReadNumber | rust/crates/adrian-dcerpc/src/ndr.rs:199-260 | an aligned read through the cursor has the specified value, end position and errors |
| NdrStrings.StringReadsBack | rust/crates/adrian-dcerpc/src/ndr.rs:131-306 | a UTF-16 string comes back from any position if and only if its count with terminator fits 32 bits; zero characters inside it are kept |
| Utf16.TextRoundTrip | rust/crates/adrian-dcerpc/src/ndr.rs:131-306 | decoding the code units of any text returns it |
| Utf16.UnitsRoundTrip | rust/crates/adrian-dcerpc/src/ndr.rs:284-306 | code units that decode at all are the encoding of what they decode to, so unpaired surrogates are refused |
| Ndr.ListReadsBack | rust/crates/adrian-drsuapi/src/lib.rs:392-423 | a counted list of structures read one after the other from any position is the list written, given that each reads back wherever it stands |
| Drsuapi.ExtensionsReadBack | rust/crates/adrian-drsuapi/src/lib.rs:277-323 | DRS_EXTENSIONS comes back from any position if and only if its size field does not wrap around |
| Drsuapi.VectorReadsBack | rust/crates/adrian-drsuapi/src/lib.rs:392-423 | an up-to-dateness vector comes back from any position if and only if its entry count fits 32 bits |
| Drsuapi.DsNameReadsBack | rust/crates/adrian-drsuapi/src/lib.rs:506-571 | a DSNAME comes back from any position if and only if its SID length and its name's code-unit count fit 32 bits |
| Drsuapi.DsNameSize | rust/crates/adrian-drsuapi/src/lib.rs:504-534 | the length field counts the octets up to the terminator of the name and not the padding behind it; so it is the size of the structure if and only if the name has an odd number of code units |
| Drsuapi.RequestReadsBack | rust/crates/adrian-drsuapi/src/lib.rs:656-710 | a change request comes back from any position if and only if the counts in its two pointed-to structures fit |
| Drsuapi.ValueReadsBack | rust/crates/adrian-drsuapi/src/lib.rs:748-814 | an attribute value comes back although the writer pads after an empty value and the reader does not, if and only if its length fits 32 bits |
| Drsuapi.AttributeReadsBack | rust/crates/adrian-drsuapi/src/lib.rs:748-814 | an attribute comes back from any position if and only if its name's code-unit count and its value's length fit 32 bits |
| Drsuapi.ObjectReadsBack | rust/crates/adrian-drsuapi/src/lib.rs:748-814 | an object with any attributes comes back from any position if and only if every count in it fits 32 bits |
| Drsuapi.ReplyReadsBack | rust/crates/adrian-drsuapi/src/lib.rs:837-876 | a reply with any objects comes back from any position if and only if every count in it fits 32 bits |
| DrsuapiCodec.EncodeExtensions | rust/crates/adrian-drsuapi/src/lib.rs:277-291 | the writer calls append exactly the block's fields |
| DrsuapiCodec.DecodeExtensions | rust/crates/adrian-drsuapi/src/lib.rs:298-323 | the cursor calls have the specified outcome on every buffer, a size below the fixed fields refused |
| DrsuapiCodec.EncodeRequest | rust/crates/adrian-drsuapi/src/lib.rs:656-675 | the writer calls append exactly the request's fields |
| DrsuapiCodec.DecodeRequest | rust/crates/adrian-drsuapi/src/lib.rs:678-710 | the cursor calls have the specified outcome and end position on every buffer, null references included |
| DrsuapiCodec.WriteUnits | rust/crates/adrian-drsuapi/src/lib.rs:516-535 | the loop that writes one code unit after the other writes the octets of the whole name |
| DrsuapiCodec.EncodeReply | rust/crates/adrian-drsuapi/src/lib.rs:837-852 | the writer calls and the loops over objects and attributes append exactly the reply's fields |
| DrsuapiCodec.DecodeReply | rust/crates/adrian-drsuapi/src/lib.rs:855-876 | the counted loops over objects and attributes have the specified outcome on every buffer |
| Replication.MergedAllFacts | rust/crates/adrian-drsuapi/src/lib.rs:434-455 | merging any entries keeps one entry per DSA; a DSA is up to date with a USN afterwards if and only if the start vector or some merged entry reached it; low USNs take the minimum |
| Replication.LowIsGreaterWhen | rust/crates/adrian-drsuapi/src/lib.rs:440-455 | the merged low USN is the lesser of the two, and the greater that the comment promises if and only if they are equal |
| Replication.LowIsGreatestWhen | rust/crates/adrian-drsuapi/src/lib.rs:440-455 | over any merges, the low USN kept for a DSA is the greatest one seen for it if and only if all of them are equal |
| Replication.LowGoesDown | rust/crates/adrian-drsuapi/src/lib.rs:1931-1942 | low USNs 50 and 25 merge to 25 |
| Replication.MergeOrderIrrelevant | rust/crates/adrian-drsuapi/src/lib.rs:444-455 | the resulting set of entries does not depend on the order or repetition of the merged entries |
| Replication.UtdVector.Merge | rust/crates/adrian-drsuapi/src/lib.rs:444-455 | the update in place is the specified merge, keeps DSAs distinct, and never turns an up-to-date answer from yes to no |
| Replication.ReceivedIsGreatest | rust/crates/adrian-repl-core/src/lib.rs:322-347 | what a replica keeps is one of the writes it saw, and none it saw displaces it |
| Replication.KeptIsLatest | rust/crates/adrian-repl-core/src/lib.rs:322-347 | what a replica keeps has the greatest version of all writes it saw, among those the latest time, among those the greatest USN, and among those the lexicographically greatest origin |
| Replication.ReplicasConverge | rust/crates/adrian-repl-core/src/lib.rs:322-347 | all replicas that saw the same writes, in any order and repetition, keep the same one, if and only if any two of these writes that none of them displaces are equal |
| Replication.DistinctStampsConverge | rust/crates/adrian-repl-core/src/lib.rs:322-347 | so they converge wherever equal stamps mean equal values |
| Replication.EqualStampsDiverge | rust/crates/adrian-repl-core/src/lib.rs:322-347 | two different values under one stamp are each kept by the replica that had them first, and a third write with a greater stamp brings all replicas together again |
| NcChanges.SortedIsStable | rust/crates/adrian-drsuapi/src/lib.rs:928-949 | the listing order is by name, and objects of one name keep their order |
| NcChanges.StableSortIsUnique | rust/crates/adrian-drsuapi/src/lib.rs:928-949 | name order and stability determine the listing: every stable sort gives the same one |
| NcChanges.AtMostIs | rust/crates/adrian-drsuapi/src/lib.rs:947 | the name order is the lexicographic one: a beginning first, and otherwise by the first difference |
| NcChanges.ListingIs | rust/crates/adrian-drsuapi/src/lib.rs:928-949 | the listing is in name order; under every name that ends in the naming context it has all stored objects of that name in their order, each with its identifier and attributes and USN 0, and nothing under any other name; so every object is listed as often as it is stored |
| NcChanges.ReplyIs | rust/crates/adrian-drsuapi/src/lib.rs:1089-1121 | the reply carries the first min(cap, size) objects of the listing, all when the cap is 0; more-data holds if and only if something was cut; the object count is right and no further naming contexts are announced; what is cut comes after what is sent; merging its vector advances the destination for the source only, to the USN of the request |
| NcChanges.DispatchCommutes | rust/crates/adrian-drsuapi/src/lib.rs:1129-1142 | encoding a request, dispatching it and decoding the answer is calling the handler on the request, if and only if the reply's counts fit; octets after the request are ignored |
| NcChanges.ReplyAlwaysFits | rust/crates/adrian-drsuapi/src/lib.rs:1089-1142 | objects that fit, under a cap or fewer than 2^32, make a reply that fits and whose object count is right |
| NcChanges.DispatchChanges | rust/crates/adrian-drsuapi/src/lib.rs:1129-1142 | the handler through reader and writer computes the specified dispatch, decoding errors included |
| DceRpcPdu.BindRoundTrip | rust/crates/adrian-dcerpc/src/pdu.rs:195-316 | a Bind comes back if and only if its context and syntax counts fit one octet and its size fits 16 bits |
| DceRpcPdu.AckRoundTrip | rust/crates/adrian-dcerpc/src/pdu.rs:322-442 | a Bind_ack comes back if and only if its size fits 16 bits; its count and length fields then fit as well, and the aligned reads meet the unaligned writes |
| DceRpcPdu.BindLaidOut | rust/crates/adrian-dcerpc/src/pdu.rs:195-222 | where a Bind carries each field of its header and its sizes |
| DceRpcPdu.RequestCarries | rust/crates/adrian-dcerpc/src/pdu.rs:463-489 | where a Request carries each field of its header, the allocation hint, the context, the operation number and the stub |
| DceRpcPdu.PdusAreFramed | rust/crates/adrian-dcerpc/src/pdu.rs:195-489 | the fragment length in every Bind, Bind_ack and Request equals the number of octets if and only if that number fits 16 bits |
| DceRpcPdu.FramingIsExact | rust/crates/adrian-dcerpc/src/transport.rs:111-128 | reading PDUs off a stream returns a list if and only if the stream is the concatenation of that list and each is well framed |
| DceRpcCodec.PatchIs | rust/crates/adrian-dcerpc/src/pdu.rs:232-240 | overwriting the two placeholder octets gives the octets of the header with the length in place |
| DceRpcCodec.EncodeBind | rust/crates/adrian-dcerpc/src/pdu.rs:195-240 | writer calls, loops and patch produce the specified PDU |
| DceRpcCodec.DecodeBind | rust/crates/adrian-dcerpc/src/pdu.rs:245-316 | the counted loops have the specified outcome on every buffer, wrong type and wrong length refused |
| DceRpcCodec.EncodeBindAck | rust/crates/adrian-dcerpc/src/pdu.rs:322-367 | writer calls, loop and patch produce the specified PDU |
| DceRpcCodec.DecodeBindAck | rust/crates/adrian-dcerpc/src/pdu.rs:372-442 | the decoder has the specified outcome on every buffer |
| DceRpcCodec.EncodeRequest | rust/crates/adrian-dcerpc/src/pdu.rs:463-489 | the Request is written as specified, operation number in front of the stub |
| DceRpcCodec.ReadPdu | rust/crates/adrian-dcerpc/src/transport.rs:111-128 | the two exact reads take one PDU as long as its fragment length says, or fail as specified |
| OrderedKv.ScanReads | rust/crates/adrian-identity-ridpool/src/lib.rs:225-237 | scanning a prefix whose last octet is below 0xFF reads exactly the keys extending it; scanning one that ends in 0xFF reads that key alone |
| OrderedKv.I64OctetsAre | rust/crates/adrian-storage-testkit/src/lib.rs:396-410 | counters are stored most significant octet first, in two's complement |
| OrderedKv.AddedCounts | rust/crates/adrian-storage-testkit/src/lib.rs:393-410 | an addition counts from zero where there is no counter, fails if and only if it would leave 64 bits, and touches no other key |
| OrderedKv.WriteTxn.Commit | rust/crates/adrian-storage-testkit/src/lib.rs:376-412 | a commit applies puts and deletes, then additions in staging order until one overflows |
| Sids.SidRoundTrip | rust/crates/adrian-sid/src/lib.rs:292-347 | octets decode to a SID if and only if they are its encoding (section 2.4.2.2 of MS-DTYP) |
| Sids.AdministratorsOctets | rust/crates/adrian-sid/src/lib.rs:292-307 | the octets of S-1-5-32-544 |
| Sids.SidsArePrefixFree | rust/crates/adrian-sid/src/lib.rs:292-347 | no SID encoding is a prefix of another |
| RidPool.BatchIsSingles | rust/crates/adrian-identity-ridpool/src/lib.rs:381-496 | from any counter and mark, a batch leaves the pool as that many single steps do, if and only if the single steps catch up: without wrap-around, when one batch a step reaches the last RID; around it, when the RIDs before the wrap brought in no more batches than those after it need |
| RidPool.DispensedWithinMark | rust/crates/adrian-identity-ridpool/src/lib.rs:381-496 | a batch never dispenses past its mark; a single allocation does if and only if its RID is more than one batch past the mark it found |
| RidPool.SoundBatchIsSingles | rust/crates/adrian-identity-ridpool/src/lib.rs:381-496 | while the last RID is within the mark, batch and single steps differ if and only if the RID wraps around 32 bits with the mark below its limit; both keep it within the mark |
| RidPool.SinglesClosedForm | rust/crates/adrian-identity-ridpool/src/lib.rs:381-437 | the mark is 999 + 500 max(1, ceil((counter - 999) / 500)) up to saturation, while the counter stays within 32 bits |
| RidPool.StateRoundTrip | rust/crates/adrian-identity-ridpool/src/lib.rs:148-170 | the 12-octet record decodes to the state it encodes |
| RidPool.NewStateOctets | rust/crates/adrian-identity-ridpool/src/lib.rs:135-155 | the 12 octets of a new pool's record |
| RidPool.PoolsAreApart | rust/crates/adrian-identity-ridpool/src/lib.rs:245-303 | a key that extends the prefixes of two pools, domain or local, shows them to be one pool |
| RidStore.BatchRefinesSingles | rust/crates/adrian-identity-ridpool/src/lib.rs:381-496 | on any store: the batch dispenses the RIDs of the single allocations in order, and leaves the same store if and only if the single steps catch up |
| RidStore.ReportForetells | rust/crates/adrian-identity-ridpool/src/lib.rs:498-525 | the reported next RID is what the next allocation returns, if and only if the counter is absent with a record saying 1000, not negative, or just before 1000 modulo 2^32 |
| RidStore.ReclaimRemoves | rust/crates/adrian-identity-ridpool/src/lib.rs:364-376 | a reclaim removes exactly the keys extending the prefix when that does not end in 0xFF, and at most the prefix itself when it does; nothing else changes |
| RidStore.ReclaimLeaves | rust/crates/adrian-identity-ridpool/src/lib.rs:364-376 | after a reclaim the pool is fresh, or, for a prefix ending in 0xFF, keeps its counter with only a domain's record reset |
| RidStore.ReclaimRestarts | rust/crates/adrian-identity-ridpool/src/lib.rs:585-597 | the next RID after a reclaim is 1000 if and only if the prefix does not end in 0xFF or the counter stood just before 1000 modulo 2^32, as an absent one does |
| RidStore.HighDomainScansBadly | rust/crates/adrian-identity-ridpool/src/lib.rs:225-237 | a domain SID with last sub-authority 0xFF000000 has a key prefix that ends in 0xFF |
| RidStore.LeftBehindItsCounter | rust/crates/adrian-identity-ridpool/src/lib.rs:364-496 | from the empty store, 1500 RIDs and a reclaim of that domain leave counter 2499 with mark 1499, where a batch of one and one allocation leave different marks and the allocation dispenses past its mark |
| RidStore.OthersUntouched | rust/crates/adrian-identity-ridpool/src/lib.rs:245-303 | allocations and reclaims of one pool leave every other pool's records as they were |
| RidRuns.RunRefines | rust/crates/adrian-identity-ridpool/src/lib.rs:364-525 | every interleaved run of allocations, batches, queries and reclaims over any pools, wrap-around and prefixes ending in 0xFF included, answers as a table of counters and marks does |
| RidRuns.RunDispenses | rust/crates/adrian-identity-ridpool/src/lib.rs:381-496 | over every run on any store, a pool that is not reclaimed dispenses the consecutive RIDs after its counter modulo 2^32, whatever other pools do |
| RidRuns.PoolRun | rust/crates/adrian-identity-ridpool/src/lib.rs:381-525 | from a fresh pool until its next reclaim the RIDs are 1000, 1001, ... modulo 2^32, without repetition if and only if there are at most 2^32, without a reserved one if and only if at most 2^32 - 1000; that far each is within the mark, which has the closed form; the reported next RID is always the next one dispensed |
| RidAllocator.RidPoolAllocator.Allocate | rust/crates/adrian-identity-ridpool/src/lib.rs:381-437 | the transaction leaves the specified store and returns the specified RID |
| RidAllocator.RidPoolAllocator.AllocateBatch | rust/crates/adrian-identity-ridpool/src/lib.rs:439-496 | the transaction leaves the specified store and returns the specified range |
| RidAllocator.RidPoolAllocator.State | rust/crates/adrian-identity-ridpool/src/lib.rs:498-525 | the read has the specified report |
| RidAllocator.RidPoolAllocator.ReclaimPool | rust/crates/adrian-identity-ridpool/src/lib.rs:364-376 | the scan and the deleting loop leave the specified store |
| IdentityMap.InsertedReads | rust/crates/adrian-identity-fdb/src/lib.rs:299-342 | an insertion is refused if and only if the UUID or the SID is taken by another, and otherwise adds its pair and changes no other answer |
| IdentityMap.RemovedReads | rust/crates/adrian-identity-fdb/src/lib.rs:344-373 | a removal takes its pair away and changes no other answer |
| IdentityMap.RemovedRecords | rust/crates/adrian-identity-fdb/src/lib.rs:344-373 | a removal takes away both POSIX records of its UUID and no other UUID's |
| IdentityMap.InsertedInverse | rust/crates/adrian-identity-fdb/src/lib.rs:299-342 | insertion keeps the two indexes readable and inverse to each other |
| IdentityMap.RemovedInverse | rust/crates/adrian-identity-fdb/src/lib.rs:344-373 | removal succeeds and keeps the two indexes inverse to each other |
| IdentityMap.PutsKeeps | rust/crates/adrian-identity-fdb/src/lib.rs:175-195 | entering a stored pair, whichever entry a full cache gives up, keeps the caches mirror images of stored pairs within max(1, capacity) |
| IdentityMap.CachesAreInvisible | rust/crates/adrian-identity-fdb/src/lib.rs:175-373 | over every run, whatever is evicted when, the answers and the store are those of the store alone, and every state keeps inverse indexes, mirrored coherent caches and the size bound |
| IdentityMap.IdentityMapping.LookupSidOf | rust/crates/adrian-identity-fdb/src/lib.rs:216-232 | a cached lookup returns what an uncached read would, from any state that keeps the invariant |
| IdentityMap.IdentityMapping.LookupUuidOf | rust/crates/adrian-identity-fdb/src/lib.rs:234-256 | likewise for the reverse direction, unencodable SIDs refused |
| IdentityMap.IdentityMapping.InsertPair | rust/crates/adrian-identity-fdb/src/lib.rs:299-342 | the transaction and the cache update are a step of the state machine and keep its invariant |
| IdentityMap.IdentityMapping.RemoveUuid | rust/crates/adrian-identity-fdb/src/lib.rs:344-373 | the transaction, POSIX records included, and the cache update are a step of the state machine and keep its invariant |
| KeyRotation.StartsNew | rust/crates/adrian-kdc/src/krbtgt.rs:75-87 | a manager starts with the key the HSM has or a new one: at version 1 if and only if there was none or it was at version 1, and able to encrypt if and only if there was none or it was an AES key |
| KeyRotation.RotationReplaces | rust/crates/adrian-hsm/src/lib.rs:420-442 | a rotation succeeds if and only if there is a key and it is not RSA; the new handle, of the next version, works with the new material, the old one is refused unless versions have saturated, and no other key changes |
| KeyRotation.GenerationIs | rust/crates/adrian-hsm/src/lib.rs:290-325 | generation hands out the key there was, untouched, or a new one of version 1 that works with the new material, and changes no other key |
| KeyRotation.NewestUnlocks | rust/crates/adrian-hsm/src/lib.rs:327-442 | in every state of every run the newest handle works with the material of the last HSM step |
| KeyRotation.RunKeeps | rust/crates/adrian-kdc/src/krbtgt.rs:97-110 | over every run, from any first version and however rotations overlap: the HSM version counts HSM steps, no handle is lost or promoted twice, and the manager retains exactly the last two promoted handles |
| KeyRotation.QuiescentCurrent | rust/crates/adrian-kdc/src/krbtgt.rs:97-137 | with no rotation under way the HSM accepts the current handle if and only if the schedule let no newest version be overtaken: after the last HSM step no promotion took the last pending rotation while another was pending, rotations of one saturated version counting as one |
| KeyRotation.InOrderQuiescent | rust/crates/adrian-kdc/src/krbtgt.rs:97-137 | rotations that promote in HSM order, serial ones among them, leave kvno at the first version plus the rotations, saturating, the previous handle one version older, and the current one working with the material of the last rotation |
| KeyRotation.StaleRefused | rust/crates/adrian-hsm/src/lib.rs:327-442 | an issued handle is refused from the next HSM step on, if and only if versions have not saturated |
| KeyRotation.OverlapGoesBack | rust/crates/adrian-kdc/src/krbtgt.rs:97-110 | two overlapping rotations promoted in the opposite order leave an older current version that the HSM refuses |
| KeyRotation.SameSignature | rust/crates/adrian-hsm/src/lib.rs:352-370 | the comparison that never stops early accepts exactly equal signatures |
| KeyRotation.SoftwareHsm.GenerateKey | rust/crates/adrian-hsm/src/lib.rs:290-325 | an existing key is handed out unchanged, a new one starts at version 1, RSA is refused |
| KeyRotation.SoftwareHsm.RotateKey | rust/crates/adrian-hsm/src/lib.rs:420-442 | the entry gets new material and the next version, saturating |
| KeyRotation.KrbtgtManager.Create | rust/crates/adrian-kdc/src/krbtgt.rs:75-87 | the manager starts with the handle the HSM generates, and no previous one |
| KeyRotation.KrbtgtManager.Rotate | rust/crates/adrian-kdc/src/krbtgt.rs:97-110 | an uninterrupted rotation is the HSM step followed by the promotion of its handle, whatever other rotations are between their steps |
| Raft.AppendKeeps | rust/crates/adrian-raft/src/lib.rs:556-632 | an accepted message cut from a leader's log leaves the node's log unchanged when it holds the leader's log up to the end of the message, and otherwise equal to that |
| Raft.LogsFollow | rust/crates/adrian-raft/src/lib.rs:556-632 | over every run of deliveries, lost, repeated and reordered ones included, every node's log is the beginning of some leader's log, given leaders' logs that match pairwise |
| Raft.LogMatching | rust/crates/adrian-raft/src/lib.rs:556-632 | in every state of every run, two nodes with the same term at an index have the same log up to it, given leaders' logs that match pairwise |
| Raft.LeadersAuthentic | rust/crates/adrian-raft/src/lib.rs:634-687 | the logs of leaders, one for a term and each grown from an earlier leader's log by entries of its own term, match pairwise |
| Raft.RunGrown | rust/crates/adrian-raft/src/lib.rs:556-687 | leaders that take their node's log and win a majority in the run are one for a term, and their logs grew from earlier leaders' logs; so they match pairwise |
| Raft.ElectedLogMatching | rust/crates/adrian-raft/src/lib.rs:556-687 | log matching from elections up: in every run whose appends are cut from the logs of leaders that the run itself elected, the logs of any two nodes match, at any two moments |
| Raft.KeepsHolding | rust/crates/adrian-raft/src/lib.rs:556-632 | a node that acknowledged a leader's entry keeps it, with all before it, until it votes in a later election |
| Raft.UpToDateHolds | rust/crates/adrian-raft/src/lib.rs:634-687 | the up-to-date test: a log that a holder of the entry finds up to date holds the entry as well |
| Raft.LeaderCompleteness | rust/crates/adrian-raft/src/lib.rs:556-687 | in every such run, an entry of a leader's own term that a majority acknowledged, and every entry before it, is in the log of every later leader |
| RaftProgress.VoteGranted | rust/crates/adrian-raft/src/lib.rs:634-687 | a vote is granted if and only if the candidate's log is not behind and the node has not gone past the term nor voted for another in it; nothing but the term and the vote changes |
| RaftProgress.AppendAccepted | rust/crates/adrian-raft/src/lib.rs:556-600 | a message is accepted if and only if its term is not past and the node's log has the term in front of its entries; only a greater commit index moves the node's, and no further than its log |
| RaftProgress.HolderAccepts | rust/crates/adrian-raft/src/lib.rs:556-600 | a current message of a leader is accepted by every node that holds the leader's log up to it |
| RaftProgress.SnapshotAccepted | rust/crates/adrian-raft/src/lib.rs:689-715 | a snapshot is accepted if and only if its term is not past, and changes nothing but the term and the vote |
| RaftProgress.CandidateWins | rust/crates/adrian-raft/src/lib.rs:634-687 | after every run, a candidate whose request reaches nodes below its term and not ahead of it is elected by all of them |
| RaftProgress.LeaderCanRise | rust/crates/adrian-raft/src/lib.rs:556-687 | after every run, a candidate that no member is ahead of, in a term not yet used, becomes one more leader of the continued run, and every member acknowledges its new entry |
| RaftProgress.NeverStuck | rust/crates/adrian-raft/src/lib.rs:556-687 | a cluster is never stuck: after every run, for every entry and every unused term, the run can go on so that some member leads in that term and all acknowledge the entry |
| RaftProgress.EntryOutlivesLeader | rust/crates/adrian-raft/src/lib.rs:556-687 | after every run, that of a new cluster among them, a leader's acknowledged entry and then a second leader that has it are possible |
| Raft.CommitAgrees | rust/crates/adrian-raft/src/lib.rs:619-624 | when the commit index moves, everything up to it is the leader's, if and only if the leader's commit lies within the message, or the node's log ends within it or conflicts with it, or the node's log and the leader's agree in term where the index comes to stand |
| Raft.HeartbeatCommitsLeftover | rust/crates/adrian-raft/src/lib.rs:619-624 | two deliveries to a new node commit an older leader's leftover entry, because the bound is the last log entry and not the last new one |
| Raft.CommittedSurvive | rust/crates/adrian-raft/src/lib.rs:556-632 | the committed entries a node still has survive an accepted message if and only if its log does not conflict with the leader's among them within the message |
| Raft.CommittedDropped | rust/crates/adrian-raft/src/lib.rs:556-632 | two accepted messages leave a commit index of 2 on a log of one entry |
| Raft.OneVotePerTerm | rust/crates/adrian-raft/src/lib.rs:634-687 | in every run of any messages a node grants its vote to at most one candidate in a term |
| Raft.ElectionSafety | rust/crates/adrian-raft/src/lib.rs:634-687 | two candidates with majorities in one term are one candidate |
| Raft.RaftNode.AppendEntries | rust/crates/adrian-raft/src/lib.rs:556-632 | the handler, with its scans, truncations and loop over entries, has the specified state and reply |
| Raft.RaftNode.RequestVote | rust/crates/adrian-raft/src/lib.rs:634-687 | the handler has the specified state and reply |

## Left out

- object_to_search_entry: groups the requested attributes of an object by name for a search result.
- LDAP bind handling, RootDSE, and the dispatch to handlers other than the connection loop's view of it.
- Field-by-field encoders and decoders of single LDAP operations are functions; only the list loops, the filter codec and the message codec are also modelled as methods.
- LdapMessages.MessageRoundTrip: starts from messages; re-encoding accepted octets is related to them only for filters (`Filters.AcceptedIsCanonicalised`).
- DRSBind: the intersection of extension flags and the bind handle; only its extension block is modelled.
- Multi-round replication: the handler keeps no cursor, so repeated requests get the same first objects.
- Response PDUs and the call-id counter of the transport.
- Windows byte layouts: agreement with GUID octet order, interface-version halves and the place of the operation number is not claimed, only self-consistency.
- Concurrent store transactions: each allocation is one atomic step, so two overlapping transactions on one counter are not modelled.
- allocate_uid and the POSIX UID indexes, except that removing a UUID deletes its records.
- Cache coherence across several mapping instances or interleaved tasks: the code has no invalidation.
- Cryptography of the HSM: only which key material an operation would use.
- Several krbtgt managers on one HSM: rotations begun by another manager are not modelled.
- Raft from the leader's and the candidate's side: that a leader takes its node's log, wins a majority, adds entries of its own term and sends segments of that log, and that a candidate asks for votes with the end of the log it took, is the assumption `Reigning` of the log lemmas; a leader's own copy counts as a delivery to itself; snapshots beyond their term, log persistence and the replicator built on the log are not modelled.
- The ACME server, certificate authority, ADMX compiler, claims engine, federation, group policy and operator crates: library glue or stubs.
