# Models of nanopb and BoringSSL

Dafny models of the two libraries vendored under `Teamstuff/Pods` whose behaviour is intricate enough
to be worth proving: the nanopb codec, and the record and handshake layers of BoringSSL up to
TLS 1.2 and DTLS 1.2. `dafny verify dfyconfig.toml` checks the whole project.

Code that works by changing things step by step is modelled by classes and methods, each proved against
a specification function; the theorems are lemmas about those functions and about whole runs of them.

**The Protocol Buffers codec** (`pb_encode.c`, `pb_decode.c`, `pb_common.c`). Field descriptors are a
recursive datatype (`Descriptors`); a struct is a sequence of slots, the members of a oneof sharing one.
`WireFormat` gives the encoder and the decoder as functions, `Encoder`, `Decoder`, `Streams`,
`FieldIterator` and `RequiredFieldSet` the imperative code that computes them. Proved: decoding inverts
encoding exactly when strings, lengths and omitted proto3 defaults allow it (`RoundTrip`); the sizing
pass and the writing pass agree, at every depth of nesting; decoding is an action of concatenation
(`Concatenation`); a reader steps over fields and whole messages that it does not know
(`UnknownFields`); a missing required field is reported exactly when one of the first 64 never occurred
(`RequiredCheck`); what the 32-bit and the 64-bit varint decoders accept. `WireBytes` fixes what the
bytes of every tag and value are, position by position, and `DecodingRules` what is refused: numbers out
of range, lengths that do not fit, values cut short, full arrays, fixed-count arrays sent in part.

**DTLS handshake transport** (`d1_both.cc`, `dtls_record.cc`, `dtls_method.cc`, `d1_lib.cc`; sections
4.1.2.6, 4.2.3 and 4.2.4 of RFC 6347). `Receiving` is the receiver with its ring of seven partial
messages, `Reassembly` the bitmask of received bytes, `ReplayWindow` the anti-replay window, `Sending`
the sender with its flight, its packets and its timer. `ReceivedRecords` says what becomes of each
record and fragment, and which ChangeCipherSpec is pending and which numbers are recorded after any run
of events. `Delivery`, `Flights` and `Transport` prove the
protocol end to end: whatever is lost, repeated, reordered and fragmented anew, a receiver hands over a
prefix of what was sent, and all of it once it has arrived, across a ChangeCipherSpec too.

**TLS 1.0 to 1.2 handshake machines** (`handshake_client.cc`, `handshake_server.cc`, `handshake.cc`).
Each `do_*` is a step of `ClientMachine` or `ServerMachine` and a method of `ClientHandshakes` or
`ServerHandshakes`. Four modules prove what each side guarantees whatever its peer sends:
`HandshakeSafety` the order of its own moves, `HandshakeVerdicts` that it only goes on after the checks
it asked for have accepted, `HandshakeTurns` that it reads under new keys only after a ChangeCipherSpec,
and `Transcripts` that its transcript follows the grammar of the handshake.
`Dialogue` lays out the phases of the full and the resumed handshake, `ClientPath` and `ServerPath`
prove that each step follows them, and `Handshakes` joins the machines over two queues: every
interleaving completes, whatever is left pending in between. `CipherChoice` is the server's choice of a
cipher suite with groups of equal preference.

**TLS write path** (`s3_pkt.cc`, `s3_both.cc`, `ssl_buffer.cc`). `Writing` and `RecordBuffers`: sealed
records queue in a pending flight and in a write buffer and drain through partial, failing and retried
writes, and no byte is lost, repeated or out of order.

**AEAD record context** (`ssl_aead_ctx.cc`). `AeadContexts`: opening undoes sealing in every
configuration that `Create` builds, and sequence numbers give distinct nonces. `AeadRecords`: the record
format of each kind of cipher, and exactly which sequence number, type and version a record opens under.

Where documentation and code differ, the model follows the code:

- A fragment of the message seven beyond the one awaited passes the test that ignores what is too far
  ahead, and is then an error (`d1_both.cc:380-382` against `d1_both.cc:267-271`).
- The ring index is the sequence number modulo 7, and 65536 is not a multiple of 7. Sequence numbers are
  compared without wrapping, so the ring stays sound at the wrap; the end-to-end theorems still ask for
  fewer than 65536 messages, because numbers would repeat.
- The 32-bit varint decoder checks the bits past the 32nd as a sign extension, but lets groups of zeros
  through as well as groups of ones (`pb_decode.c:216-226`); `Varints.Decode32Exactly` says which numbers
  it accepts.
- A sealing error in the middle of a packet does not take back what was sealed: the position in the
  flight has moved on, and those pieces are sent only by a retransmission.
- A struct without fields finds tag 0, its terminator, and decodes it as a varint of size 0, which fails.

## Model

| member | source | states |
|---|---|---|
| Varints.VarintFits | Teamstuff/Pods/nanopb/pb_encode.c:574-594 | The varint of every 64-bit number fits the ten-byte buffer that the encoder fills. |
| WireBytes.VarintBytes | Teamstuff/Pods/nanopb/pb_encode.c:574-594 | Byte k of an encoded number has its bits 7k to 7k + 6 and a continuation mark unless it is the last, and the encoding is the shortest. |
| WireBytes.RawSpells | Teamstuff/Pods/nanopb/pb_decode.c:250-270 | A number is read exactly when a byte without a continuation mark comes, and then the bytes spell it group by group. |
| WireBytes.Decode64Exactly | Teamstuff/Pods/nanopb/pb_decode.c:250-270 | Of all encodings, shortest or not, the 64-bit decoder takes exactly those of at most ten bytes, modulo 2^64. |
| Streams.FillVarint | Teamstuff/Pods/nanopb/pb_encode.c:574-594 | The buffer loop, which marks every group as continued and clears the mark of the last, produces the canonical varint. |
| Streams.OStream.EncodeVarint | Teamstuff/Pods/nanopb/pb_encode.c:574-594 | Appends the canonical varint, or nothing when it does not fit. |
| Varints.Decode64OfVarint | Teamstuff/Pods/nanopb/pb_decode.c:250-270 | The 64-bit decoder inverts the encoder on every 64-bit number and leaves what follows. |
| Streams.IStream.DecodeVarint | Teamstuff/Pods/nanopb/pb_decode.c:250-270 | The 64-bit loop, with the bits it shifts out, decodes the groups modulo 2^64, and fails exactly on a truncated number or one of more than ten groups. |
| Varints.Decode32OfVarint | Teamstuff/Pods/nanopb/pb_decode.c:182-247 | The 32-bit decoder accepts the canonical encodings of all numbers below 2^32 and of sign-extended negative 32-bit numbers, and gives them modulo 2^32. |
| Varints.Decode32RejectsLarge | Teamstuff/Pods/nanopb/pb_decode.c:182-242 | It rejects the canonical encodings of all numbers from 2^32 to below 2^63. |
| Varints.Decode32Exactly | Teamstuff/Pods/nanopb/pb_decode.c:182-242 | On the shortest encoding of every 64-bit number: it accepts those below 2^32, and of those with ten bytes exactly the ones whose 32-bit part is negative and whose groups from bit 35 on are each zero or all ones, which is more than sign extension. |
| Streams.IStream.DecodeVarint32 | Teamstuff/Pods/nanopb/pb_decode.c:182-247 | The 32-bit loop, with its wrapping bit position and its checks on sign extension, computes what those lemmas are about. |
| Varints.DecodersAgree | Teamstuff/Pods/nanopb/pb_decode.c:182-270 | Whenever both decoders accept, whatever the encoding, they consume the same bytes and agree modulo 2^32. |
| RoundTrip.ZigZagReadsBack | Teamstuff/Pods/nanopb/pb_decode.c:1240-1252 | Zigzag decoding inverts zigzag encoding on every signed 64-bit number. |
| WireBytes.ZigZagOrder | Teamstuff/Pods/nanopb/pb_encode.c:596-605 | Zigzag pairs n with -n - 1, smaller magnitudes first and negative numbers odd, and reaches every number. |
| WireBytes.FixedDigits | Teamstuff/Pods/nanopb/pb_encode.c:607-616 | Byte k of a fixed-width number has its bits 8k to 8k + 7: little-endian. |
| WireBytes.FixedBytesOfValue | Teamstuff/Pods/nanopb/pb_decode.c:1254-1266 | Reading a fixed-width number is the inverse on all bytes. |
| WireBytes.TaggedReads | Teamstuff/Pods/nanopb/pb_encode.c:641-672 | A field is written under its number and wire type 0 for varints, 1 for 64-bit, 5 for 32-bit and 2 for all other kinds, before its value. |
| WireBytes.TaggedBytes | Teamstuff/Pods/nanopb/pb_encode.c:635-639 | The tag is the shortest varint of eight times the number plus the wire type. |
| WireBytes.PackedBytes | Teamstuff/Pods/nanopb/pb_encode.c:126-211 | An array of numbers goes under one tag of wire type 2, its length before its entries. |
| WireBytes.NumberBytes | Teamstuff/Pods/nanopb/pb_encode.c:734-808 | Unsigned numbers are their varint, signed ones that of their 64-bit two's complement or of zigzag, fixed-width ones their digits; it fails exactly for an integer size that is not 1, 2, 4 or 8. |
| WireBytes.DelimitedBytes | Teamstuff/Pods/nanopb/pb_encode.c:810-868 | Anything else is its length and its content; it fails exactly for a byte array too large for its struct or a submessage that fails. |
| WireBytes.Examples | Teamstuff/Pods/nanopb/pb_encode.c:641-672 | The bytes of four small encodings, among them the first of the encoding guide of Protocol Buffers. |
| Streams.OStream.Write | Teamstuff/Pods/nanopb/pb_encode.c:101-119 | Appends exactly when the bytes fit the limit; no byte before the position or past the limit changes. |
| Streams.IStream.Read | Teamstuff/Pods/nanopb/pb_decode.c:100-132 | Gives the next bytes, all or none. |
| Streams.IStream.ReadByte | Teamstuff/Pods/nanopb/pb_decode.c:136-152 | Gives the next byte exactly when one is left. |
| FieldIterator.FieldIter.constructor | Teamstuff/Pods/nanopb/pb_common.c:8-18 | The iterator starts at the first field, with address, size address and required index those of its position. |
| FieldIterator.FieldIter.Next | Teamstuff/Pods/nanopb/pb_common.c:20-76 | In every state the addresses and the required index are functions of the position, across unions and the wrap to the first field. |
| FieldIterator.FieldIter.Find | Teamstuff/Pods/nanopb/pb_common.c:78-95 | From any start it succeeds exactly when the tag exists and stops at it, and otherwise comes back to the start. |
| FieldIterator.AddressesFollowSlots | Teamstuff/Pods/nanopb/pb_common.c:20-76 | Addresses grow with slots, members of a union share one, and two fields have one address exactly when no byte lies between them. |
| FieldIterator.AddressIdentifiesSlot | Teamstuff/Pods/nanopb/pb_common.c:20-76 | With no empty field in between, storing at an address is storing into a slot. |
| Encoder.PutTag | Teamstuff/Pods/nanopb/pb_encode.c:635-639 | Appends the tag with its wire type, exactly when it fits. |
| Encoder.PutString | Teamstuff/Pods/nanopb/pb_encode.c:674-680 | Appends the length and the bytes, exactly when both fit. |
| Encoder.PutVal | Teamstuff/Pods/nanopb/pb_encode.c:734-868 | Every kind of value is encoded as the wire format says, and fails exactly when the format or the capacity forbids it. |
| Encoder.PutPacked | Teamstuff/Pods/nanopb/pb_encode.c:139-181 | A packed array is its length, found by arithmetic or by a sizing pass, and its entries. |
| Encoder.PutArray | Teamstuff/Pods/nanopb/pb_encode.c:126-211 | Arrays, packed and unpacked, with a count above the array size refused and an empty array written as nothing. |
| Encoder.CheckDefault | Teamstuff/Pods/nanopb/pb_encode.c:215-303 | The test for fields that proto3 leaves out, through all levels of submessages. |
| DecodingRules.LeftOutExactly | Teamstuff/Pods/nanopb/pb_encode.c:215-303 | A proto3 field is left out exactly when its number is zero or its bytes are none; fixed-length bytes are always written. |
| DecodingRules.SubmessageLeftOutExactly | Teamstuff/Pods/nanopb/pb_encode.c:215-303 | A proto3 submessage is left out exactly when it would have no bytes itself, unless it holds a oneof that names no member. |
| Encoder.PutTagged | Teamstuff/Pods/nanopb/pb_encode.c:641-672 | The tag before a value reads back as the number of the field and wire type 0, 1, 5 or 2 by its kind. |
| Encoder.PutField | Teamstuff/Pods/nanopb/pb_encode.c:307-392 | Required, optional, proto3 singular, repeated and oneof fields are written or left out as their slot says. |
| Encoder.PutSubmessage | Teamstuff/Pods/nanopb/pb_encode.c:682-730 | The length of the sizing pass is the length that the second pass writes, at every depth: "submsg size changed" is never reported. |
| Encoder.PutMessage | Teamstuff/Pods/nanopb/pb_encode.c:494-516 | A message is its fields in order; on a sizing and on a writing stream it succeeds or fails alike but for capacity. |
| Encoder.GetEncodedSize | Teamstuff/Pods/nanopb/pb_encode.c:533-542 | Gives the length of the encoding, or fails exactly when there is none. |
| Encoder.EncodeToBuffer | Teamstuff/Pods/nanopb/pb_encode.c:494-542 | Writing into a buffer succeeds exactly when its capacity is at least the size of the sizing pass, then writes exactly that many bytes, and no byte past the capacity ever changes. |
| Decoder.MakeSubstream | Teamstuff/Pods/nanopb/pb_decode.c:367-380 | A stream over exactly the announced bytes; the parent keeps exactly what lies behind them. |
| Decoder.CloseSubstream | Teamstuff/Pods/nanopb/pb_decode.c:382-395 | The parent goes on behind the substream, however much of it was read. |
| Decoder.Skip | Teamstuff/Pods/nanopb/pb_decode.c:316-326 | Leaves the stream after the value that is skipped, or fails, as UnknownFields.SkipsExactly characterizes. |
| Decoder.GetBlob | Teamstuff/Pods/nanopb/pb_decode.c:1391-1508 | Bytes, strings and fixed-length bytes, with their limits and the 32-bit sum that must not wrap. |
| DecodingRules.BlobReads | Teamstuff/Pods/nanopb/pb_decode.c:1391-1508 | A byte array has to fit its struct with four bytes of size, a string needs room for a NUL and ends before its first one, and fixed-length bytes have the length of their array or none, which zeroes it; everything else is an error. |
| DecodingRules.VarintFieldReads | Teamstuff/Pods/nanopb/pb_decode.c:1289-1372 | A varint field takes exactly the varints of at most ten bytes whose number, read with the sign of its kind, fits its 1, 2, 4 or 8 bytes. |
| DecodingRules.FixedFieldReads | Teamstuff/Pods/nanopb/pb_decode.c:1254-1266 | A fixed-width field takes the next four or eight bytes, the low byte first. |
| DecodingRules.ValueCutShort | Teamstuff/Pods/nanopb/pb_decode.c:100-132 | A value cut short is an error, wherever it is cut. |
| Decoder.GetSubmessage | Teamstuff/Pods/nanopb/pb_decode.c:1463-1485 | A submessage decodes from exactly its announced bytes; array entries start from defaults, other fields from what was there. |
| DecodingRules.SubmessagesMerge | Teamstuff/Pods/nanopb/pb_decode.c:1463-1485 | Two occurrences of a submessage outside an array and a oneof merge: decoding one after the other is decoding their concatenation. |
| Decoder.SetToDefaults | Teamstuff/Pods/nanopb/pb_decode.c:884-895 | Every slot is set to its default once, in order, unions to none. |
| Decoder.GetPacked | Teamstuff/Pods/nanopb/pb_decode.c:401-475 | A packed array is read entry by entry until its bytes or the array are used up. |
| DecodingRules.PackedOrNot | Teamstuff/Pods/nanopb/pb_decode.c:401-475 | An array of numbers reads the same packed, entry by entry, and with a tag for every entry. |
| DecodingRules.FullArrayRefuses | Teamstuff/Pods/nanopb/pb_decode.c:401-475 | A full array takes no more: another entry is an error, packed or not. |
| DecodingRules.FixedArrayIsCounted | Teamstuff/Pods/nanopb/pb_decode.c:965-1005 | A fixed-count array that was sent with fewer entries than its size lets the message neither end nor go on to another such array. |
| Decoder.GetSlot | Teamstuff/Pods/nanopb/pb_decode.c:401-475 | One field is stored: values, has-flags, counts, fixed counts and oneof tags. |
| DecodingRules.StaleUnionRefused | Teamstuff/Pods/nanopb/pb_decode.c:1104-1128 | A oneof whose struct names a member that the descriptor does not have takes no field. |
| DecodingRules.OneofRestarts | Teamstuff/Pods/nanopb/pb_decode.c:461-475 | A member of a oneof is read afresh: what the union held does not matter. |
| Decoder.Release | Teamstuff/Pods/nanopb/pb_decode.c:1104-1128 | A change of the member of a oneof is refused exactly when the struct names a member that the descriptor does not have. |
| Decoder.GetTag | Teamstuff/Pods/nanopb/pb_decode.c:293-314 | A tag, a zero tag that ends the message, or an error. |
| DecodingRules.ZeroTagStops | Teamstuff/Pods/nanopb/pb_decode.c:294-312 | A zero byte where a tag should be ends the message, and what follows it is left. |
| DecodingRules.TagCutShort | Teamstuff/Pods/nanopb/pb_decode.c:294-312 | A message that ends within a tag is an error. |
| Decoder.GetMessageNoInit | Teamstuff/Pods/nanopb/pb_decode.c:901-1049 | The loop with its iterator, its words of required fields and its fixed-count field computes what the wire format says. |
| Decoder.CheckFinished | Teamstuff/Pods/nanopb/pb_decode.c:999-1046 | The final checks, by seeking to the last field and comparing whole words, are those of the wire format. |
| Decoder.GetMessage | Teamstuff/Pods/nanopb/pb_decode.c:1051-1063 | Decoding sets every field to its default and then runs the loop. |
| DecodingRules.EmptyMessage | Teamstuff/Pods/nanopb/pb_decode.c:1026-1063 | Nothing decodes to the defaults, or to "missing required field" exactly when some field is required. |
| RequiredFieldSet.SeenFields.Mark | Teamstuff/Pods/nanopb/pb_decode.c:988-993 | Setting a bit in one of two 32-bit words adds the number to the set they stand for. |
| RequiredFieldSet.SeenFields.HasAll | Teamstuff/Pods/nanopb/pb_decode.c:1026-1045 | Comparing whole words and a masked rest tells exactly whether all numbers below the count are in the set. |
| RequiredCheck.SeenIsWhatOccurred | Teamstuff/Pods/nanopb/pb_decode.c:919-997 | The bits recorded are exactly those of the required fields that occurred. |
| RequiredCheck.MissingExactlyWhenAbsent | Teamstuff/Pods/nanopb/pb_decode.c:988-1046 | "missing required field" is raised exactly when one of the first 64 required fields never occurred. |
| Concatenation.RunConcat | Teamstuff/Pods/nanopb/pb_decode.c:919-997 | The loop over a concatenation is the loop over the first part followed by the loop over the second from the state reached; after a zero tag the rest is left unread. |
| Concatenation.DecodingIsAnAction | Teamstuff/Pods/nanopb/pb_decode.c:901-1049 | Without required and fixed-count fields, decoding a concatenation is decoding the first part and then the second into the result. |
| UnknownFields.UnknownFieldsAreIgnored | Teamstuff/Pods/nanopb/pb_decode.c:919-962 | One complete value of any wire type under an unknown tag, inserted between two fields, changes nothing, for every descriptor. |
| UnknownFields.SkipsExactly | Teamstuff/Pods/nanopb/pb_decode.c:272-326 | Skipping succeeds exactly when a value of the wire type comes first, a varint of any length, eight bytes, a length and as many bytes, or four bytes, and then leaves what follows it; other wire types are errors. |
| UnknownFields.EncodedIsValue | Teamstuff/Pods/nanopb/pb_encode.c:641-672 | What the encoder writes for a value is a value of wire type 0, 1, 5 or 2 by the kind of its field, and is skipped as one. |
| UnknownFields.MessageIsSkipped | Teamstuff/Pods/nanopb/pb_decode.c:919-962 | A reader that knows none of the tags steps over a whole encoded message, whatever its descriptor and whatever follows. |
| RoundTrip.MessageReadsBack | Teamstuff/Pods/nanopb/pb_decode.c:901-1049 | The loop over an encoding reads every field back into a struct of defaults, through submessages of any depth. |
| RoundTrip.MessageRoundTrip | Teamstuff/Pods/nanopb/pb_decode.c:901-1063 | For every static descriptor and every value, decoding the encoding into any struct succeeds and consumes every byte exactly when each string keeps its NUL and each length fits 32 bits, and gives the value back exactly when also everything proto3 leaves out defaults to zero. |
| ReplayWindow.Window.ShouldDiscard | Teamstuff/Pods/BoringSSL/ssl/dtls_record.cc:140-150 | Discards exactly the numbers recorded before and those at least 64 below the highest. |
| ReplayWindow.Window.Record | Teamstuff/Pods/BoringSSL/ssl/dtls_record.cc:155-175 | Sliding and marking the 64-bit map adds the number to the recorded set. |
| ReplayWindow.Window.Reset | Teamstuff/Pods/BoringSSL/ssl/dtls_method.cc:89-91 | A change of epoch empties the set. |
| ReplayWindow.ToU64 | Teamstuff/Pods/BoringSSL/ssl/dtls_record.cc:128-136 | The shifts and ors give the big-endian value. |
| ReplayWindow.NoneAcceptedTwice | Teamstuff/Pods/BoringSSL/ssl/dtls_record.cc:225-259 | In every sequence of arrivals, authentic or not, no number is let through twice. |
| ReplayWindow.NoneLost | Teamstuff/Pods/BoringSSL/ssl/dtls_record.cc:140-175 | Numbers sent once each all get through as long as none is overtaken by 64. |
| Delivery.NoRecordTwice | Teamstuff/Pods/BoringSSL/ssl/dtls_record.cc:177-272 | In every run of arrivals, deliveries and changes of epoch without a wrap of the epoch, no record number is let through twice. |
| Reassembly.BitRangeBits | Teamstuff/Pods/BoringSSL/ssl/d1_both.cc:203-205 | The byte has exactly the bits from start, inclusive, to end, exclusive. |
| Reassembly.HmFragment.Mark | Teamstuff/Pods/BoringSSL/ssl/d1_both.cc:211-251 | After any ranges the mask denotes exactly their union, no bit past the message is set, and the mask is released exactly when the union is the whole message. |
| Reassembly.HmFragment.Fill | Teamstuff/Pods/BoringSSL/ssl/d1_both.cc:398-402 | Copying a fragment writes its bytes at its offset and nothing else, and marks them. |
| HandshakeFragments.ParseOfBytes | Teamstuff/Pods/BoringSSL/ssl/d1_both.cc:459-473 | Parsing inverts the layout of a fragment and leaves what follows. |
| ReceivedRecords.HeaderLayout | Teamstuff/Pods/BoringSSL/ssl/d1_both.cc:459-473 | The twelve bytes of a header are type, message length, number, fragment offset and fragment length, each big-endian (section 4.2.2 of RFC 6347). |
| Receiving.Receiver.GetIncoming | Teamstuff/Pods/BoringSSL/ssl/d1_both.cc:265-295 | In every reachable state the place of a number in the ring is empty or holds that number, so the assertion never fails; a mismatch in type or length and a number outside the window are refused. |
| Receiving.Receiver.HandleFragments | Teamstuff/Pods/BoringSSL/ssl/d1_both.cc:350-403 | All fragments of a record, in order; those before a bad one keep their effect. |
| Receiving.Receiver.Open | Teamstuff/Pods/BoringSSL/ssl/dtls_record.cc:177-272 | A record is discarded or recorded as the window, the epoch and authentication say. |
| Receiving.Receiver.Receive | Teamstuff/Pods/BoringSSL/ssl/d1_both.cc:297-406 | Records of every type during a handshake have the effect and the outcome that ReceivedRecords.NotAdmitted and ReceivedRecords.AdmittedOutcome state. |
| ReceivedRecords.NotAdmitted | Teamstuff/Pods/BoringSSL/ssl/dtls_record.cc:177-272 | A record of a wrong version or epoch, recorded before, 64 or more below the highest, or not authentic changes nothing and is discarded; an authentic fresh one above 16384 bytes changes nothing and is an error. |
| ReceivedRecords.AdmittedOutcome | Teamstuff/Pods/BoringSSL/ssl/d1_both.cc:297-406 | Every other record is recorded. Of type 21 it is an alert; of type 23 it is dropped under encryption and an error before; of type 20 it notes a ChangeCipherSpec when nothing is encrypted and its content is the byte 1, and is an error otherwise; of type 22 it changes only the messages held; any other type is an error. |
| ReceivedRecords.PendingExactly | Teamstuff/Pods/BoringSSL/ssl/d1_both.cc:324-338 | After every run a ChangeCipherSpec is pending exactly when one was noted, or was pending at the start, and none has been consumed since. |
| ReceivedRecords.PendingKeepsEpoch | Teamstuff/Pods/BoringSSL/ssl/d1_both.cc:440-457 | While a ChangeCipherSpec is pending no change of the read state has an effect. |
| ReceivedRecords.RecordedExactly | Teamstuff/Pods/BoringSSL/ssl/dtls_record.cc:155-175 | After every run the window holds exactly the numbers admitted since the last change of epoch. |
| ReceivedRecords.ChangeOutcome | Teamstuff/Pods/BoringSSL/ssl/dtls_method.cc:81-95 | A change of the read state does nothing unless nothing but the current message is held; then the next epoch starts with an empty window. |
| ReceivedRecords.FragmentRefused | Teamstuff/Pods/BoringSSL/ssl/d1_both.cc:362-391 | Each alert of a fragment with exactly the fragments that raise it; what raises one or is out of reach changes nothing. |
| ReceivedRecords.FragmentTaken | Teamstuff/Pods/BoringSSL/ssl/d1_both.cc:385-403 | Any other fragment starts its message or adds its bytes to it, unless the message is complete, and touches no other. |
| ReceivedRecords.FragmentThenRest | Teamstuff/Pods/BoringSSL/ssl/d1_both.cc:350-403 | A record is its fragments in order, up to the first that raises an alert. |
| ReceivedRecords.FragmentCutShort | Teamstuff/Pods/BoringSSL/ssl/d1_both.cc:351-360 | Bytes that end within a header or before the announced body are a decoding error. |
| Receiving.Receiver.GetMessage | Teamstuff/Pods/BoringSSL/ssl/d1_both.cc:408-424 | Hands out the awaited message exactly when all its bytes are there. |
| Receiving.Receiver.Next | Teamstuff/Pods/BoringSSL/ssl/d1_both.cc:426-438 | Frees the message and awaits the next number modulo 65536. |
| Receiving.Receiver.HasUnprocessedData | Teamstuff/Pods/BoringSSL/ssl/d1_both.cc:440-457 | True exactly when a ChangeCipherSpec is pending or a place but the current message is occupied. |
| Receiving.Receiver.ChangeReadState | Teamstuff/Pods/BoringSSL/ssl/dtls_method.cc:81-95 | Moves to the next epoch and clears the window, or refuses, exactly as specified. |
| IncomingMessages.EpochChangesWhenDrained | Teamstuff/Pods/BoringSSL/ssl/dtls_method.cc:81-95 | The read epoch changes exactly when nothing but the current message is held and no ChangeCipherSpec is pending. |
| IncomingMessages.OpenKeepsOk | Teamstuff/Pods/BoringSSL/ssl/d1_both.cc:297-406 | Whatever arrives, every message held has a number among the seven from the awaited one on. |
| Delivery.DeliversInOrder | Teamstuff/Pods/BoringSSL/ssl/d1_both.cc:297-438 | In every run of loss, repetition, reordering and fragmentation anew, the messages handed over are those sent, byte for byte, in order and without a gap. |
| Delivery.HoldsWhatArrived | Teamstuff/Pods/BoringSSL/ssl/d1_both.cc:350-403 | Of every message not yet taken, exactly the bytes that arrived are held. |
| Delivery.CompletesWhenAllArrived | Teamstuff/Pods/BoringSSL/ssl/d1_both.cc:255-424 | The next message completes exactly when all its bytes have arrived. |
| Delivery.GenuineFragmentFails | Teamstuff/Pods/BoringSSL/ssl/d1_both.cc:362-391 | Outside the encrypted epoch, the only genuine fragment that is an error is one of the message seven beyond the one awaited. |
| Flights.TilesReassemble | Teamstuff/Pods/BoringSSL/ssl/d1_both.cc:644-734 | The fragments of each message that a transmission is divided into put together are its body: nothing is missing or repeated. |
| Flights.TilesProgresses | Teamstuff/Pods/BoringSSL/ssl/d1_both.cc:782-827 | A transmission makes progress with every record, so it ends. |
| Flights.TilesGenuine | Teamstuff/Pods/BoringSSL/ssl/d1_both.cc:695-734 | Whatever a flight is divided into, every record is genuine. |
| Sending.Sender.SealRecord | Teamstuff/Pods/BoringSSL/ssl/dtls_record.cc:294-351 | A record takes the next number of its epoch and has the length its cipher gives; sealing fails exactly when the numbers run out or the length does not fit 16 bits. |
| Sending.Sender.SealNextMessage | Teamstuff/Pods/BoringSSL/ssl/d1_both.cc:644-734 | Seals the next piece of the flight within the space given; too little space and sealing errors leave the position as it was. |
| Sending.Sender.SealNextPacket | Teamstuff/Pods/BoringSSL/ssl/d1_both.cc:739-780 | A packet fits the MTU, tiles the flight from the old position to the new, and is filled: its last fragment took all there was, or not one byte more would fit. |
| Sending.Sender.SendPacket | Teamstuff/Pods/BoringSSL/ssl/d1_both.cc:788-818 | A packet that the BIO does not take is taken back, position and all. |
| Sending.Sender.SendFlight | Teamstuff/Pods/BoringSSL/ssl/d1_both.cc:782-827 | Terminates; what the BIO took tiles the flight from where it stood, each packet within the MTU; it fails only for too small an MTU, an answer of the BIO or a stated sealing error, and is done only after a flush that the BIO accepted. |
| Sending.Sender.AddOutgoing | Teamstuff/Pods/BoringSSL/ssl/d1_both.cc:555-594 | Appends to the flight, at most seven messages, after clearing a flight that was complete; numbers are consecutive. |
| Sending.Sender.AddMessage | Teamstuff/Pods/BoringSSL/ssl/d1_both.cc:596-598 | The message joins the flight and the history under the next number. |
| Sending.Sender.AddChangeCipherSpec | Teamstuff/Pods/BoringSSL/ssl/d1_both.cc:600-602 | The ChangeCipherSpec joins the flight in the current epoch and takes no number. |
| Sending.Sender.UpdateMtu | Teamstuff/Pods/BoringSSL/ssl/d1_both.cc:615-632 | The MTU is never below the minimum. |
| Sending.Sender.FlushFlight | Teamstuff/Pods/BoringSSL/ssl/d1_both.cc:829-834 | Marks the flight complete, starts the timer and sends it. |
| Sending.Sender.Retransmit | Teamstuff/Pods/BoringSSL/ssl/d1_both.cc:836-845 | Sends the whole flight again from its start. |
| Sending.Sender.CheckTimeouts | Teamstuff/Pods/BoringSSL/ssl/d1_lib.cc:168-187 | Counts the timeout, falls back to the smaller MTU after two and gives up after twelve. |
| Sending.Sender.HandleTimeout | Teamstuff/Pods/BoringSSL/ssl/d1_lib.cc:247-267 | A timeout doubles the period and retransmits, or fails after too many. |
| Sending.Sender.SetWriteState | Teamstuff/Pods/BoringSSL/ssl/dtls_method.cc:97-107 | The next epoch starts at number zero and keeps the previous keys and number. |
| Sending.Sender.OnHandshakeComplete | Teamstuff/Pods/BoringSSL/ssl/dtls_method.cc:71-79 | Stops the timer and drops a flight that the peer has answered. |
| Transport.HandsOverPrefix | Teamstuff/Pods/BoringSSL/ssl/d1_both.cc:297-438 | Whatever was transmitted and retransmitted, at whatever sizes, and whatever the network does to it, the receiver hands over a prefix of the messages added at the sender. |
| Transport.TilesBring | Teamstuff/Pods/BoringSSL/ssl/d1_both.cc:644-827 | A transmission of a whole flight brings every byte of every message. |
| Transport.WholeFlightCompletes | Teamstuff/Pods/BoringSSL/ssl/d1_both.cc:255-438 | Once the records of one transmission have got through, each message of the epoch completes in its turn. |
| Transport.FlightHandedOver | Teamstuff/Pods/BoringSSL/ssl/d1_both.cc:297-457 | A flight that crosses a ChangeCipherSpec is handed over whole, byte for byte, once its records have got through in their epochs. |
| Transport.FlightChangeIsPending | Teamstuff/Pods/BoringSSL/ssl/d1_both.cc:324-338 | The ChangeCipherSpec of a flight, once a copy of its record has got through to a receiver without read keys, is pending there unless it has been consumed since. |
| HandshakeSafety.ClientRunOk | Teamstuff/Pods/BoringSSL/ssl/handshake_client.cc:1707-1789 | Whatever the server sends, the client only makes allowed moves and never reads the handshake buffer after its release. |
| HandshakeSafety.ClientCompletes | Teamstuff/Pods/BoringSSL/ssl/handshake.cc:380-476 | A client that completes sent exactly one Finished and accepted exactly one over its own transcript, after changing its read keys, in the order that session reuse fixes. |
| HandshakeSafety.ServerRunOk | Teamstuff/Pods/BoringSSL/ssl/handshake_server.cc:1539-1621 | Whatever the client sends, the server only makes allowed moves and never reads the handshake buffer after its release. |
| HandshakeSafety.ServerCompletes | Teamstuff/Pods/BoringSSL/ssl/handshake_server.cc:1269-1377 | A server that completes did the same, and if it holds a client key it verified a CertificateVerify over the transcript first. |
| HandshakeVerdicts.ClientObeys | Teamstuff/Pods/BoringSSL/ssl/handshake_client.cc:385-1705 | Of every state of the client: whether it asks for a check; a check that rejects ends the handshake, a pending one leaves it where it is, and nothing else depends on it. |
| HandshakeVerdicts.ClientTrusts | Teamstuff/Pods/BoringSSL/ssl/handshake_client.cc:871-889 | A client that completes a full handshake with a certificate cipher has verified the server's certificate, and the verification accepted; no check that was asked for has rejected. |
| HandshakeVerdicts.ServerObeys | Teamstuff/Pods/BoringSSL/ssl/handshake_server.cc:426-1537 | The same of every state of the server. |
| HandshakeVerdicts.ServerTrusts | Teamstuff/Pods/BoringSSL/ssl/handshake_server.cc:949-1056 | A server that completes holding a client's key has verified its certificate, and the verification accepted; a certificate that was requested and demanded is there; no check that was asked for has rejected. |
| HandshakeTurns.ClientTurnConsumes | Teamstuff/Pods/BoringSSL/ssl/handshake.cc:493-627 | A turn consumes only a message under the keys it reads with, or where it waits for one a ChangeCipherSpec under them; it fails on anything else it waits for, changes nothing while nothing has come, and sends only what was pending. |
| HandshakeTurns.ClientChanges | Teamstuff/Pods/BoringSSL/ssl/handshake_client.cc:1649-1656 | For every change of the client's read keys a ChangeCipherSpec under the keys before it was taken. |
| HandshakeTurns.ServerTurnConsumes | Teamstuff/Pods/BoringSSL/ssl/handshake.cc:493-627 | The same of every turn of the server. |
| HandshakeTurns.ServerChanges | Teamstuff/Pods/BoringSSL/ssl/handshake_server.cc:1370-1377 | The same of the server's read keys. |
| Transcripts.ClientTranscript | Teamstuff/Pods/BoringSSL/ssl/handshake_client.cc:385-1705 | Whatever the server sends, the transcript of a client that completes is that of a full handshake or a resumption (section 7.3 of RFC 5246), with no message missing, repeated or out of order: optional messages are there only where cipher and ServerHello allow them, a needed ServerKeyExchange and an announced ticket always, and Finished and CertificateVerify are over all before them. |
| Transcripts.ServerTranscript | Teamstuff/Pods/BoringSSL/ssl/handshake_server.cc:426-1537 | Whatever the client sends, the transcript of a server that completes is the one its configuration leads to, each optional message being there exactly when the configuration says so; only a certificate it asked for may be empty, and one that is demanded is not. |
| Transcripts.FalseStarts | Teamstuff/Pods/BoringSSL/ssl/handshake_client.cc:1538-1564 | A client pauses for False Start exactly after its flight in a full handshake, when it is configured to. |
| Transcripts.DialogueIsWhole | Teamstuff/Pods/BoringSSL/ssl/handshake_server.cc:1539-1621 | The transcript that two agreeing sides end with is a whole one of that grammar. |
| ClientHandshakes.ClientHandshake.DoHandshake | Teamstuff/Pods/BoringSSL/ssl/handshake_client.cc:1707-1789 | The method of each state sets the fields as the step of that state says; what the steps may do is pinned by HandshakeVerdicts, HandshakeTurns and Transcripts. |
| ClientHandshakes.ClientHandshake.TakeTurn | Teamstuff/Pods/BoringSSL/ssl/handshake.cc:493-627 | What the client waits for is resolved, then it makes one step. |
| ClientHandshakes.ClientHandshake.RunHandshake | Teamstuff/Pods/BoringSSL/ssl/handshake.cc:491-628 | Over all that arrives the loop runs the machine, and a client that ends as done sent and accepted exactly one Finished. |
| ServerHandshakes.ServerHandshake.DoHandshake | Teamstuff/Pods/BoringSSL/ssl/handshake_server.cc:1539-1621 | The method of each state sets the fields as the step of that state says. |
| ServerHandshakes.ServerHandshake.TakeTurn | Teamstuff/Pods/BoringSSL/ssl/handshake.cc:493-627 | What the server waits for is resolved, then it makes one step. |
| ServerHandshakes.ServerHandshake.RunHandshake | Teamstuff/Pods/BoringSSL/ssl/handshake.cc:491-628 | Over all that arrives the loop runs the machine, and a server that ends as done sent and accepted exactly one Finished, and verified a client key it holds. |
| ClientPath.ClientTurns | Teamstuff/Pods/BoringSSL/ssl/handshake_client.cc:1707-1789 | Every turn of the client reads the item of its phase, says its own items or stays, and leaves it where the dialogue has it. |
| ClientPath.ClientProgresses | Teamstuff/Pods/BoringSSL/ssl/handshake_client.cc:1707-1789 | A turn brings the client closer to its end, along the jump back of a resumed handshake too, unless it waits for something that has not come. |
| ClientPath.ClientTurnPends | Teamstuff/Pods/BoringSSL/ssl/handshake.cc:558-596 | An operation left pending makes the client wait where it is and nothing else. |
| ServerPath.ServerTurns | Teamstuff/Pods/BoringSSL/ssl/handshake_server.cc:1539-1621 | Every turn of the server reads the item of its phase, says its own items or stays, and leaves it where the dialogue has it. |
| ServerPath.ServerProgresses | Teamstuff/Pods/BoringSSL/ssl/handshake_server.cc:1539-1621 | A turn brings the server closer to its end unless it waits for something that has not come. |
| ServerPath.ServerTurnPends | Teamstuff/Pods/BoringSSL/ssl/handshake.cc:558-596 | An operation left pending makes the server wait where it is and nothing else. |
| Handshakes.TurnKeepsInStep | Teamstuff/Pods/BoringSSL/ssl/handshake.cc:491-628 | Every turn of either side keeps both machines and both queues in step, and none fails. |
| Handshakes.StuckIsCompleted | Teamstuff/Pods/BoringSSL/ssl/handshake.cc:491-628 | When neither side can change anything, both are done: there is no deadlock. |
| Handshakes.AlwaysCompletes | Teamstuff/Pods/BoringSSL/ssl/handshake.cc:491-628 | From every reachable state, every interleaving in which both sides keep getting turns completes. |
| Handshakes.HandshakeCompletes | Teamstuff/Pods/BoringSSL/ssl/handshake_server.cc:1439-1621 | For every agreed configuration, full or resumed, with any mix of ticket, status, PSK hint, client certificate, NPN and Channel ID, every interleaving ends with both sides done, nothing left over, the same transcript and matching keys. |
| CipherChoice.Pick | Teamstuff/Pods/BoringSSL/ssl/handshake_server.cc:375-421 | The single pass over the preference list gives the client's favourite among the acceptable suites of the first group that has one, and nothing exactly when no closed group has one. |
| CipherChoice.Choose | Teamstuff/Pods/BoringSSL/ssl/handshake_server.cc:357-424 | The suite is in both lists, usable at the version and allowed in key exchange and authentication; with the server's preference it is that of Pick, without it the client's first such suite; nothing exactly when no suite is such. |
| CipherChoice.ClosedListChooses | Teamstuff/Pods/BoringSSL/ssl/internal.h:1860-1889 | In a list whose last group is closed, something is chosen exactly when something is acceptable. |
| CipherChoice.UngroupedIsFirst | Teamstuff/Pods/BoringSSL/ssl/internal.h:1878-1881 | Without groups the choice is the first acceptable suite. |
| RecordBuffers.RecordBuffer.EnsureCap | Teamstuff/Pods/BoringSSL/ssl/ssl_buffer.cc:47-81 | Keeps the contents, aligns a new buffer, and refuses exactly capacities above 0xffff. |
| RecordBuffers.RecordBuffer.Put | Teamstuff/Pods/BoringSSL/ssl/ssl_buffer.cc:83-88 | What is filled in behind the contents is appended. |
| RecordBuffers.RecordBuffer.Consume | Teamstuff/Pods/BoringSSL/ssl/ssl_buffer.cc:90-97 | Drops bytes from the front. |
| RecordBuffers.OffsetExact | Teamstuff/Pods/BoringSSL/ssl/ssl_buffer.cc:90-97 | The 16-bit offset stays exact for every part consumed exactly when offset and capacity together stay within 16 bits. |
| RecordBuffers.SafeCapacities | Teamstuff/Pods/BoringSSL/ssl/ssl_buffer.cc:47-81 | Capacities up to 0xfff9 are safe at every alignment, and no larger one is. |
| Writing.Writer.AddRecordToFlight | Teamstuff/Pods/BoringSSL/ssl/s3_both.cc:135-165 | The sealed record is appended to the pending flight, or nothing is. |
| Writing.Writer.AddMessage | Teamstuff/Pods/BoringSSL/ssl/s3_both.cc:184-205 | A message is split into records of at most the maximal fragment whose plaintexts join to it, a failure leaving a prefix. |
| Writing.Writer.FlushBuffer | Teamstuff/Pods/BoringSSL/ssl/ssl_buffer.cc:239-252 | Writes until the buffer is empty or the BIO refuses; no byte is lost or repeated. |
| Writing.Writer.FlushFlight | Teamstuff/Pods/BoringSSL/ssl/s3_both.cc:231-279 | Drains the write buffer, then the flight from its offset; success means that everything sealed has been delivered and the BIO flushed after it; it fails at once, writing nothing, after a shutdown or for a flight above INT_MAX, and otherwise only when the BIO does, the flight kept. |
| Writing.Writer.WritePending | Teamstuff/Pods/BoringSSL/ssl/s3_pkt.cc:202-218 | A retry with another type, fewer bytes or, unless allowed, another buffer is refused and changes nothing; any other fails only when the BIO does, and a record is reported only once the write buffer is empty. |
| Writing.Writer.DoWrite | Teamstuff/Pods/BoringSSL/ssl/s3_pkt.cc:221-289 | A record pending is finished first and nothing sealed; a flight goes into the buffer before the record; what is reported is what was sealed; every failure has one of six stated reasons. |
| Writing.Writer.WriteAppData | Teamstuff/Pods/BoringSSL/ssl/s3_pkt.cc:129-200 | Over any partial and failed writes and conforming retries, the bytes delivered are a prefix of the sealed records in sealing order, each sealed by a call of the cipher of its own, and the plaintexts of the application records join to exactly what has been reported written and what is still to be. It fails only after a shutdown, for a retry that does not conform, for lack of room, or when the cipher or the BIO refuses. |
| Writing.Writer.DispatchAlert | Teamstuff/Pods/BoringSSL/ssl/s3_pkt.cc:405-423 | An alert is sealed as its level and description and written after what is pending, takes nothing from the application's bytes, and a fatal one flushes the BIO. |
| AeadContexts.CreateBuilds | Teamstuff/Pods/BoringSSL/ssl/ssl_aead_ctx.cc:107-149 | Every context that is built has nonce parts that add up to the nonce of its cipher. |
| AeadContexts.AssembleNonce | Teamstuff/Pods/BoringSSL/ssl/ssl_aead_ctx.cc:243-281 | The nonce is assembled in place from its fixed part or zeros, its variable part and the exclusive or. |
| AeadContexts.Seal | Teamstuff/Pods/BoringSSL/ssl/ssl_aead_ctx.cc:379-405 | A record is the explicit nonce followed by the sealed plaintext, under that nonce and the additional data, whose bytes are given one by one: sequence number, type, version and length as far as the context includes them. |
| AeadContexts.Open | Teamstuff/Pods/BoringSSL/ssl/ssl_aead_ctx.cc:225-294 | Opening reconstructs the nonce and the additional data, byte by byte as in sealing, from the record, and succeeds only on records long enough for them. |
| AeadContexts.OpenUndoesSeal | Teamstuff/Pods/BoringSSL/ssl/ssl_aead_ctx.cc:225-377 | In every configuration, opening what was sealed for a sequence number gives the plaintext back. |
| AeadRecords.GcmSeals | Teamstuff/Pods/BoringSSL/ssl/ssl_aead_ctx.cc:107-149 | AES-GCM in TLS 1.2: the sequence number is sent, and with the fixed IV before it the nonce; sequence number, type, version and length are authenticated. |
| AeadRecords.GcmOpens | Teamstuff/Pods/BoringSSL/ssl/ssl_aead_ctx.cc:225-294 | It opens with the nonce and the thirteen bytes that the record and its sequence number make, and refuses records shorter than nonce and overhead. |
| AeadRecords.ChaChaSeals | Teamstuff/Pods/BoringSSL/ssl/ssl_aead_ctx.cc:107-149 | ChaCha20-Poly1305 in TLS 1.2: the nonce is the padded sequence number with the fixed IV added bit by bit, and is not sent; the same thirteen bytes are authenticated. |
| AeadRecords.ChaChaOpens | Teamstuff/Pods/BoringSSL/ssl/ssl_aead_ctx.cc:225-294 | It opens with that nonce and those bytes, and refuses records shorter than the overhead. |
| AeadRecords.StatefulSeals | Teamstuff/Pods/BoringSSL/ssl/ssl_aead_ctx.cc:141-146 | A cipher with a MAC key: the random nonce is sent, the version is authenticated except in SSL 3.0, and the length is left to the cipher. |
| AeadRecords.StatefulOpens | Teamstuff/Pods/BoringSSL/ssl/ssl_aead_ctx.cc:225-294 | It opens with the nonce from the record, and refuses records shorter than that. |
| AeadRecords.Tls13Seals | Teamstuff/Pods/BoringSSL/ssl/ssl_aead_ctx.cc:131-139 | In TLS 1.3 the nonce is masked for every cipher and nothing else is authenticated. |
| AeadRecords.AdditionalDataInjective | Teamstuff/Pods/BoringSSL/ssl/ssl_aead_ctx.cc:203-223 | Additional data of one context is equal exactly when sequence numbers and types are, and versions and lengths as far as the context includes them. |
| AeadRecords.OpensExactly | Teamstuff/Pods/BoringSSL/ssl/ssl_aead_ctx.cc:225-377 | With a cipher that opens only under the nonce and additional data it sealed with, a record opens exactly under its own sequence number and, before TLS 1.3, its own type and authenticated version, and then to its plaintext. |
| AeadContexts.NoncesDistinct | Teamstuff/Pods/BoringSSL/ssl/ssl_aead_ctx.cc:320-351 | Distinct variable parts give distinct nonces. |
| AeadContexts.SequenceNumbersGiveNonces | Teamstuff/Pods/BoringSSL/ssl/ssl_aead_ctx.cc:320-351 | Without a random part, two sequence numbers have one nonce exactly when they are equal. |

## Left out

- nanopb callbacks, extensions, pointer (malloc) fields, `pb_release` and the variant without 64-bit support.
- Memory in nanopb: a struct is a sequence of slots, not bytes at addresses; `FieldIterator` proves that addresses identify slots. Strings are the characters before their NUL, byte arrays their first `size` bytes.
- Descriptors.DefaultSlot: `pb_field_set_to_default` stores a zero count for a fixed-count array too, where count and data share an address, and so clears the array's first bytes (or writes past an array smaller than a count). The model leaves such arrays as they were. The theorems about `pb_decode` hold for every prior contents of the struct, cleared or not, as long as the count fits into the array.
- Lengths in the encoder are unbounded, with the assumption `SizesFit` that each of them fits 64 bits; error texts are reduced to success and failure.
- Only what `decode_static_field` checks of a wire type against a field type is checked.
- DTLS record headers, ciphers and clocks: a record arrives with the verdict of its authentication, a sealed record has an arbitrary length within the cipher's overhead, and timeouts are calls. Alerts, shutdown, application data and the read buffer of DTLS are not part of this model, nor is HelloVerifyRequest.
- Delivery.NoRecordTwice: does not cover runs in which the read epoch wraps, because the window is cleared with each change and numbers repeat after 65536 of them.
- The sender's record numbers are those of the source, but that none is used twice in an epoch is not stated.
- TLS 1.3, SSL 3.0, V2ClientHello, early data, renegotiation, handoff and handback, custom extensions and SRTP.
- Handshake messages carry what decides the course of the handshake; parsing, signatures, key derivation and certificate checks are verdicts. A Finished and a CertificateVerify stand for the messages they are computed over.
- The composed handshake is about two sides that agree on their parameters and whose checks succeed; operations may be left pending any number of times. What holds when a check fails is the subject of `HandshakeVerdicts`.
- Transcripts.ServerTranscript: asks that a message at the front that is not consumed is there again at the next turn, as `get_message` gives it again.
- On the write path the maximal fragment is constant, and early data, key updates and record splitting for CBC are not modelled. Reading application data is not modelled.
- The write buffer is asked to keep offset and capacity within 16 bits; RecordBuffers.OffsetExact and RecordBuffers.SafeCapacities show that this is exactly what its 16-bit offset needs.
- The flag that an alert is due (`alert_dispatch`) is the caller's on the write path.
- Fuzzer mode, `extra_in` and the handling of keys in the creation of an AEAD context; the cipher is an arbitrary function with an inverse.
- The session serializer and parser (`ssl_asn1.cc`): each of their fields is written and read on its own, and a model would mostly add easy members.
- The Swift application, and every other pod.
