# Verified models of nanopb and of the BoringSSL handshake and record code

The iOS part of this repository carries two C and C++ libraries whose algorithms everything
else rests on: nanopb 0.3.9.1, a table-driven printer and parser for Protocol Buffers, and the
`ssl` layer of BoringSSL. This project models the hard parts of both in Dafny and proves what
they are relied on for. `dafny verify dfyconfig.toml` checks all of it.

**nanopb** (`Pb*.dfy`, over the bit arithmetic of `Bits.dfy`). A descriptor is a finite tree of
fields, a struct a store with one slot a field, where the members of a union share a slot.
`PbWire` and `PbCodec` say what the bytes of a value and of a message are; the classes in
`PbStreams`, the iterator in `PbIter`, the bitmap in `PbRequired` and the methods of `PbEncoder`
and `PbDecoder` do what the C functions do, loop by loop, and are proved to compute that.
`PbRoundTrip` proves that decoding inverts encoding on the visible value of every well-formed
struct; `PbMerge` proves the merge law and that the check of required fields is exact, `PbUnknown`
that whatever an encoder writes for a field the descriptor does not know is passed over. `PbFormat`
writes the wire format down apart from the codec (what the bytes of numbers mean, examples of whole
messages, which values a field takes, which structs can be encoded), `PbDefaults` which value stands
in a field that was not in the input, and `PbOccurrences` what becomes of one that comes more than
once.

**DTLS handshake transport** (`Dtls*.dfy`; sections 4.1.2.6, 4.2.2, 4.2.3, 4.2.4 and 4.2.6 of
RFC 6347). `DtlsFragment` and `DtlsReceive` hold the reassembly bitmask, which refines a set of
bytes, and the ring of seven messages, which refines a queue; `DtlsTransport` follows the
receiver over whole runs, key switches and all. `DtlsFlight` says what the records of a flight do
to the cursor, `DtlsPacket` what goes into a packet and exactly when sealing one fails, and
`DtlsSend` holds the sender: record numbers, fragmentation to the MTU, the cursor that survives a
refused packet. `DtlsEndToEnd.FlightArrives` joins both ends over a channel that loses, repeats
and reorders. `DtlsReplay` is the replay window, which refines the set of numbers seen, and the
record header around it.

**TLS 1.0 to 1.2** (`Tls*.dfy`; sections 7.3 and 7.4.9 of RFC 5246). `TlsChart` writes down the
message chart of the RFC as data and `TlsOrder` the order of messages as a property of a
transcript alone; neither is used to define the machines. `TlsState`, `TlsClient`, `TlsServer`
and `TlsRun` are the two state machines and their driver. Each transition is proved safe for an
arbitrary peer (keys, Finished messages, order of the transcript, certificate checks) and to
follow the chart as long as the peer does. `TlsCompose` joins a client and a server by two
channels, each of which may stall at any record, and proves, when they agree on a session and
accept each other's certificates and contents (`Agree`), that no schedule leads to an error or a
deadlock and that both reach the end with one transcript, the client having returned early once
exactly if False Start applies. `TlsWrite` is the write path down to
the transport, with exactly-once sealing and progress; `TlsCipherChoice` the choice of a cipher
among groups of equal preference.

The AEAD and the transport are functions given as inputs: what sealing a record yields, if
anything, and what each write to the BIO returns. What is safe is stated for all of them, what must
succeed up to their refusals: an operation fails only for one it met.

Machine widths are written out wherever they matter: 32- and 64-bit varints, the 8-bit bit
position of the 32-bit decoder, 16-bit message numbers and epochs, 48-bit record numbers, 16-bit
buffer sizes. The width of `pb_size_t` is left open (`PbTypes.PB_SIZE_MAX`), and so is whether
nanopb is built with dynamic memory: what is proved holds for 8, 16 and 32 bits, the last of which
is what the pod is built with, and for both kinds of build.

Where the code does less than one might expect, the model does what the code does, and the exact
condition is proved, with an input:

- The iterator takes a distance of `PB_SIZE_MAX` between two adjacent unions for the mark of a
  union member (`PbIter.OffsetsAreMembersIff`; `PbIter.MisreadUnion`).
- A proto3 field that holds its default is written all the same if it is a fixed-length byte
  array, or a submessage with such a field or a required one (`PbRoundTrip.DefaultExactly`;
  `PbRoundTrip.DefaultMissed`).
- A DTLS fragment numbered exactly seven past the window passes the first comparison and ends the
  handshake with an error (`DtlsTransport.OutsideWindow`; `JustOutside`); in epoch 1 a fragment of
  any but the next message does (`DtlsTransport.FailsWhenUntimely`; `SecondFirst`).
- When sealing fails in the middle of a DTLS packet, for which a refusal of the AEAD is enough, the
  records before it are lost although the cursor has passed them (`DtlsPacket.FailsExactly`;
  `DtlsPacket.RecordLost`).
- `ssl3_write_app_data` clears `wnum` before it checks the length, so a retry that is too short
  makes it forget how far it was (last clause of `TlsWrite.Writer.WriteAppData`;
  `TlsWrite.ForgottenByte`).
- A cipher group without an end is never chosen from (`TlsCipherChoice.Scan`; `EndlessGroup`).

## Model

| member | source | states |
|---|---|---|
| `PbWire.VarintAtMostTenBytes` | ios/Pods/nanopb/pb_encode.c:574-594 | every 64-bit value takes at most 10 bytes |
| `PbWire.Varint64RoundTrip` | ios/Pods/nanopb/pb_decode.c:250-270 | decoding the varint of any 64-bit value gives the value and leaves exactly the bytes after it |
| `PbWire.Varint32RoundTrip` | ios/Pods/nanopb/pb_decode.c:182-248 | the 32-bit decoder, with its own overflow branches, reads back every value below 2^32 |
| `PbWire.DecodersAgree` | ios/Pods/nanopb/pb_decode.c:182-270 | on every input both decoders accept, they stop at the same byte and the 32-bit result is the 64-bit one modulo 2^32 |
| `PbFormat.VarintIsBase128` | ios/Pods/nanopb/pb_encode.c:574-594 | a varint is the shortest base-128 form of its value, least significant group first, each byte but the last marked |
| `PbFormat.VarintTaken` | ios/Pods/nanopb/pb_decode.c:250-270 | pb_decode_varint takes exactly what ends within ten bytes, as the number it stands for modulo 2^64; other input is too short or too long |
| `PbFormat.NarrowTaken` | ios/Pods/nanopb/pb_decode.c:182-248 | pb_decode_varint32 takes every form of a number below 2^32 of up to 36 bytes, superfluous zeros included |
| `PbFormat.FixedIsLittleEndian` | ios/Pods/nanopb/pb_encode.c:607-632 | byte i of a fixed-width number is worth 2^(8i) |
| `PbWire.ZigzagRoundTrip` | ios/Pods/nanopb/pb_encode.c:596-605 | zigzag maps every int64 to a uint64 and back to itself, although the doubling wraps around |
| `PbWire.UnzigzagRoundTrip` | ios/Pods/nanopb/pb_decode.c:1240-1252 | and every uint64 to an int64 and back |
| `PbWire.KeyRoundTrip` | ios/Pods/nanopb/pb_decode.c:293-309 | a key of any tag below 2^29 and any wire type is read back |
| `PbFormat.KnownKeys` | ios/Pods/nanopb/pb_encode.c:635-672 | the keys of field 1 with the four wire types are 08, 09, 0a and 0d |
| `PbFormat.KnownFixed` | ios/Pods/nanopb/pb_encode.c:607-672 | field 1 with a fixed-width number below 256 is its key, that byte and three or seven zeros |
| `PbFormat.KnownMessage` | ios/Pods/nanopb/pb_encode.c:494-516 | the bytes of a message with an int32 of 150, the string testing and the packed numbers 3, 270 and 86942 are those in the description of the format |
| `PbWire.DelimitedRoundTrip` | ios/Pods/nanopb/pb_decode.c:367-399 | a length-delimited payload below 2^32 bytes is cut out of the stream exactly |
| `PbStreams.VarintBytes` | ios/Pods/nanopb/pb_encode.c:574-594 | the loop of pb_encode_varint produces the varint of its value |
| `PbStreams.PbIStream.DecodeVarint` | ios/Pods/nanopb/pb_decode.c:250-270 | the loop returns what the specification returns on the bytes left, or its error, and consumes just those bytes |
| `PbStreams.PbIStream.DecodeVarint32` | ios/Pods/nanopb/pb_decode.c:182-248 | the same for the 32-bit loop with its bit position and overflow branches |
| `PbStreams.PbIStream.SkipField` | ios/Pods/nanopb/pb_decode.c:316-329 | skips one value of any wire type, eight bytes of a 64-bit one and four of a 32-bit one, failing on the types the wire does not have; what it passes over is an encoded value (SkipsItem) |
| `PbStreams.PbIStream.MakeSubstream` | ios/Pods/nanopb/pb_decode.c:367-379 | the substream is the payload and the parent is moved past it, or the parent is too short |
| `PbStreams.PbIStream.CloseSubstream` | ios/Pods/nanopb/pb_decode.c:382-399 | what was left unread is skipped, so the parent goes on after the payload |
| `PbStreams.PbOStream.Write` | ios/Pods/nanopb/pb_encode.c:101-119 | succeeds exactly when the bytes fit (or are only counted), writes them all or none, and never passes max_size |
| `PbStreams.PbOStream.EncodeVarint` | ios/Pods/nanopb/pb_encode.c:574-594 | appends the varint of the value, if it fits |
| `PbIter.OffsetIsMember` | ios/Pods/nanopb/pb_common.c:20-76 | the summed data_offsets are the true member offsets, union members sharing one |
| `PbIter.OffsetsAreMembersIff` | ios/Pods/nanopb/pb_common.c:20-76 | they are so if and only if no gap between two adjacent unions equals the PB_SIZE_MAX marker |
| `PbIter.MisreadUnion` | ios/Pods/nanopb/pb_common.c:20-76 | a descriptor that has such a gap: a union of the greatest size last read through a one-byte member, and another union behind it |
| `PbIter.HomeIsAddress` | ios/Pods/nanopb/pb_common.c:44-61 | fields share a storage slot exactly when they share an address |
| `PbIter.PbFieldIter.Next` | ios/Pods/nanopb/pb_common.c:20-76 | keeps pData, pSize and required_field_index what they should be at the new position, and reports the wrap-around |
| `PbIter.PbFieldIter.Find` | ios/Pods/nanopb/pb_common.c:78-95 | from any position: finds the first field with the tag in cyclic order, if and only if there is one, and otherwise returns to where it was |
| `PbRequired.MarkSeen` | ios/Pods/nanopb/pb_decode.c:988-993 | setting bit k of the bitmap words adds k to the set of required fields seen |
| `PbRequired.CheckRequired` | ios/Pods/nanopb/pb_decode.c:1027-1045 | the comparison of whole words and of the partial last word succeeds exactly when every tracked required field was seen |
| `PbRequired.CountRequired` | ios/Pods/nanopb/pb_decode.c:1007-1025 | the walk to the last field with its fix-up counts the required fields, capped at 64 |
| `PbRequired.MarkField` | ios/Pods/nanopb/pb_decode.c:988-993 | the field under the iterator is recorded when it is required and among the first 64 |
| `PbMerge.RequiredCheck` | ios/Pods/nanopb/pb_decode.c:903-1046 | when the fields decode, pb_decode_noinit succeeds if and only if each of the first 64 required fields occurs in the input |
| `PbEncoder.EncodeItem` | ios/Pods/nanopb/pb_encode.c:734-869 | each of the pb_enc_ functions writes the bytes of its value or fails as the specification does |
| `PbEncoder.EncodeSubmessage` | ios/Pods/nanopb/pb_encode.c:682-730 | both passes agree at any nesting depth: the second never meets the size check |
| `PbEncoder.EncodeArray` | ios/Pods/nanopb/pb_encode.c:126-209 | a packed array is written as key, length and payload, the length being exact; others entry by entry |
| `PbEncoder.CheckProto3DefaultValue` | ios/Pods/nanopb/pb_encode.c:215-304 | computes the predicate DefaultField, which DefaultExactly characterises |
| `PbRoundTrip.DefaultExactly` | ios/Pods/nanopb/pb_encode.c:215-304 | a field counts as default exactly when its visible value is that of fresh memory and its description lets the check tell: never for a required field, for a fixed-length byte array without presence, nor for a submessage without presence that contains such a field |
| `PbRoundTrip.DefaultMissed` | ios/Pods/nanopb/pb_encode.c:215-304 | an example: a zero byte of fixed length is its own default and yet not recognised |
| `PbEncoder.EncodeBasicField` | ios/Pods/nanopb/pb_encode.c:307-393 | a field is written exactly when it is present |
| `PbEncoder.EncodeMessage` | ios/Pods/nanopb/pb_encode.c:494-516 | writes the encoding of the struct if it exists and fits; a sizing stream counts the same bytes |
| `PbEncoder.GetEncodedSize` | ios/Pods/nanopb/pb_encode.c:533-542 | the sizing pass gives the length of the encoding, or fails with it |
| `PbEncoder.EncodeToBuffer` | ios/Pods/nanopb/pb_encode.c:494-542 | encoding into a buffer succeeds if and only if the size found by the sizing pass fits, and then writes exactly that many bytes |
| `PbDecoder.FieldSetToDefault` | ios/Pods/nanopb/pb_decode.c:812-882 | leaves the default the descriptor declares, or zero without one, with no presence, no entries and no union member |
| `PbRoundTrip.DefaultForgets` | ios/Pods/nanopb/pb_decode.c:812-882 | nothing visible of the old slot is left: the default over any two memories is the same visible value |
| `PbDecoder.MessageSetToDefaults` | ios/Pods/nanopb/pb_decode.c:884-894 | does so for all fields, recursively |
| `PbRoundTrip.DefaultStructForgets` | ios/Pods/nanopb/pb_decode.c:884-894 | so does initialising a whole struct, nested ones and unions included |
| `PbDefaults.AbsentIsDeclared` | ios/Pods/nanopb/pb_decode.c:901-1063 | after pb_decode over any memory, a field that is not in the input, nor another member of its union, has its declared default value, no presence and no entries |
| `PbDefaults.SevenByDefault` | ios/Pods/nanopb/pb_decode.c:852-856 | an example: an optional int32 declared with default 7, decoded from nothing, is absent and 7 |
| `PbDecoder.DecodeItem` | ios/Pods/nanopb/pb_decode.c:1289-1508 | each of the pb_dec_ functions returns the value of the bytes or the error, within the range of its C type |
| `PbFormat.SignedField` | ios/Pods/nanopb/pb_decode.c:1289-1324 | a signed field takes exactly the varints that stand for a value of its type, those of at most four bytes by their low 32 bits, and gives that value |
| `PbFormat.UnsignedField` | ios/Pods/nanopb/pb_decode.c:1326-1348 | an unsigned field takes exactly the varints of values of its type |
| `PbFormat.ZigzagField` | ios/Pods/nanopb/pb_decode.c:1350-1372 | a zigzag field takes exactly the varints of which the half, negated and less one if odd, is of its type |
| `PbFormat.BlobField` | ios/Pods/nanopb/pb_decode.c:1391-1508 | a byte or character array takes exactly the payloads that fit, a string with its terminator; one of fixed length only its own length or nothing, which is read as zeros |
| `PbDecoder.DecodeStaticField` | ios/Pods/nanopb/pb_decode.c:401-475 | a field is stored as the specification says, packed or not, with its count, flag or selector |
| `PbDecoder.ReleaseUnionField` | ios/Pods/nanopb/pb_decode.c:1101-1128 | with dynamic memory, overwriting a union fails exactly when its selector names no field, and otherwise the iterator comes back to the new member |
| `PbDecoder.DecodeMessageNoInit` | ios/Pods/nanopb/pb_decode.c:901-1048 | the field loop computes DecodeNoInit of the bytes left and the old struct, with and without dynamic memory |
| `PbDecoder.DecodeMessage` | ios/Pods/nanopb/pb_decode.c:1051-1063 | and pb_decode computes Decode |
| `PbRoundTrip.SoundEncodesFrom` | ios/Pods/nanopb/pb_encode.c:494-516 | a well-formed struct always encodes |
| `PbFormat.EncodesExactly` | ios/Pods/nanopb/pb_encode.c:494-516 | pb_encode succeeds exactly on the structs whose present fields have integers of 1, 2, 4 or 8 bytes and counts that their arrays have room for, at any depth |
| `PbRoundTrip.PackedRoundTrip` | ios/Pods/nanopb/pb_decode.c:414-449 | the payload of a packed array decodes to the entries and the count it came from |
| `PbOccurrences.PackedOrNot` | ios/Pods/nanopb/pb_decode.c:414-465 | an array of numbers is read alike whether it is packed or its entries come one by one; they join those already there |
| `PbOccurrences.TooMany` | ios/Pods/nanopb/pb_decode.c:414-465 | with one entry more than there is room for decoding fails, packed or not |
| `PbOccurrences.SubmessagesMerge` | ios/Pods/nanopb/pb_decode.c:1463-1485 | a second occurrence of a singular submessage is decoded into the result of the first |
| `PbOccurrences.EntryStartsAnew` | ios/Pods/nanopb/pb_decode.c:1463-1485 | an entry of a repeated submessage starts from its declared defaults, whatever its memory held |
| `PbOccurrences.UnionReplaces` | ios/Pods/nanopb/pb_decode.c:467-473 | a submessage in a union replaces what the union held, be it the same member |
| `PbOccurrences.UnionStartsAnew` | ios/Pods/nanopb/pb_decode.c:467-473 | and a field that is not in it has its declared default |
| `PbRoundTrip.FieldRoundTrip` | ios/Pods/nanopb/pb_decode.c:401-475 | the bytes of one field whose length prefixes fit 32 bits, in front of any others, decode to the same visible value and leave the other fields alone |
| `PbRoundTrip.MessageRoundTrip` | ios/Pods/nanopb/pb_decode.c:1051-1063 | for every well-formed descriptor tree and struct the encoding exists; unless a submessage or packed array in it takes 2^32 bytes, which a 32-bit length prefix cannot state, it decodes over any memory, is consumed whole and gives the same visible value |
| `PbMerge.LoopMerges` | ios/Pods/nanopb/pb_decode.c:919-997 | the decode loop on a ++ b is the loop on b from where a led |
| `PbMerge.MergeLaw` | ios/Pods/nanopb/pb_decode.c:901-1048 | for types without required fields, decoding a ++ b is decoding b into the result of a |
| `PbMerge.UnknownFieldIgnored` | ios/Pods/nanopb/pb_decode.c:316-326 | bytes of an unknown tag that pb_skip_field passes over may be inserted between any two fields without changing the result |
| `PbUnknown.SkipsItem` | ios/Pods/nanopb/pb_decode.c:316-329 | pb_skip_field passes over exactly the bytes an encoder writes for a value of any type, given the wire type in its key |
| `PbUnknown.LoopSkipsField` | ios/Pods/nanopb/pb_decode.c:919-940 | whatever an encoder writes for a field the descriptor does not know, arrays included, is passed over |
| `PbUnknown.UnknownEncodingIgnored` | ios/Pods/nanopb/pb_decode.c:901-1048 | so such a field may be inserted between any two fields without changing the result |
| `PbUnknown.GroupsAreRefused` | ios/Pods/nanopb/pb_decode.c:316-329 | an unknown field of a wire type other than the four fails the decoding |
| `PbUnknown.ZeroKeyEnds` | ios/Pods/nanopb/pb_decode.c:293-309 | a zero in place of a key ends the message, whatever follows |
| `DtlsFragment.FragmentRoundTrip` | ios/Pods/BoringSSL-GRPC/ssl/d1_both.cc:459-473 | a fragment in front of any bytes is parsed back, header, body and rest |
| `DtlsFragment.HeaderLayout` | ios/Pods/BoringSSL-GRPC/ssl/d1_both.cc:459-473 | type, length, number, offset and length of the fragment stand at bytes 0, 1, 4, 6 and 9, most significant byte first |
| `DtlsFragment.BitRangeBit` | ios/Pods/BoringSSL-GRPC/ssl/d1_both.cc:198-205 | bit_range sets exactly the bits of its range |
| `DtlsFragment.HmFragment.SetBits` | ios/Pods/BoringSSL-GRPC/ssl/d1_both.cc:226-236 | after the three-part loop the bitmask stands for the old set of bytes together with the range |
| `DtlsFragment.HmFragment.IsComplete` | ios/Pods/BoringSSL-GRPC/ssl/d1_both.cc:238-250 | the byte comparisons hold exactly when every byte of the message was marked |
| `DtlsFragment.HmFragment.Mark` | ios/Pods/BoringSSL-GRPC/ssl/d1_both.cc:211-251 | bit i is set exactly when byte i was in a marked range, none past msg_len, and reassembly becomes NULL exactly when all are covered |
| `DtlsFragment.HmFragment.Receive` | ios/Pods/BoringSSL-GRPC/ssl/d1_both.cc:393-403 | copying and marking a fragment merges its bytes into the known ones; a complete message is left alone |
| `DtlsReceive.Incoming.GetIncomingMessage` | ios/Pods/BoringSSL-GRPC/ssl/d1_both.cc:265-295 | finds or creates the message of a number in the window, the slot always holding that number; refuses one of another type or length |
| `DtlsReceive.Incoming.Accept` | ios/Pods/BoringSSL-GRPC/ssl/d1_both.cc:362-403 | one fragment changes the ring as AcceptFragment changes the queue it stands for |
| `DtlsReceive.Incoming.OpenHandshake` | ios/Pods/BoringSSL-GRPC/ssl/d1_both.cc:297-406 | a record of any type does what AcceptAny does to the queue the ring stands for: handshake records fragment by fragment up to the first error; the flags follow the record type |
| `DtlsReceive.Incoming.GetMessage` | ios/Pods/BoringSSL-GRPC/ssl/d1_both.cc:408-424 | the next message, exactly when all its bytes are there, as the unfragmented serialisation |
| `DtlsReceive.Incoming.NextMessage` | ios/Pods/BoringSSL-GRPC/ssl/d1_both.cc:426-432 | the message leaves the ring and the window moves on, also over the 16-bit wrap-around |
| `DtlsSend.NextMessage` | ios/Pods/BoringSSL-GRPC/ssl/d1_both.cc:426-438 | and a flight that was flushed before is marked as having a reply |
| `DtlsReceive.Incoming.HasUnprocessedHandshakeData` | ios/Pods/BoringSSL-GRPC/ssl/d1_both.cc:440-457 | true exactly when a ChangeCipherSpec or any message but the current one is held |
| `DtlsReceive.Incoming.OpenChangeCipherSpec` | ios/Pods/BoringSSL-GRPC/ssl/d1_both.cc:475-493 | is remembered once; a malformed one is refused and leaves ring and flags as they were |
| `DtlsTransport.OutsideWindow` | ios/Pods/BoringSSL-GRPC/ssl/d1_both.cc:380-385 | fragments outside the window leave the ring alone; the number read_seq + 7 is the only one that is an error |
| `DtlsTransport.AnyFragment` | ios/Pods/BoringSSL-GRPC/ssl/d1_both.cc:297-406 | whatever fragment comes, an error changes nothing; otherwise only the message it names can change, if incomplete, keeps its type and length and loses no byte; what is held stays in the window and within the length limit |
| `DtlsTransport.WrongFragment` | ios/Pods/BoringSSL-GRPC/ssl/d1_both.cc:362-371 | a fragment beyond the end of its message, of too long a message, or that contradicts the type or length known is refused |
| `DtlsTransport.JustOutside` | ios/Pods/BoringSSL-GRPC/ssl/d1_both.cc:380-385 | an example: while message 0 is awaited, message 7 is an error, 6 and 8 are not |
| `DtlsTransport.EncryptedEpoch` | ios/Pods/BoringSSL-GRPC/ssl/d1_both.cc:373-378 | in epoch 1 a fragment is accepted if it is of the next message, and else an error |
| `DtlsTransport.AcceptGenuine` | ios/Pods/BoringSSL-GRPC/ssl/d1_both.cc:297-406 | a fragment of the sender's flight always fits in: the ring afterwards is that of the fragments arrived and this one |
| `DtlsTransport.FaithfulDelivery` | ios/Pods/BoringSSL-GRPC/ssl/d1_both.cc:297-438 | after any run of genuine records of any epochs, polls and key switches, in any order, lost or repeated, each message delivered is the sender's serialisation, once and in order |
| `DtlsTransport.FailsWhenUntimely` | ios/Pods/BoringSSL-GRPC/ssl/d1_both.cc:373-378 | a run fails if and only if something untimely comes: in epoch 1 a fragment of another message than the next, in the clear a record that is neither a message nor a well-formed ChangeCipherSpec, sealed one that is neither a message nor application data, or a key switch with messages left |
| `DtlsTransport.SecondFirst` | ios/Pods/BoringSSL-GRPC/ssl/d1_both.cc:373-378 | an example: the second of two messages before the first, in epoch 1 |
| `DtlsTransport.ReadyWhenCovered` | ios/Pods/BoringSSL-GRPC/ssl/d1_both.cc:408-424 | the next message can be taken exactly when its bytes are all covered by fragments that arrived |
| `DtlsTransport.FlightDelivered` | ios/Pods/BoringSSL-GRPC/ssl/d1_both.cc:297-438 | once all bytes were heard in fragments of the epochs read, taking messages delivers the whole flight |
| `DtlsFlight.ContentOfRaw` | ios/Pods/BoringSSL-GRPC/ssl/d1_both.cc:525-537 | what the message layer queues parses as the one unfragmented message it was made from |
| `DtlsSend.Writer.SetWriteState` | ios/Pods/BoringSSL-GRPC/ssl/dtls_method.cc:97-107 | the epoch advances, the old keys and sequence become those of the previous epoch, and no record number used can come again |
| `DtlsSend.Writer.SealRecord` | ios/Pods/BoringSSL-GRPC/ssl/dtls_record.cc:294-351 | a record of either epoch takes the next number of that epoch and is sealed with its key; no two records ever sealed share a number until a counter wraps |
| `DtlsSend.Writer.SealNextMessage` | ios/Pods/BoringSSL-GRPC/ssl/d1_both.cc:644-734 | a record that leaves bytes of its message behind uses up the room, overhead included; one that is sealed takes all the rest just if that is sure to fit; none is when there is no room for a byte; the cursor is moved past it, or it fails |
| `DtlsSend.Writer.SealNextPacket` | ios/Pods/BoringSSL-GRPC/ssl/d1_both.cc:739-780 | computes Pack: messages as long as they fit whole and what fits of one more |
| `DtlsPacket.TryFills` | ios/Pods/BoringSSL-GRPC/ssl/d1_both.cc:693-700 | the same of what one attempt yields, on values |
| `DtlsPacket.PackFills` | ios/Pods/BoringSSL-GRPC/ssl/d1_both.cc:739-780 | a packet that stops short of the end has no room for more: its last record was given all of it, or the next entry does not find any |
| `DtlsPacket.PackWhole` | ios/Pods/BoringSSL-GRPC/ssl/d1_both.cc:739-780 | good entries that are sure to fit into the packet all go into it, one record each |
| `DtlsPacket.PackWalks` | ios/Pods/BoringSSL-GRPC/ssl/d1_both.cc:739-780 | the records of a packet fit into it, are just those between the two cursors, and move the cursor forward |
| `DtlsPacket.PackAble` | ios/Pods/BoringSSL-GRPC/ssl/d1_both.cc:644-780 | with AEADs that accept and counters that do not end, sealing a packet fails exactly when it comes to an entry that does not parse or is of another epoch than the current and the previous one; with room for a byte of a message it makes progress |
| `DtlsPacket.FailsExactly` | ios/Pods/BoringSSL-GRPC/ssl/d1_both.cc:739-780 | for all keys and AEADs: sealing a packet fails if and only if the entry after those that go in whole does not parse, is of a forgotten epoch, or has room and its record is refused (by the AEAD, for its size, or because the last number has come); then just the records of the entries before it are lost |
| `DtlsPacket.DueFills` | ios/Pods/BoringSSL-GRPC/ssl/d1_both.cc:693-700 | the record that is due takes all that is left of its entry, or if that is not sure to fit, all the room |
| `DtlsPacket.RecordLost` | ios/Pods/BoringSSL-GRPC/ssl/d1_both.cc:739-780 | an example: a flight of a ChangeCipherSpec and a Finished message, an AEAD that refuses its second record; the first is sealed, passed by the cursor and never sent |
| `DtlsSend.Writer.SendPacket` | ios/Pods/BoringSSL-GRPC/ssl/d1_both.cc:797-815 | offers the packet Pack gives to the transport: its answer decides the outcome, and only a refusal moves the cursor back to where it was |
| `DtlsSend.Writer.SendFlight` | ios/Pods/BoringSSL-GRPC/ssl/d1_both.cc:782-827 | terminates; the packets sent walk the cursor from where it was to where it is, and their fragments are of the flight; with willing AEADs and an MTU that has room, it fails to seal only if an entry is bad, and with a transport that takes every packet the whole flight is out exactly when none is; a flight that is sure to fit one packet goes out in one |
| `DtlsSend.Writer.FlushFlight` | ios/Pods/BoringSSL-GRPC/ssl/d1_both.cc:829-834 | continues a flight without skipping or repeating a byte; succeeds under the same condition |
| `DtlsSend.Writer.Retransmit` | ios/Pods/BoringSSL-GRPC/ssl/d1_both.cc:836-845 | walks the whole flight again from its start; succeeds under the same condition |
| `DtlsSend.Writer.AddOutgoing` | ios/Pods/BoringSSL-GRPC/ssl/d1_both.cc:555-594 | starts a new flight after a flushed one, numbers the message, refuses the eighth |
| `DtlsSend.Writer.OnHandshakeComplete` | ios/Pods/BoringSSL-GRPC/ssl/dtls_method.cc:71-79 | drops the flight exactly when it is marked as having a reply |
| `DtlsSend.CompleteAfter` | ios/Pods/BoringSSL-GRPC/ssl/d1_both.cc:426-438 | so a flushed flight is dropped at the end of the handshake exactly when a message came after it |
| `DtlsSend.Writer.UpdateMtu` | ios/Pods/BoringSSL-GRPC/ssl/d1_both.cc:615-634 | an MTU below the minimum becomes the one the transport tells if that is usable, else the default, unless the query is switched off |
| `DtlsFlight.FragmentsPartition` | ios/Pods/BoringSSL-GRPC/ssl/d1_both.cc:697-733 | the bodies of the fragments sent are contiguous: what was passed before followed by them is what is passed now |
| `DtlsEndToEnd.WalkCovers` | ios/Pods/BoringSSL-GRPC/ssl/d1_both.cc:644-827 | a walk to the end covers every byte of every message |
| `DtlsEndToEnd.PacketsAreSent` | ios/Pods/BoringSSL-GRPC/ssl/d1_both.cc:782-827 | every fragment in a packet a transmission put on the wire, however it ended, is one the receiver may meet |
| `DtlsEndToEnd.FlightArrives` | ios/Pods/BoringSSL-GRPC/ssl/d1_both.cc:297-845 | end to end: records of any transmissions at any MTUs arrive in any order, lost or repeated, between key switches; once the fragments heard cover the flight, whichever transmissions they are from, every message is delivered once, in order, byte for byte |
| `DtlsEndToEnd.TransmissionArrives` | ios/Pods/BoringSSL-GRPC/ssl/d1_both.cc:297-845 | which is so as soon as one complete transmission has been heard |
| `DtlsReplay.ToU64Be` | ios/Pods/BoringSSL-GRPC/ssl/dtls_record.cc:128-138 | the shifts and ors give the big-endian value of the eight bytes |
| `DtlsReplay.Bitmap.ShouldDiscard` | ios/Pods/BoringSSL-GRPC/ssl/dtls_record.cc:140-153 | true exactly when the number is at most the maximum and is 64 or more behind it or was recorded |
| `DtlsReplay.Bitmap.Record` | ios/Pods/BoringSSL-GRPC/ssl/dtls_record.cc:155-175 | the 64-bit window afterwards is the window of the numbers recorded and this one |
| `DtlsReplay.RecordReader.OpenRecord` | ios/Pods/BoringSSL-GRPC/ssl/dtls_record.cc:177-272 | the outcome is that of the set of numbers seen (GenuineIsReceived, OthersAreDropped); no epoch and number is accepted twice, and a record that fails the AEAD leaves the window alone |
| `DtlsReplay.RecordRoundTrip` | ios/Pods/BoringSSL-GRPC/ssl/dtls_record.cc:193-203 | a record laid out as dtls_seal_record does, in front of anything, is parsed back: type, version, epoch, number and body |
| `DtlsReplay.RecordLayout` | ios/Pods/BoringSSL-GRPC/ssl/dtls_record.cc:193-203 | a packet starts with a record exactly if it holds the header and the bytes that announces, which are not too many; the fields stand at bytes 0, 1, 3, 5, 11 and 13 |
| `DtlsReplay.RecordReader.GenuineIsReceived` | ios/Pods/BoringSSL-GRPC/ssl/dtls_record.cc:177-272 | a record of the current epoch and version that the AEAD opens is received whenever its number was not accepted before and is not 64 or more behind the newest |
| `DtlsReplay.RecordReader.OthersAreDropped` | ios/Pods/BoringSSL-GRPC/ssl/dtls_record.cc:205-255 | one of another version takes the rest of its packet with it; of another epoch, seen before, too old or not genuine it is passed over alone; too long it ends the connection |
| `DtlsReplay.RecordReader.SetReadState` | ios/Pods/BoringSSL-GRPC/ssl/dtls_method.cc:81-95 | refused while handshake data is unread; otherwise a new epoch with an empty window |
| `TlsState.Handshake.AddMessage` | ios/Pods/BoringSSL-GRPC/ssl/handshake.cc:176-192 | a message joins the flight, under the keys in use, and the transcript, keeping to the chart if it is the line due |
| `TlsState.Handshake.TakeMessage` | ios/Pods/BoringSSL-GRPC/ssl/handshake.cc:215-222 | the message is hashed and released, and the one behind it in the same record is next |
| `TlsState.Handshake.SwitchReadKeys` | ios/Pods/BoringSSL-GRPC/ssl/tls_method.cc:84-95 | switches exactly if no handshake message is left over |
| `TlsState.Handshake.SendFinished` | ios/Pods/BoringSSL-GRPC/ssl/handshake.cc:431-476 | the Finished is computed over the transcript so far and joins it |
| `TlsState.Handshake.GetFinished` | ios/Pods/BoringSSL-GRPC/ssl/handshake.cc:380-429 | accepts exactly the Finished the peer must have computed over the same transcript |
| `TlsClient.DoStartConnect` | ios/Pods/BoringSSL-GRPC/ssl/handshake_client.cc:385-452 | one lawful step for any peer, on the chart for an honest one |
| `TlsClient.DoEnterEarlyData` | ios/Pods/BoringSSL-GRPC/ssl/handshake_client.cc:454-489 | one lawful step for any peer, on the chart for an honest one |
| `TlsClient.DoReadServerHello` | ios/Pods/BoringSSL-GRPC/ssl/handshake_client.cc:535-759 | one lawful step for any peer, on the chart for an honest one: from any peer, passes exactly on an acceptable ServerHello, takes over its choices and goes to the ticket on resumption, else to the certificate |
| `TlsClient.DoReadServerCertificate` | ios/Pods/BoringSSL-GRPC/ssl/handshake_client.cc:771-819 | one lawful step for any peer, on the chart for an honest one: a non-empty certificate, or none at all for a cipher without |
| `TlsClient.DoReadCertificateStatus` | ios/Pods/BoringSSL-GRPC/ssl/handshake_client.cc:821-869 | one lawful step for any peer, on the chart for an honest one: an announced status is read if it comes next; any other message is left for later states, because the server may change its mind |
| `TlsClient.DoVerifyServerCertificate` | ios/Pods/BoringSSL-GRPC/ssl/handshake_client.cc:871-889 | one lawful step for any peer, on the chart for an honest one: no way past it in a full handshake with an unverified certificate |
| `TlsClient.DoReadServerKeyExchange` | ios/Pods/BoringSSL-GRPC/ssl/handshake_client.cc:891-1071 | one lawful step for any peer, on the chart for an honest one: may be left out only by ciphers that do not need it |
| `TlsClient.DoReadCertificateRequest` | ios/Pods/BoringSSL-GRPC/ssl/handshake_client.cc:1073-1143 | one lawful step for any peer, on the chart for an honest one |
| `TlsClient.DoReadServerHelloDone` | ios/Pods/BoringSSL-GRPC/ssl/handshake_client.cc:1145-1167 | one lawful step for any peer, on the chart for an honest one |
| `TlsClient.DoSendClientCertificate` | ios/Pods/BoringSSL-GRPC/ssl/handshake_client.cc:1169-1213 | one lawful step for any peer, on the chart for an honest one |
| `TlsClient.DoSendClientKeyExchange` | ios/Pods/BoringSSL-GRPC/ssl/handshake_client.cc:1220-1371 | one lawful step for any peer, on the chart for an honest one |
| `TlsClient.DoSendClientCertificateVerify` | ios/Pods/BoringSSL-GRPC/ssl/handshake_client.cc:1373-1455 | one lawful step for any peer, on the chart for an honest one |
| `TlsClient.DoSendClientFinished` | ios/Pods/BoringSSL-GRPC/ssl/handshake_client.cc:1457-1516 | one lawful step for any peer, on the chart for an honest one: for any peer the flight grows by the ChangeCipherSpec, then what was negotiated, then the Finished over all before it, everything after the ChangeCipherSpec sealed |
| `TlsClient.DoFinishFlight` | ios/Pods/BoringSSL-GRPC/ssl/handshake_client.cc:1538-1564 | one lawful step for any peer, on the chart for an honest one: in a full handshake an early return exactly with False Start set and an ephemeral key, and none on resumption |
| `TlsClient.DoReadSessionTicket` | ios/Pods/BoringSSL-GRPC/ssl/handshake_client.cc:1566-1647 | one lawful step for any peer, on the chart for an honest one: from any peer, a ticket that was announced is read before the ChangeCipherSpec, and an empty one is taken as none |
| `TlsClient.DoProcessChangeCipherSpec` | ios/Pods/BoringSSL-GRPC/ssl/handshake_client.cc:1649-1656 | one lawful step for any peer, on the chart for an honest one: for any server, the keys are switched exactly if no message is left over from a record before |
| `TlsClient.DoReadServerFinished` | ios/Pods/BoringSSL-GRPC/ssl/handshake_client.cc:1658-1672 | one lawful step for any peer, on the chart for an honest one: passes exactly on the value over the transcript so far, on resumption back to the own Finished, else to the end, at a lower rank either way |
| `TlsClient.DoFinishClientHandshake` | ios/Pods/BoringSSL-GRPC/ssl/handshake_client.cc:1674-1705 | one lawful step for any peer, on the chart for an honest one |
| `TlsServer.DoStartAccept` | ios/Pods/BoringSSL-GRPC/ssl/handshake_server.cc:426-430 | one lawful step for any peer, on the chart for an honest one |
| `TlsServer.DoReadClientHello` | ios/Pods/BoringSSL-GRPC/ssl/handshake_server.cc:432-510 | one lawful step for any peer, on the chart for an honest one |
| `TlsServer.DoSelectCertificate` | ios/Pods/BoringSSL-GRPC/ssl/handshake_server.cc:512-560 | one lawful step for any peer, on the chart for an honest one |
| `TlsServer.DoSelectParameters` | ios/Pods/BoringSSL-GRPC/ssl/handshake_server.cc:572-684 | one lawful step for any peer, on the chart for an honest one: for any client, decides on resumption, ticket and certificate request by the settings, and releases the ClientHello |
| `TlsServer.DoSendServerHello` | ios/Pods/BoringSSL-GRPC/ssl/handshake_server.cc:686-752 | one lawful step for any peer, on the chart for an honest one |
| `TlsServer.DoSendServerCertificate` | ios/Pods/BoringSSL-GRPC/ssl/handshake_server.cc:754-838 | one lawful step for any peer, on the chart for an honest one |
| `TlsServer.DoSendServerKeyExchange` | ios/Pods/BoringSSL-GRPC/ssl/handshake_server.cc:842-912 | one lawful step for any peer, on the chart for an honest one |
| `TlsServer.DoSendServerHelloDone` | ios/Pods/BoringSSL-GRPC/ssl/handshake_server.cc:914-947 | one lawful step for any peer, on the chart for an honest one |
| `TlsServer.DoReadClientCertificate` | ios/Pods/BoringSSL-GRPC/ssl/handshake_server.cc:949-1040 | one lawful step for any peer, on the chart for an honest one: an empty certificate only if the server can do without |
| `TlsServer.DoVerifyClientCertificate` | ios/Pods/BoringSSL-GRPC/ssl/handshake_server.cc:1042-1056 | one lawful step for any peer, on the chart for an honest one |
| `TlsServer.DoReadClientKeyExchange` | ios/Pods/BoringSSL-GRPC/ssl/handshake_server.cc:1058-1267 | one lawful step for any peer, on the chart for an honest one |
| `TlsServer.DoReadClientCertificateVerify` | ios/Pods/BoringSSL-GRPC/ssl/handshake_server.cc:1269-1363 | one lawful step for any peer, on the chart for an honest one: whoever sent a certificate must prove its key |
| `TlsServer.DoReadChangeCipherSpec` | ios/Pods/BoringSSL-GRPC/ssl/handshake_server.cc:1365-1368 | one lawful step for any peer, on the chart for an honest one |
| `TlsServer.DoProcessChangeCipherSpec` | ios/Pods/BoringSSL-GRPC/ssl/handshake_server.cc:1370-1377 | one lawful step for any peer, on the chart for an honest one: for any client, the keys are switched exactly if no message is left over from a record before |
| `TlsServer.DoReadNextProto` | ios/Pods/BoringSSL-GRPC/ssl/handshake_server.cc:1379-1413 | one lawful step for any peer, on the chart for an honest one |
| `TlsServer.DoReadChannelId` | ios/Pods/BoringSSL-GRPC/ssl/handshake_server.cc:1415-1437 | one lawful step for any peer, on the chart for an honest one |
| `TlsServer.DoReadClientFinished` | ios/Pods/BoringSSL-GRPC/ssl/handshake_server.cc:1439-1461 | one lawful step for any peer, on the chart for an honest one |
| `TlsServer.DoSendServerFinished` | ios/Pods/BoringSSL-GRPC/ssl/handshake_server.cc:1463-1509 | one lawful step for any peer, on the chart for an honest one: for any client the flight grows by the ticket if one is due, the ChangeCipherSpec and the Finished, in this order, only the last one sealed |
| `TlsServer.DoFinishServerHandshake` | ios/Pods/BoringSSL-GRPC/ssl/handshake_server.cc:1511-1537 | one lawful step for any peer, on the chart for an honest one |
| `TlsRun.ClientStep` | ios/Pods/BoringSSL-GRPC/ssl/handshake_client.cc:1707-1842 | every transition of the client keeps the safety invariant, loses no record, lowers the rank or waits unchanged, and stays on the chart |
| `TlsRun.ServerStep` | ios/Pods/BoringSSL-GRPC/ssl/handshake_server.cc:1539-1674 | the same for the server |
| `TlsRun.DoHandshake` | ios/Pods/BoringSSL-GRPC/ssl/handshake_client.cc:1707-1842 | the state loop ends, because every transition lowers the rank although resumption jumps back in the enumeration |
| `TlsRun.Resolve` | ios/Pods/BoringSSL-GRPC/ssl/handshake.cc:491-570 | what is waited for happens or the call ends: a flush moves as many records as the transport takes and blocks when it takes no more, a record is opened or refused, a ChangeCipherSpec also while a message of a record before is left over |
| `TlsRun.Run` | ios/Pods/BoringSSL-GRPC/ssl/handshake.cc:491-628 | against any peer and with any transport ssl_run_handshake ends, and reports success only with both key switches made, both Finished messages exchanged over all that preceded them, the transcript in order and the certificates checked; it returns early only to a client with False Start in a full handshake with an ephemeral key, whose Finished is flushed and the peer's not yet read, and such a handshake gets past that place in no other way; against an honest peer it never fails; a call that gets no further flushes what there is room for |
| `TlsRun.SuccessIsWhole` | ios/Pods/BoringSSL-GRPC/ssl/handshake.cc:491-628 | after success, whatever the peer sent, the transcript is the chart's: every message is of the kind of its line, the lines ascend, the peer's contents were accepted, and no line that is mandatory or was negotiated is missing |
| `TlsRun.OpenKeeps` | ios/Pods/BoringSSL-GRPC/ssl/handshake.cc:507-545 | a side on the chart that waits for a message finds one under the keys in use in the next record, and opening it keeps to the chart |
| `TlsRun.CcsKeeps` | ios/Pods/BoringSSL-GRPC/ssl/handshake.cc:507-545 | a side that waits for a ChangeCipherSpec finds one in the next record |
| `TlsCompose.NoDeadlock` | ios/Pods/BoringSSL-GRPC/ssl/handshake.cc:491-628 | when both sides wait and everything sent has been read, both are done |
| `TlsCompose.OneTranscript` | ios/Pods/BoringSSL-GRPC/ssl/handshake.cc:215-222 | at any time one side's transcript is a prefix of the other's |
| `TlsCompose.FinishedChecks` | ios/Pods/BoringSSL-GRPC/ssl/handshake.cc:380-429 | when a side checks a Finished its transcript is the one the peer computed it over |
| `TlsCompose.Session.Call` | ios/Pods/BoringSSL-GRPC/ssl/handshake.cc:491-628 | a call in the joined system: it never fails, only the client returns early, once, with its own Finished flushed and the peer's still to come, and what Run says of rank and room |
| `TlsCompose.Session.Follow` | ios/Pods/BoringSSL-GRPC/ssl/handshake.cc:491-628 | whatever arrives when, whoever is called when and however little the transports take, no call reports an error, and one returns early just if the client passes the place for that |
| `TlsCompose.Session.Round` | ios/Pods/BoringSSL-GRPC/ssl/handshake.cc:491-628 | unless both sides are done, a round of deliveries and calls with room for one write each lowers the sum of the ranks, or leaves it and lowers the number of writes due |
| `TlsCompose.Session.Complete` | ios/Pods/BoringSSL-GRPC/ssl/handshake.cc:491-628 | with any positive room in each call both sides reach done with one transcript, the chart's, having sent just the chart's records; the client returned early once if False Start applies, and else never |
| `TlsWrite.SSLBuffer.EnsureCap` | ios/Pods/BoringSSL-GRPC/ssl/ssl_buffer.cc:47-81 | keeps the contents, succeeds exactly up to 0xffff, gives at least the capacity asked for, and puts the byte after the header on an 8-byte boundary |
| `TlsWrite.SSLBuffer.Consume` | ios/Pods/BoringSSL-GRPC/ssl/ssl_buffer.cc:90-97 | drops just the bytes in front, unless the 16-bit offset wraps around |
| `TlsWrite.SSLBuffer.DiscardConsumed` | ios/Pods/BoringSSL-GRPC/ssl/ssl_buffer.cc:99-103 | frees the memory exactly when nothing is left |
| `TlsWrite.Writer.FlushWriteBuffer` | ios/Pods/BoringSSL-GRPC/ssl/ssl_buffer.cc:239-252 | what was sent followed by what is left never changes; it succeeds exactly if the transport does not stall in it, and then nothing is left |
| `TlsWrite.Writer.WritePending` | ios/Pods/BoringSSL-GRPC/ssl/s3_pkt.cc:202-218 | a bad retry writes nothing; a proper one writes the record sealed earlier on and returns its own length, exactly if the transport does not stall again |
| `TlsWrite.Writer.DoWrite` | ios/Pods/BoringSSL-GRPC/ssl/s3_pkt.cc:221-289 | seals a record exactly if none is pending, the write is allowed and the AEAD takes it, behind the rest of the pending flight; succeeds exactly if besides the transport does not stall, on a retry too |
| `TlsWrite.Writer.WriteFrom` | ios/Pods/BoringSSL-GRPC/ssl/s3_pkt.cc:162-199 | the loop seals the data from where it stood, each byte once, and comes to its end, or to that of one record with partial writes, unless it stops at a record the transport stalled on, left pending, or the AEAD refused; wnum says which |
| `TlsWrite.Writer.WriteAppData` | ios/Pods/BoringSSL-GRPC/ssl/s3_pkt.cc:129-200 | for a caller that retries with at least the data not acknowledged, the plaintexts sealed are what it was told plus a prefix of that data; a write that can go on, after a stall too, returns the length, or one record's with partial writes, unless the transport stalls again or the AEAD refuses; a failing call changes what counts as acknowledged if and only if it is shorter than the position it stood at |
| `TlsWrite.OneByteOut` | ios/Pods/BoringSSL-GRPC/ssl/s3_pkt.cc:129-200 | an example, reached by calls: with an AEAD that refuses its second record and one byte a record, a write of two bytes fails with one byte out and wnum at 1 |
| `TlsWrite.ForgottenByte` | ios/Pods/BoringSSL-GRPC/ssl/s3_pkt.cc:145-160 | then a retry with no data is refused and the byte counts as acknowledged |
| `TlsWrite.Writer.Transfer` | ios/Pods/BoringSSL-GRPC/ssl/s3_pkt.cc:129-289 | over any run of writes, flushes and queued messages, with any short writes and stalls, the application data sealed is what was acknowledged followed by a prefix of the rest; with an AEAD that refuses nothing each write gets on unless the transport stalls in it, so with a transport that stalls finitely often a caller that keeps trying gets everything through |
| `TlsWrite.Writer.WriteRest` | ios/Pods/BoringSSL-GRPC/ssl/s3_pkt.cc:129-200 | a caller's retry after a stall goes on where the write stopped, or stalls again |
| `TlsWrite.Transport.FewStalls` | ios/Pods/BoringSSL-GRPC/ssl/s3_pkt.cc:202-218 | a transport that refuses nothing from its m-th answers on has stalled at most 2m times |
| `TlsWrite.ProgressReaches` | ios/Pods/BoringSSL-GRPC/ssl/s3_pkt.cc:129-200 | without a stall, the progress Transfer makes is at least a byte a write, and all at once for a caller that offers all |
| `TlsWrite.Writer.AddRecordToFlight` | ios/Pods/BoringSSL-GRPC/ssl/s3_both.cc:135-165 | one record more at the end of the flight, exactly if the AEAD seals it |
| `TlsWrite.Writer.AddMessage` | ios/Pods/BoringSSL-GRPC/ssl/s3_both.cc:184-205 | the records of a message carry its bytes in order, all but the last as large as a fragment may be; a failure, which takes an AEAD that refuses, leaves a prefix |
| `TlsWrite.Writer.FlushFlight` | ios/Pods/BoringSSL-GRPC/ssl/s3_both.cc:231-279 | the write buffer goes before the flight; success means that every byte sealed was sent, and comes exactly if the connection is open and the transport does not stall in it, or there was no flight |
| `TlsCipherChoice.Find` | ios/Pods/BoringSSL-GRPC/ssl/handshake_server.cc:400-401 | the first position of the cipher, or none exactly when it is not in the list |
| `TlsCipherChoice.Scan` | ios/Pods/BoringSSL-GRPC/ssl/handshake_server.cc:390-423 | one pass finds the usable cipher of the first group that has one which the other side likes best, and none exactly when no group that ends has one |
| `TlsCipherChoice.EndlessGroup` | ios/Pods/BoringSSL-GRPC/ssl/handshake_server.cc:390-423 | an example: one usable cipher marked as if its group went on is not found |
| `TlsCipherChoice.BestIsOne` | ios/Pods/BoringSSL-GRPC/ssl/internal.h:1860-1890 | that cipher is determined |
| `TlsCipherChoice.ChooseCipher` | ios/Pods/BoringSSL-GRPC/ssl/handshake_server.cc:357-424 | under server preference the client's favourite in the first group with a usable shared cipher; else the client's first; null if and only if no usable cipher is shared, given that the last group ends |

## Left out

nanopb:

- Callback fields, extensions and dynamically allocated fields; of `PB_ENABLE_MALLOC` only the check of a union's selector, which is all that shows for static fields; the builds with `PB_WITHOUT_64BIT` or `PB_BUFFER_ONLY`.
- Fixed-count arrays, because `pb_check_proto3_default_value` reads their first data byte as a count.
- The error texts of the decoder: an error is one of a few kinds. The contents of the struct after a failed decode are not specified.
- PbEncoder.EncodeMessage: requires the struct's sizes to stay below 2^64 (`StructFits`), where `size_t` would overflow.
- PbDecoder.DecodeMessage: a union that changes its member gets the new member's value from memory that is zero where the C code leaves the old member's bytes.
- Delimited and null-terminated messages, which only wrap the others.

DTLS:

- What the AEAD makes of a record is its length only; its overhead is bounded. HelloVerifyRequest, alerts (which the record layer takes out of the stream), timers and the callbacks are not modelled.
- DtlsSend.Writer.SealRecord: uniqueness of record numbers holds until the first wrap-around of a sequence or an epoch, as the ghost flag `wrapped` says.
- DtlsTransport.FaithfulDelivery: states runs in which the message number does not reach 2^16; the ring itself survives the wrap-around.
- Memory that malloc does not initialise is zero in `HmFragment`; no byte of it is delivered.

TLS:

- TLS 1.3, early data, SSL 3.0, V2ClientHello, renegotiation, handoff, and callbacks that suspend a handshake.
- Cryptography, certificate verification, extension parsing and the contents of messages: the functions of `Config` stand for them. What the server decides travels in the ServerHello.
- Of `can_false_start` the model has the key exchange and whether the handshake is a full one; the version, the AEAD and the protocol chosen by ALPN or NPN are part of the setting `falseStart`.
- In the handshake model a side sends each message in a record of its own; a record that arrives may hold several, but no part of one. `TlsWrite` shows how messages are cut.
- TlsRun.Run: a stalled flush stops between records; a record of which a part is written counts as unwritten, because the peer cannot open it. Bytes are the subject of `TlsWrite`.
- TlsState.Handshake.GetFinished: hashes the message after the check instead of before, which only differs in a handshake that has failed.
- TlsServer.DoSelectCertificate: the branch that waits for a message cannot be taken, because the ClientHello is still there; the model says so.
- TlsWrite.Writer.DoWrite: requires that no record up to the size written needs, behind the pending flight, a capacity of 0xfff9 to 0xffff (`Roomy`): there alignment can overflow the 16-bit offset. `TlsWrite.Writer.Transfer` skips a write that could.
- Deferred alerts and early data in the writer, the read buffer, a missing BIO, allocation failures, and sizes near 2^64.
