# Verification of the nanopb codec, the DOM, XML and Promise layers, and MD5

This project models the parts of the repository that carry the most state and arithmetic, and proves
what they promise. One module is one file. Code that updates state in place is modelled by classes and
loops; each such method is proved against a function of the old state, and the promises are proved about
those functions, over all inputs and all runs.

**nanopb, static allocation** (`Pods/nanopb`). `Wire` and `WireFacts` hold the wire format, `Descriptor`
the field tables and the messages they describe, `Encoding` and `Decoding` what the two C files write and
read as functions of table, struct and bytes, with the same branches, widths and error conditions.
`InputStream`, `OutputStream`, `FieldIterator`, `Decoder` and `Encoder` are the C code: streams with a
cursor and `bytes_left` or `bytes_written`, the cyclic iterator, the bitmap of required fields, nested
substreams. `Merging` defines "Last One Wins" of the Protocol Buffers encoding guide on structs, without
bytes. On top of these stand the message round trip (`DecodeOfEncode`, `RoundTrip`), lists of delimited
messages (`Delimited`), concatenation, unknown records and required fields (`Concatenation`, `SeenWords`,
`RequiredLimit`), packed and unpacked arrays (`PackedRuns`), numbers (`Scalars`), and struct offsets
(`StructLayout`). `Fitting` shows that whatever the bytes are, what is decoded fits its struct;
`AbsentFields` what the fields hold that are not on the wire, `Acceptance` which bytes are accepted.
`WireRecords` and `UnknownFields` read the output of the encoder without a table and with a smaller one,
and `WireFormat` compares it with the encoding guide. The build is the 64-bit one; the width of
`pb_size_t` is left open.

**nanopb, malloc build.** `Ownership` describes a struct as the tree of the blocks it owns, and `realloc`
and `free`. `OwnedRelease` and `OwnedRuns` have `pb_release` and the decoder with pointer fields as
functions of what they meet: the records with their nested payloads, whether they can be read, and the
answers of the allocator. `OwnedDecoding` is the code at work on the heap, each method proved to do what
its function says. `OwnedSafety` shows that what lives and what is owned change together at every step,
`OwnedLeaks` which tables can lose a block, and `OwnedOutcomes` when decoding succeeds and what it counts.

**Promises** (`web-adapter.js`, module 38). `Promises` is the transition system: promises, `then`
registrations, resolvers, the queue of immediates, adoption. `PromiseInvariant` shows that every step
keeps its invariant, `PromiseRuns` has the theorems over runs, `PromiseHandlers` which handler is called
and what becomes of its promise, `PromiseOrder` in which order. `PromiseRuntime` is the code on the
objects it updates, each function proved to make one step.

**XML** (modules 40, 41 and 43). `Xml` prints trees, `XmlReader` is the reader with its scanner of eight
states, default namespaces and the special content of scripts and textareas, `XmlParser` the loops on a
handler that is updated in place. `XmlTags` and `XmlSpelling` read documents in every spelling,
`XmlGrammar` has the grammar of start tags that the scanner computes, `XmlContent` references and the
content of scripts and textareas, `XmlAttributes` what becomes of repeated names, `XmlPrinted` what the
printer writes. `XmlRoundTrip` shows which trees come back, `XmlGrowth` that what has once been misread is
never repaired, `XmlExactness` that no other trees come back. `XmlNormalize` is the joining of texts.

**DOM** (module 41). `Dom` describes the sibling links and `childNodes` and what the operations do to
them, `DomRuns` any sequence of operations, `DomLists` what every list is after each, `DomDocument` the
assignments on linked nodes, `DomNormalize` the walk of `normalize` over them, `DomReinsertion` what
happens to a node that comes back.

**MD5** (`String+MD5.swift`). `Rfc1321` is the definition in RFC 1321, sections 3.1 to 3.5; `Md5` the
rotating loop, `Md5Digest` padding, chunks and the digest, `Rfc1321Suite` a digest from appendix A.5.

## Where the code falls short of the promise

Each of these is kept in the model as the code has it, with the exact condition or a concrete input.

- The round trip fails for messages with an embedded message or packed array of 2^32 bytes or more: the
  encoder writes 64-bit lengths, the decoder reads 32-bit ones (`RoundTrip.MessageRoundTrip` has the exact
  condition, `Delimited.LongArrayIsLost` a message, `Delimited.ShortMessagesFit` a condition on the size
  alone).
- Required fields after the first 64 are not looked for (`Concatenation.RequiredFieldsExactly`,
  `RequiredLimit.LastRequiredIsNotMissed` with a table of 65).
- Two encodings that both decode do not decode one behind the other when the last fixed-count array of the
  first is the first one of the second (`Concatenation.ConcatenationIsMerge`).
- In the malloc build, a static array of submessages with `PB_SIZE_MAX` entries and a pointer below them
  loses blocks: one record too many makes its count, a `pb_size_t`, wrap around to zero, and the release
  looks at no entry (`OwnedLeaks.LeaksExactly` has the exact condition on the table,
  `OwnedLeaks.FullArrayLeaks` a run of the smallest one).
- Field tables for two unions exactly `PB_SIZE_MAX` bytes apart, with an extension field behind padding,
  or with distances that `pb_size_t` and `pb_ssize_t` cannot hold, lead the iterator to wrong places
  (`StructLayout.IteratorFindsMembers`, `StructLayout.UnionsMistaken`).
- The 32-bit varint decoder accepts more than sign-extended numbers: any value whose upper groups are all
  ones or all zeros and whose bits 31 and 63 are set (`WireFacts.Varint32OfEncoding`).
- A tree with empty or adjacent texts does not survive printing and parsing, and neither does a `script`
  with markup or a `textarea` with elements in the namespace of XHTML (`XmlExactness.RoundTripExactly` has
  the exact condition, `XmlRoundTrip.ReadsBack` what comes back instead of empty and adjacent texts,
  `XmlExactness.ScriptIsLost` a script).
- `</a >` does not end the element `a` (`XmlSpelling.BlankEndsNothing`), and the slash of `<a checked />`
  is lost (`XmlTags.TagIsRead` has the exact condition).
- An element that is not ended goes on if anything that begins like its end tag follows
  (`XmlSpelling.GoesOnExactly`), or if its name is `constructor` or another inherited property
  (`XmlContent.InheritedGoesOn`).
- White space behind the root is dropped, other text there is kept with its references as they are, and
  text before the root is dropped unless it is white space (`XmlSpelling.DocumentIsRead`).
- A field other than a packable array is decoded from a record of any wire type
  (`Acceptance.WireTypeIsIgnored`).
- The `childNodes` of a fragment that has been spliced in is out of date
  (`DomRuns.FragmentIndexIsStale`).
- Inserting a node again that was removed earlier links its former neighbours to each other once more
  (`DomReinsertion.TakenOutExactly` has the exact condition, `DomReinsertion.ReinsertionLoses` a run in
  which another child is lost).

## Model

| member | source | states |
|---|---|---|
| RoundTrip.MessageRoundTrip | Pods/nanopb/pb_encode.c:528-550 | decoding what was encoded succeeds if and only if every length written in front of an embedded message or packed array fits 32 bits; then the stream is used up and the message is the same up to what has_, which_ and count hide |
| RoundTrip.MessageIntoDefault | Pods/nanopb/pb_decode.c:1084-1096 | merging a message into the default struct gives the message back, and is possible exactly when its lengths fit |
| RoundTrip.OmittedIsDefault | Pods/nanopb/pb_encode.c:240-337 | a proto3 field that the zero check leaves out of the encoding holds what the decoder starts from |
| RoundTrip.AllDefaultIsSame | Pods/nanopb/pb_encode.c:240-337 | the same for an embedded message all of whose fields are left out, at every depth |
| DecodeOfEncode.MessageDecodes | Pods/nanopb/pb_decode.c:934-1082 | the decoder over the output of the encoder, from any struct, computes the field-by-field merge defined without bytes (last scalar wins, arrays append, embedded messages merge, oneof members replace each other), uses every byte, and fails exactly when that merge has no room |
| DecodeOfEncode.FieldDecodes | Pods/nanopb/pb_decode.c:406-483 | the records of one field, in front of any further input, put the merged value in its slot, count a required field as seen and leave no fixed-count array unfinished |
| DecodeOfEncode.EntriesDecode | Pods/nanopb/pb_decode.c:454-464 | the records of an unpacked array append all entries in order or fail when they exceed the array |
| DecodeOfEncode.PackedArrayDecodes | Pods/nanopb/pb_decode.c:424-453 | a packed array record appends all its entries in order or fails when they exceed the array |
| DecodeOfEncode.LongArrayFails | Pods/nanopb/pb_decode.c:372-385 | a packed array of 2^32 bytes or more is never read back |
| DecodeOfEncode.ValueDecodes | Pods/nanopb/pb_decode.c:1525-1547 | one value is read back onto what the struct holds, an embedded message by merging |
| DecodeOfEncode.FieldsEncode | Pods/nanopb/pb_encode.c:528-550 | every message that fits its struct has an encoding |
| WireRecords.EncodingIsRecords | Pods/nanopb/pb_encode.c:528-550 | read without any table, the output of pb_encode falls into exactly the records that the message should have: one for each value that is set, in the order of the table, and one for all numbers of an array |
| WireRecords.SetExactly | Pods/nanopb/pb_encode.c:240-337 | the zero check of proto3 says exactly of the fields that have nothing to send that they are default |
| WireRecords.AllDefaultExactly | Pods/nanopb/pb_encode.c:240-337 | an embedded proto3 message is left out exactly when it would have no records |
| WireRecords.FieldSplits | Pods/nanopb/pb_encode.c:341-426 | the bytes of one field are its records, in front of anything |
| WireFormat.EncodesExactly | Pods/nanopb/pb_encode.c:528-550 | with room enough pb_encode fails exactly when a counted array or bytes that are to be sent are longer than their struct allows, at some depth |
| WireFormat.VarintIsDigits | Pods/nanopb/pb_encode.c:608-628 | the bytes of a varint are the digits of the number to the base 128, the lowest first, and only the last has no top bit |
| WireFormat.FixedByte | Pods/nanopb/pb_encode.c:641-666 | byte i of a fixed-width number is its digit i to the base 256, in two's complement |
| WireFormat.StringEnds | Pods/nanopb/pb_encode.c:873-897 | a string is sent up to its terminator, or up to the end of its buffer |
| WireFormat.GuideNumber | Pods/nanopb/pb_encode.c:528-550 | the first example of the Protocol Buffers encoding guide: 08 96 01 |
| WireFormat.GuideString | Pods/nanopb/pb_encode.c:873-897 | its string: 12 07 and "testing" |
| WireFormat.GuideSubmessage | Pods/nanopb/pb_encode.c:717-765 | its embedded message: 1a 03 08 96 01 |
| WireFormat.GuidePacked | Pods/nanopb/pb_encode.c:147-236 | its packed array of 3, 270 and 86942 |
| WireFormat.GuideZigZag | Pods/nanopb/pb_encode.c:630-639 | its table of zigzag numbers |
| WireFormat.GuideWireTypes | Pods/nanopb/pb_encode.c:675-707 | its table of wire types |
| Delimited.ListRoundTrip | Pods/nanopb/pb_decode.c:1113-1126 | a list of messages written one after another behind their lengths is read back as the same list, and fails exactly when some message, or something in it, has a length of 2^32 or more |
| Delimited.DelimitedMessageRoundTrip | Pods/nanopb/pb_encode.c:552-555 | reading one delimited message takes exactly its own bytes, whatever follows |
| Delimited.ShortMessagesFit | Pods/nanopb/pb_encode.c:567-576 | a message whose encoded size is below 2^32 meets the round trip condition: a caller can check it with the size alone |
| Delimited.LongArrayIsLost | Pods/nanopb/pb_encode.c:147-236 | counterexample: with 32-bit pb_size_t a valid message of 2^29 negative int64 entries is encoded and cannot be decoded |
| Fitting.DecodedFits | Pods/nanopb/pb_decode.c:1084-1096 | whatever the bytes are, a message that pb_decode accepts fits its struct: numbers their width, strings and bytes their buffers, counts their arrays, which_ a member, at every depth |
| Fitting.MessageFits | Pods/nanopb/pb_decode.c:934-1082 | the same for decoding onto any message that fits |
| Fitting.RecordsFit | Pods/nanopb/pb_decode.c:952-1030 | the record loop keeps the struct fitting, whatever the bytes are |
| Fitting.PackedFits | Pods/nanopb/pb_decode.c:424-453 | a packed array of any bytes never exceeds its capacity, and its numbers fit |
| Fitting.BlobExactly | Pods/nanopb/pb_decode.c:1447-1523 | a string or bytes payload of n bytes is accepted exactly when n with the terminator or the size member fits the buffer and the n bytes are there, even if a zero byte in it ends the string early; then exactly n bytes are used |
| Fitting.ScalarFits | Pods/nanopb/pb_decode.c:1345-1428 | a number that is accepted fits its field |
| AbsentFields.AbsentHoldsDefault | Pods/nanopb/pb_decode.c:845-928 | after pb_decode every field that is not on the wire, nor another member of its union, holds what the table declares for it, submessages at every depth |
| AbsentFields.DefaultsHold | Pods/nanopb/pb_decode.c:845-928 | setting a struct to its defaults gives each field the value that its table declares, and zero, nothing or empty where it declares none |
| AbsentFields.AbsentIsKept | Pods/nanopb/pb_decode.c:934-1038 | pb_decode_noinit leaves a field alone that is not on the wire |
| Acceptance.TruncationFails | Pods/nanopb/pb_decode.c:952-1030 | a message that is cut off inside a record is refused |
| Acceptance.FixedArraysAreComplete | Pods/nanopb/pb_decode.c:1033-1037 | a message is accepted only if each fixed-count array was received in full rounds |
| Acceptance.ZeroTagEnds | Pods/nanopb/pb_decode.c:310-314 | what follows a zero tag is not looked at |
| Acceptance.ZeroTagInside | Pods/nanopb/pb_decode.c:1525-1547 | nor inside an embedded message, and the parent goes on behind all of it |
| Acceptance.ZeroTagIsUnknown | Pods/nanopb/pb_decode.c:298-319 | tag zero with another wire type than zero does not end the message; it is skipped by its wire type, but under a table without fields it is read as a number |
| Acceptance.RunIsTaken | Pods/nanopb/pb_decode.c:424-453 | a packed run of any numbers is appended if there is room for all of them, and refused if not |
| Acceptance.OnlyNumbersAreTaken | Pods/nanopb/pb_decode.c:424-453 | nothing else is taken: a packed run that is accepted is a row of numbers, each read to its end |
| Acceptance.WireTypeIsIgnored | Pods/nanopb/pb_decode.c:406-483 | fields other than packable arrays do not look at the wire type |
| Acceptance.VarintExactly | Pods/nanopb/pb_decode.c:255-275 | up to ten bytes are read, canonical or not, and give the number of their digits modulo 2^64; more are refused |
| Acceptance.SkipExactly | Pods/nanopb/pb_decode.c:278-287 | a varint of any length is skipped up to its last byte |
| Acceptance.UnendedVarint | Pods/nanopb/pb_decode.c:187-287 | a number without its last byte is neither read nor skipped |
| Acceptance.BoolOfNumber | Pods/nanopb/pb_decode.c:1334-1343 | a bool is true for every number but zero that 32 bits hold; other numbers below 2^63 are refused |
| Concatenation.ConcatenationIsMerge | Pods/nanopb/pb_decode.c:934-1038 | decoding a ++ b is decoding a and then b into the result; with required fields the second part need not repeat them; a zero tag at the end of a hides b; it fails when b, which would decode alone, begins its fixed-count arrays with the one in which a has ended |
| Concatenation.RecordsConcatenate | Pods/nanopb/pb_decode.c:952-1030 | the record loop goes on with b in the state that a has left |
| Concatenation.RecordStable | Pods/nanopb/pb_decode.c:966-1030 | a record that has been decoded is decoded alike, with the same bytes used, when more input follows |
| Concatenation.AfterAnother | Pods/nanopb/pb_decode.c:997-1019 | a complete fixed-count array makes no difference to what comes after, unless that begins with the same array |
| Concatenation.AfterItself | Pods/nanopb/pb_decode.c:997-1019 | records that decode from an empty fixed-count array up to a full one fail from a full one |
| Concatenation.UnknownIsTransparent | Pods/nanopb/pb_decode.c:966-995 | a whole record with an unknown tag between two records changes neither outcome, message nor rest |
| UnknownFields.UnknownFieldsAreAbsent | Pods/nanopb/pb_decode.c:966-995 | a message written with a larger table decodes, with the smaller one, as if the fields that the reader lacks had not been written, if none of them has a length of 2^32 or more in front of it |
| UnknownFields.UnknownField | Pods/nanopb/pb_decode.c:966-995 | all records of a field that the table lacks leave the state of the decoder alone, whatever follows, exactly when no length in front of them is 2^32 or more |
| UnknownFields.WrittenIsUnknown | Pods/nanopb/pb_decode.c:966-995 | each record that pb_encode writes for a field that the table lacks is an unknown record |
| WireRecords.SkipsValue | Pods/nanopb/pb_decode.c:321-331 | pb_skip_field uses exactly the bytes that pb_encode writes for a value, for every type, whatever follows; it fails exactly if their length is 2^32 or more |
| WireRecords.GroupsAreRefused | Pods/nanopb/pb_decode.c:321-331 | groups, and wire types that do not exist, cannot be skipped |
| Concatenation.RequiredFieldsExactly | Pods/nanopb/pb_decode.c:1021-1079 | decoding succeeds if and only if the records are readable, no fixed-count array is cut short, and each of the first 64 required fields is on the wire at this level |
| RequiredLimit.LastRequiredIsNotMissed | Pods/nanopb/pb_decode.c:1021-1079 | counterexample: of a table with 65 required fields a message without the last one is accepted |
| Concatenation.SeenIsOnTheWire | Pods/nanopb/pb_decode.c:1021-1026 | a required field is recorded as seen exactly when its tag has been read |
| PackedRuns.SplitsAreEquivalent | Pods/nanopb/pb_decode.c:424-464 | any split of the same values into packed runs and single records gives the same array, and all splits fail alike when the total exceeds the array |
| PackedRuns.PutAllAppends | Pods/nanopb/pb_decode.c:454-464 | entries put in behind the count of a counted array are appended |
| SeenWords.CheckIsExact | Pods/nanopb/pb_decode.c:1039-1079 | the comparison of whole words and of the remaining bits of fields_seen passes exactly when all tracked required fields have been seen |
| SeenWords.MarkedShows | Pods/nanopb/pb_decode.c:1021-1026 | setting bit i & 31 of word i >> 5 records field i and no other |
| SeenWords.OnesAreLowBits | Pods/nanopb/pb_decode.c:1060-1078 | a word equals 2^r - 1 exactly when its set bits are the lowest r |
| WireFacts.VarintRoundTrip | Pods/nanopb/pb_decode.c:255-275 | every 64-bit value is written in 1 to 10 bytes and read back, taking exactly those bytes |
| WireFacts.VarintLength | Pods/nanopb/pb_encode.c:608-628 | k bytes are enough exactly for the values of at most 7k bits: the encoding is minimal |
| WireFacts.DecodersAgree | Pods/nanopb/pb_decode.c:187-247 | when the 32-bit and the 64-bit decoder accept the same bytes they use the same number of them, and the 32-bit result is the 64-bit one modulo 2^32 |
| WireFacts.Varint32OfEncoding | Pods/nanopb/pb_decode.c:187-247 | exactly which 64-bit values the 32-bit decoder accepts from the encoder (those below 2^32, and those whose upper groups look like a sign extension) and what it makes of them |
| WireFacts.Varint32Ranges | Pods/nanopb/pb_decode.c:187-247 | it rejects everything from 2^32 up to 2^63 and accepts everything from 2^64 - 2^31 on, with its low 32 bits |
| WireFacts.SkipFieldStable | Pods/nanopb/pb_decode.c:321-331 | skipping a record does not depend on what follows it |
| WireFacts.DecodeTagStable | Pods/nanopb/pb_decode.c:298-319 | neither does reading a tag |
| Scalars.ScalarRoundTrip | Pods/nanopb/pb_decode.c:1345-1428 | every number that fits its field comes back, for all field types and widths, with the rest untouched |
| Scalars.ZigZagBijective | Pods/nanopb/pb_decode.c:1285-1297 | zigzag and its inverse undo each other, and int64 corresponds to uint64 |
| Scalars.ZigZagLength | Pods/nanopb/pb_encode.c:630-639 | k bytes hold v exactly when -2^(7k-1) <= v < 2^(7k-1) |
| Scalars.NarrowingIsExact | Pods/nanopb/pb_decode.c:1382-1428 | unsigned and zigzag fields of 1, 2, 4 or 8 bytes accept a decodable varint exactly when its value fits the width |
| Scalars.SignedNarrowing | Pods/nanopb/pb_decode.c:1345-1380 | int32-like fields look at the low 32 bits only, and succeed exactly when those fit |
| Scalars.TagRoundTrip | Pods/nanopb/pb_encode.c:669-673 | tag and wire type come back |
| Scalars.DelimitedRoundTrip | Pods/nanopb/pb_decode.c:372-400 | a length-delimited payload comes back exactly when it is shorter than 2^32 bytes |
| Scalars.BlobRoundTrip | Pods/nanopb/pb_decode.c:1447-1523 | strings without a zero byte, byte arrays and fixed-length bytes come back |
| InputStream.IStream.ReadBytes | Pods/nanopb/pb_decode.c:102-137 | reads exactly count bytes or fails without moving; cursor and bytes_left stay in step |
| InputStream.IStream.ReadByte | Pods/nanopb/pb_decode.c:141-157 | the next byte, or failure exactly at the end |
| InputStream.IStream.ReadVarint32Eof | Pods/nanopb/pb_decode.c:187-247 | the loop over a 32-bit result with its 8-bit shift counter computes the specified decoder, and reports the end of input exactly when nothing was left |
| InputStream.IStream.ReadVarint | Pods/nanopb/pb_decode.c:255-275 | or-ing shifted groups into a 64-bit word computes the sum of the digits modulo 2^64 |
| InputStream.IStream.SkipOverVarint | Pods/nanopb/pb_decode.c:278-287 | consumes one varint of any length |
| InputStream.IStream.SkipOverString | Pods/nanopb/pb_decode.c:289-296 | consumes a length and that many bytes |
| InputStream.IStream.SkipOverField | Pods/nanopb/pb_decode.c:321-331 | consumes exactly the payload that belongs to the wire type, and refuses the others |
| InputStream.IStream.ReadTag | Pods/nanopb/pb_decode.c:298-319 | tag and wire type, the zero tag, the end of the input and an error are told apart |
| InputStream.IStream.MakeStringSubstream | Pods/nanopb/pb_decode.c:372-385 | the substream holds exactly the payload; what follows it is kept for the parent |
| InputStream.IStream.CloseStringSubstream | Pods/nanopb/pb_decode.c:387-400 | however much of the payload has been read, the parent goes on right behind it with bytes_left in step |
| Encoder.MeasureAndEncode | Pods/nanopb/pb_encode.c:567-576 | pb_get_encoded_size and then pb_encode: writing succeeds exactly when the message can be encoded and the counted size is free, and then exactly so many bytes of the encoding are written and nothing else |
| OutputStream.PassesAgree | Pods/nanopb/pb_encode.c:103-124 | a buffer takes an encoding exactly when the size counted by the null stream is free, and then exactly that many bytes are written |
| OutputStream.EmitsBoth | Pods/nanopb/pb_encode.c:103-124 | two writes in a row are one write of both, for counting and for buffer streams |
| OutputStream.OStream.Write | Pods/nanopb/pb_encode.c:103-124 | appends all bytes or none beyond its limit, and never touches the buffer outside its limits |
| OutputStream.OStream.CopyIn | Pods/nanopb/pb_encode.c:74-84 | exactly the bytes at the cursor are replaced |
| OutputStream.OStream.WriteVarint | Pods/nanopb/pb_encode.c:608-628 | sends the minimal varint |
| OutputStream.OStream.VarintBytes | Pods/nanopb/pb_encode.c:619-627 | the ten byte local buffer is never overrun and its top bit trick gives the specified bytes |
| OutputStream.OStream.WriteTag | Pods/nanopb/pb_encode.c:669-673 | sends the tag |
| OutputStream.OStream.WriteString | Pods/nanopb/pb_encode.c:709-715 | sends length and data |
| Encoder.Encode | Pods/nanopb/pb_encode.c:528-550 | on a buffer it succeeds exactly when the encoding fits and then has written that; on a counting stream it counts it |
| Encoder.EncodeSubmessage | Pods/nanopb/pb_encode.c:717-765 | the counting pass and the writing pass give one delimited message; the size check at the end never fires |
| Encoder.EncodePayload | Pods/nanopb/pb_encode.c:740-764 | writing through a substream limited to the counted size succeeds with just that size |
| Encoder.SubstreamEmits | Pods/nanopb/pb_encode.c:740-764 | what is written through a substream of the right size is written to the parent, and the substream is full |
| Encoder.GetEncodedSize | Pods/nanopb/pb_encode.c:567-576 | the number of bytes that encoding will write |
| Encoder.EncField | Pods/nanopb/pb_encode.c:341-426 | a field sends its record, or nothing when absent |
| Encoder.EncArray | Pods/nanopb/pb_encode.c:147-236 | an array is sent packed or entry by entry, and refused when its count exceeds its capacity |
| Encoder.EncPacked | Pods/nanopb/pb_encode.c:178-204 | the data of a packed array, written or counted |
| Encoder.PackedSize | Pods/nanopb/pb_encode.c:169-189 | the size computed for fixed-width entries is the size that counting gives |
| Encoder.EncEntries | Pods/nanopb/pb_encode.c:206-233 | one record an entry |
| Encoder.EncTagged | Pods/nanopb/pb_encode.c:675-707 | tag and value of a field |
| Encoder.EncValue | Pods/nanopb/pb_encode.c:55-68 | each field type is sent by its encoder |
| Encoder.EncScalar | Pods/nanopb/pb_encode.c:769-850 | numbers of every type and width |
| Encoder.EncFixed | Pods/nanopb/pb_encode.c:641-666 | little-endian bytes of a fixed-width number |
| Encoder.EncString | Pods/nanopb/pb_encode.c:873-897 | the search for the terminator stops at the first zero or at the end of the buffer |
| Decoder.DecodeNoinit | Pods/nanopb/pb_decode.c:934-1082 | the loop with iterator, bitmap and fixed-count state computes the specified decoder on the rest of the stream |
| Decoder.DecodeInto | Pods/nanopb/pb_decode.c:1084-1096 | decoding into a struct set to defaults |
| Decoder.DecodeDelimitedInto | Pods/nanopb/pb_decode.c:1113-1126 | decoding one delimited message |
| Decoder.DecodeRecordInto | Pods/nanopb/pb_decode.c:966-1029 | one turn of the loop: find the field or skip the record |
| Decoder.EnterField | Pods/nanopb/pb_decode.c:997-1026 | a fixed-count array is begun only when the one before is complete; a required field is marked |
| Decoder.CountRequired | Pods/nanopb/pb_decode.c:1041-1058 | from wherever the iterator is, the sweep to the end of the table counts the required fields |
| Decoder.CompareWords | Pods/nanopb/pb_decode.c:1060-1078 | the words are compared with as many ones as there are required fields |
| Decoder.CheckRequired | Pods/nanopb/pb_decode.c:1039-1079 | the check passes exactly when every tracked required field has been seen |
| Decoder.DecodeStaticField | Pods/nanopb/pb_decode.c:406-483 | required, optional, repeated and oneof fields store what their decoder gives; a oneof that changes its member starts from a fresh struct |
| Decoder.DecodeArray | Pods/nanopb/pb_decode.c:424-464 | a packed run or one more entry, never beyond the capacity |
| Decoder.DecodeRun | Pods/nanopb/pb_decode.c:436-452 | a packed run uses up its bytes or fails |
| Decoder.DecSubmessage | Pods/nanopb/pb_decode.c:1525-1547 | the embedded message is merged, or decoded afresh in an array, and the parent stream goes on behind it |
| Decoder.DecValue | Pods/nanopb/pb_decode.c:68-81 | each field type is read by its decoder |
| Decoder.DecVarint | Pods/nanopb/pb_decode.c:1345-1380 | signed fields: the clamped assignment detects exactly the numbers that do not fit |
| Decoder.DecUvarint | Pods/nanopb/pb_decode.c:1382-1404 | the same for unsigned fields |
| Decoder.DecSvarint | Pods/nanopb/pb_decode.c:1406-1428 | the same for zigzag fields |
| Decoder.DecFixed | Pods/nanopb/pb_decode.c:1299-1331 | little-endian bytes read as a number |
| Decoder.DecBool | Pods/nanopb/pb_decode.c:1334-1343 | any nonzero varint is true |
| Decoder.DecBytes | Pods/nanopb/pb_decode.c:1447-1485 | bytes that fit with their size member |
| Decoder.DecString | Pods/nanopb/pb_decode.c:1487-1523 | strings that fit with their terminator; the 32-bit addition cannot wrap unnoticed |
| Decoder.DecFixedLengthBytes | Pods/nanopb/pb_decode.c:1549-1570 | exactly the field size, or zeros for an empty value |
| Decoder.CastsAreExact | Pods/nanopb/pb_decode.c:1345-1428 | a C integer conversion loses nothing exactly when the number fits |
| FieldIterator.FieldIter.Find | Pods/nanopb/pb_common.c:87-104 | from any position a tag is found exactly when some non-extension field has it; a failed search ends where it began; pData, pSize and the required index depend on the field reached only |
| FieldIterator.FieldIter.Next | Pods/nanopb/pb_common.c:29-85 | the next field, or back to the first, with offsets and required index rebuilt |
| FieldIterator.FieldIter.Begin | Pods/nanopb/pb_common.c:8-27 | back to the first field |
| StructLayout.IteratorFindsMembers | Pods/nanopb/pb.h:399-451 | with tables filled in by the offset macros and cut to the widths of pb_size_t and pb_ssize_t, pData and pSize are the true member positions for all fields if and only if the distances fit and the table is unambiguous |
| StructLayout.StepPointsAt | Pods/nanopb/pb.h:401-409 | the same for one step, across padding, arrays, pointers and unions |
| StructLayout.UnionsMistaken | Pods/nanopb/pb.h:547-575 | counterexample: with 8-bit pb_size_t two unions 255 bytes apart are taken for one |
| OwnedLeaks.LeaksExactly | Pods/nanopb/pb_decode.c:454-464 | malloc build: whatever is decoded into a zeroed struct and whatever the allocator answers, the live blocks are the same after pb_decode has failed, or after pb_release, if and only if the table has no static array of PB_SIZE_MAX submessages with a pointer below it, at any depth that can be entered |
| OwnedLeaks.FullArrayLeaks | Pods/nanopb/pb_decode.c:454-464 | counterexample: with the smallest such table, decoding on an empty heap fails and leaves a block that the release does not free |
| OwnedLeaks.LeakingRun | Pods/nanopb/pb_decode.c:1196-1231 | every table that can leak has a run in which decoding fails and a new block is out of reach of the counts of the struct |
| OwnedLeaks.ReleaseSpares | Pods/nanopb/pb_decode.c:1170-1275 | pb_release never frees a block that the struct does not lead to, as far as its counts go |
| OwnedSafety.NothingIsLost | Pods/nanopb/pb_decode.c:1084-1096 | after decoding has succeeded and the struct has been released, or has failed for a table that cannot leak, the live blocks are what they were and all pointers are null |
| OwnedSafety.DecodeOwnsNew | Pods/nanopb/pb_decode.c:1084-1096 | for every table all that is owned lives; unless decoding fails with a table that can leak, each new block is owned by exactly one pointer and no other block has gone |
| OwnedSafety.DecodeKept | Pods/nanopb/pb_decode.c:1084-1096 | on failure everything that was allocated has been released, for every table that cannot leak |
| OwnedSafety.DecodeNoinitKept | Pods/nanopb/pb_decode.c:934-1082 | at every step what is owned lived or is new, and nothing is freed that is not owned; exactly so, nothing being lost either, if decoding succeeds or the table cannot leak |
| OwnedSafety.DecodeFieldKept | Pods/nanopb/pb_decode.c:740-766 | the same for one field, static or pointer, after the union has been released |
| OwnedSafety.UnionKept | Pods/nanopb/pb_decode.c:1137-1168 | a oneof that switches its member first frees what the old member owned |
| OwnedSafety.DecodeEntryKept | Pods/nanopb/pb_decode.c:454-464 | an entry is counted even when there is no room for it; that harms the release only where the count wraps around |
| OwnedSafety.DecodePointerFieldKept | Pods/nanopb/pb_decode.c:553-684 | the same for a pointer field |
| OwnedSafety.AllocateKept | Pods/nanopb/pb_decode.c:490-533 | sizes of zero and overflowing products are refused; on failure the old block is kept |
| OwnedSafety.DefaultsShape | Pods/nanopb/pb_decode.c:845-928 | setting a struct to its defaults keeps its shape and brings no pointers |
| OwnedSafety.CannotOwn | Pods/nanopb/pb_decode.c:553-684 | a struct of a table without pointers to anything of a size owns nothing |
| OwnedOutcomes.NothingFailsSilently | Pods/nanopb/pb_decode.c:1084-1096 | pb_decode succeeds only if everything could be read and all memory was granted, at every depth |
| OwnedOutcomes.SmoothSucceeds | Pods/nanopb/pb_decode.c:1084-1096 | from a zeroed struct it succeeds if every field comes at most once with room for it, everything can be read and all memory is granted |
| OwnedOutcomes.AllocatesExactly | Pods/nanopb/pb_decode.c:490-533 | a block is given exactly if its size is positive, fits 64 bits and the allocator grants it |
| OwnedOutcomes.TurnsSucceed | Pods/nanopb/pb_decode.c:618-658 | the loop over a packed array takes one entry a turn, and the room of its block grows with it |
| OwnedOutcomes.FixedRunAllocatesOnce | Pods/nanopb/pb_decode.c:618-640 | for numbers of a fixed width the guess of how many remain is right: one block is asked for, with room for all |
| OwnedOutcomes.EntryStartsAfresh | Pods/nanopb/pb_decode.c:1525-1547 | an entry of an array is decoded from its defaults, whatever was there |
| OwnedOutcomes.AppendCounts | Pods/nanopb/pb_decode.c:662-678 | one more entry of a pointer array: the count goes up by one, the block has room for exactly so many, and what was in it stays |
| OwnedOutcomes.EntryCounts | Pods/nanopb/pb_decode.c:454-464 | the next entry of a static array: the count goes up by one and the other entries stay |
| OwnedOutcomes.DefaultsAreReset | Pods/nanopb/pb_decode.c:845-928 | after setting defaults each pointer is null and each count and which_ is zero, at every depth, and entries of static arrays are as they were |
| OwnedDecoding.DecodeAndRelease | Pods/nanopb/pb_decode.c:1084-1096 | the code on the heap gives the blocks back as they were with all pointers null, unless decoding has failed with a table that can leak; no block is freed twice |
| OwnedDecoding.DecodeIntoZeroed | Pods/nanopb/pb_decode.c:1084-1096 | after decoding on the heap each new block is owned by exactly one pointer of the struct and no other block has gone; after a failure there is none |
| OwnedDecoding.Decode | Pods/nanopb/pb_decode.c:1084-1096 | the defaults, the records and on failure the release do on the heap what the functions say, and free only what the struct owns |
| OwnedDecoding.DecodeNoinit | Pods/nanopb/pb_decode.c:934-1082 | the record loop |
| OwnedDecoding.DecodeField | Pods/nanopb/pb_decode.c:740-766 | one field, static or pointer, after the union has been released |
| OwnedDecoding.ReleaseUnionField | Pods/nanopb/pb_decode.c:1137-1168 | the search for the current member by its tag, and its release |
| OwnedDecoding.DecodeStaticField | Pods/nanopb/pb_decode.c:406-483 | static submessages, onto what is there or onto a zeroed union |
| OwnedDecoding.DecodeEntry | Pods/nanopb/pb_decode.c:454-464 | the next entry of a static array; its count wraps around as a pb_size_t does |
| OwnedDecoding.DecodePointerField | Pods/nanopb/pb_decode.c:553-684 | the branches of a pointer field |
| OwnedDecoding.DecodePointer | Pods/nanopb/pb_decode.c:568-595 | a duplicate submessage is released before the new one is allocated; other pointers grow in place |
| OwnedDecoding.DecodePackedArray | Pods/nanopb/pb_decode.c:598-661 | the loop over a packed array: its block grows when it is full, by a guess of what is still to come, and is kept when the growth fails |
| OwnedDecoding.AppendItem | Pods/nanopb/pb_decode.c:662-678 | one more entry: counted before it is decoded, and owned even when decoding it fails |
| OwnedDecoding.AllocateField | Pods/nanopb/pb_decode.c:490-533 | the requested size is positive and does not overflow |
| OwnedDecoding.DecodeText | Pods/nanopb/pb_decode.c:1447-1523 | the block of a string or byte array |
| OwnedDecoding.DecSubmessage | Pods/nanopb/pb_decode.c:1525-1547 | entries of arrays are decoded from defaults, and released again on failure |
| OwnedDecoding.Release | Pods/nanopb/pb_decode.c:1261-1275 | the loop over the fields frees on the heap what the function says, and each block once |
| OwnedDecoding.ReleaseSingleField | Pods/nanopb/pb_decode.c:1170-1259 | one field; another member of a union is left alone |
| OwnedDecoding.ReleaseBlock | Pods/nanopb/pb_decode.c:1233-1258 | what lies in a block is freed before the block |
| OwnedDecoding.ReleaseItems | Pods/nanopb/pb_decode.c:1196-1247 | submessages in an array and the blocks of an array of strings |
| OwnedDecoding.ReleaseEntries | Pods/nanopb/pb_decode.c:1196-1231 | a static array with a count beyond its capacity is released up to its capacity |
| OwnedRelease.ReleaseKept | Pods/nanopb/pb_decode.c:1261-1275 | no block is freed that the struct does not own, each at most once; a struct whose counts can be trusted owns nothing afterwards |
| OwnedRelease.ReleaseFieldKept | Pods/nanopb/pb_decode.c:1170-1259 | the same for one field; another member of a union is left alone |
| OwnedRelease.ReleaseEntriesKept | Pods/nanopb/pb_decode.c:1196-1231 | the same for the entries of a static array below its count |
| OwnedRelease.AllReleased | Pods/nanopb/pb_decode.c:1261-1275 | releasing field by field leaves nothing, also in unions |
| Ownership.OwnsNothing | Pods/nanopb/pb_decode.c:1261-1275 | a struct owns nothing exactly when every pointer in it, at every level, is null |
| OwnedSafety.OwnedOnce | Pods/nanopb/pb_decode.c:1084-1096 | conservation of blocks read as sets: what is new is owned, each block by one pointer |
| PromiseRuns.Conservation | Resource/jsb-adapter/web-adapter.js:3813-3865 | at any time of any run each `then` registration is in exactly one spot (the list of a pending promise, the queue, its running callback, or done), at the promise that adoptions lead to |
| PromiseRuns.LeavesOnce | Resource/jsb-adapter/web-adapter.js:3833-3865 | over every run a promise leaves state 0 once if it has left it, and never otherwise |
| PromiseRuns.SettledForTheRun | Resource/jsb-adapter/web-adapter.js:3833-3865 | a settled promise keeps state and value for the rest of the run |
| PromiseRuns.ServedOnce | Resource/jsb-adapter/web-adapter.js:3813-3831 | over every run a registration is served once if its handler has been taken up, and never otherwise |
| PromiseRuns.StepProceeds | Resource/jsb-adapter/web-adapter.js:3813-3831 | a registration keeps its record and only moves forward, out of the queue when it is served and not otherwise |
| PromiseRuns.QuietMeansServed | Resource/jsb-adapter/web-adapter.js:3813-3865 | no registration is served twice, and when nothing is left to do those not served are in the list of a pending promise |
| PromiseRuns.ReportIsRight | Resource/jsb-adapter/web-adapter.js:3857-3860 | the unhandled rejection check reports a promise exactly when no registration follows it |
| PromiseRuns.NoRejectionIsLost | Resource/jsb-adapter/web-adapter.js:3857-3860 | when the queue is empty each rejected promise is followed by a registration or has been reported |
| PromiseHandlers.HandlerIsCalled | Resource/jsb-adapter/web-adapter.js:3813-3831 | in every run, when the registration of a call `then(f, g)` is taken up its promise has been settled; f is called if it was fulfilled and g if it was rejected, if given in that call, and otherwise the promise that `then` returned gets the same outcome |
| PromiseHandlers.ReturnResolves | Resource/jsb-adapter/web-adapter.js:3828 | that promise is resolved with what its handler returns: a value fulfils it, another promise is followed, a foreign thenable is asked, and itself is an error |
| PromiseHandlers.ThrowRejects | Resource/jsb-adapter/web-adapter.js:3824-3826 | it is rejected with what its handler throws |
| PromiseHandlers.StaysBusy | Resource/jsb-adapter/web-adapter.js:3816-3829 | while a handler runs no other is called |
| PromiseHandlers.ResolverDecides | Resource/jsb-adapter/web-adapter.js:3867-3880 | the first call of the resolving function decides what the promise follows or is settled with, and a later call changes nothing |
| PromiseHandlers.RejecterDecides | Resource/jsb-adapter/web-adapter.js:3867-3880 | the same for the rejecting function |
| PromiseHandlers.RunIsAsked | Resource/jsb-adapter/web-adapter.js:3885-3890 | over every run the registrations are those that the calls of `then` have asked for, in their order |
| PromiseOrder.ServedInOrder | Resource/jsb-adapter/web-adapter.js:3853-3865 | in every run, of two calls of `then` on one promise the first is answered first, also if the promise has adopted another |
| PromiseOrder.QueueIsFifo | Resource/jsb-adapter/web-adapter.js:3816-3860 | immediates are added at the end of the queue and taken from its front |
| PromiseOrder.StepOrders | Resource/jsb-adapter/web-adapter.js:3807-3890 | every step keeps registrations on one promise in the order of their calls, in lists, in the queue and across both |
| PromiseInvariant.StepKeeps | Resource/jsb-adapter/web-adapter.js:3807-3890 | every call and every immediate keeps the invariant: adoption chains end, lists, queue and records agree, each pending promise has one owner |
| PromiseInvariant.AdoptKeeps | Resource/jsb-adapter/web-adapter.js:3833-3865 | adopting a promise redirects all that follows and moves its waiters |
| PromiseInvariant.DeliverKeeps | Resource/jsb-adapter/web-adapter.js:3813-3831 | registrations in flight land in a list or in the queue, none lost |
| PromiseInvariant.SettleKeeps | Resource/jsb-adapter/web-adapter.js:3853-3865 | settling a promise queues all its registrations |
| PromiseInvariant.EmptyIsValid | Resource/jsb-adapter/web-adapter.js:3807-3811 | the invariant holds at the start |
| PromiseRuntime.Runtime.RootOf | Resource/jsb-adapter/web-adapter.js:3813-3814 | the loop along adoptions ends, at the promise that the specification names |
| PromiseRuntime.Runtime.Handle | Resource/jsb-adapter/web-adapter.js:3813-3831 | one registration is delivered |
| PromiseRuntime.Runtime.MoveAll | Resource/jsb-adapter/web-adapter.js:3862 | the loop over the list delivers all of it in order |
| PromiseRuntime.Runtime.Finale | Resource/jsb-adapter/web-adapter.js:3857-3865 | the check is queued only without waiters, and the list is emptied |
| PromiseRuntime.Runtime.Reject | Resource/jsb-adapter/web-adapter.js:3853-3855 | one rejection step |
| PromiseRuntime.Runtime.Fulfil | Resource/jsb-adapter/web-adapter.js:3847 | one fulfilment step |
| PromiseRuntime.Runtime.Adopt | Resource/jsb-adapter/web-adapter.js:3839 | one adoption step |
| PromiseRuntime.Runtime.Resolve | Resource/jsb-adapter/web-adapter.js:3833-3851 | plain values, the promise itself, other promises, foreign thenables and throwing getters are told apart |
| PromiseRuntime.Runtime.New | Resource/jsb-adapter/web-adapter.js:3807-3811 | a new promise is pending and owned by the functions its executor gets, as one step of the transition system |
| PromiseRuntime.Runtime.CallResolve | Resource/jsb-adapter/web-adapter.js:3867-3880 | a resolver acts on its first call only |
| PromiseRuntime.Runtime.CallReject | Resource/jsb-adapter/web-adapter.js:3867-3880 | the same for the second function |
| PromiseRuntime.Runtime.Then | Resource/jsb-adapter/web-adapter.js:3885-3890 | a registration is recorded with a new pending promise and delivered to where adoptions lead, as one step of the transition system |
| PromiseRuntime.Runtime.ServeHead | Resource/jsb-adapter/web-adapter.js:3816-3829 | the oldest registration is served |
| PromiseRuntime.Runtime.PassOn | Resource/jsb-adapter/web-adapter.js:3829 | without a handler the outcome is passed on |
| PromiseRuntime.Runtime.Begin | Resource/jsb-adapter/web-adapter.js:3816-3860 | the host takes the oldest immediate: a registration, or the unhandled rejection check, as one step of the transition system |
| PromiseRuntime.Runtime.Return | Resource/jsb-adapter/web-adapter.js:3828 | the promise of the registration is resolved with what the callback returned, as one step of the transition system |
| PromiseRuntime.Runtime.Throw | Resource/jsb-adapter/web-adapter.js:3824-3826 | it is rejected with what the callback threw, as one step of the transition system |
| XmlExactness.RoundTripExactly | Resource/jsb-adapter/web-adapter.js:5419-5536 | parsing what is printed for an element gives the same tree if and only if it has no empty and no adjacent text nodes and, in the namespace of XHTML, its scripts hold only texts without markup and its textareas only texts |
| XmlExactness.Misread | Resource/jsb-adapter/web-adapter.js:6573-6595 | at the first script or textarea that holds something else, a text that is too long is put in the place of its first child |
| XmlExactness.ScriptIsLost | Resource/jsb-adapter/web-adapter.js:6573-6595 | counterexample: a script with a declaration of the XHTML namespace and the text "<" does not come back |
| XmlGrowth.OffForever | Resource/jsb-adapter/web-adapter.js:6112-6244 | once a text that is too long stands in the tree, the result differs from the original, whatever comes after |
| XmlGrowth.TagIsMore | Resource/jsb-adapter/web-adapter.js:6130-6229 | a step of the reader only adds to what has been built |
| XmlGrowth.ResultIsClean | Resource/jsb-adapter/web-adapter.js:4183-4185 | whatever is read, the result has no empty and no adjacent texts |
| XmlRoundTrip.ReadsBack | Resource/jsb-adapter/web-adapter.js:6055-6245 | a tree whose scripts and textareas in the namespace of XHTML are as required comes back without empty texts and with adjacent texts joined |
| XmlRoundTrip.ReplaceUndoesEscape | Resource/jsb-adapter/web-adapter.js:4795-4797 | replacing references undoes escaping, for all characters including those of the markup |
| XmlRoundTrip.ScanPrinted | Resource/jsb-adapter/web-adapter.js:6258-6477 | the eight-state scanner reads back a printed start tag with all attributes and its end |
| XmlTags.TagIsRead | Resource/jsb-adapter/web-adapter.js:6258-6477 | a start tag in any spelling gives its name and its attributes with the references replaced, in their order: values in either quotation mark, without any or left out, any blanks around names and equals signs; it ends the element at `/>`, but not if a blank before that follows an attribute without a value |
| XmlGrammar.ScansTheGrammar | Resource/jsb-adapter/web-adapter.js:6258-6477 | on every source the eight-state scanner gives what the grammar of start tags, read by descent, gives, and refuses what that refuses |
| XmlSpelling.DocumentIsRead | Resource/jsb-adapter/web-adapter.js:6055-6245 | a document in any spelling is read as the tree it stands for, with white space before the root and other text behind it |
| XmlSpelling.EndTagExactly | Resource/jsb-adapter/web-adapter.js:6132-6171 | an end tag ends the innermost element if it has its name; the same name in other letters is an error; any other text ends nothing |
| XmlSpelling.BlankEndsNothing | Resource/jsb-adapter/web-adapter.js:6132-6171 | a blank behind the name in an end tag is taken as part of the name: the element goes on |
| XmlSpelling.UnendedIsEmpty | Resource/jsb-adapter/web-adapter.js:6186-6229 | an element that no end tag follows ends in its start tag |
| XmlSpelling.GoesOnExactly | Resource/jsb-adapter/web-adapter.js:6597-6617 | an element whose start tag does not end it goes on if and only if `</` and its name follow somewhere, whether or not that is an end tag |
| XmlContent.InheritedGoesOn | Resource/jsb-adapter/web-adapter.js:6597-6617 | an element with the name of an inherited property of objects goes on even if no end tag follows |
| XmlContent.SpecialIsRead | Resource/jsb-adapter/web-adapter.js:6573-6595 | content with markup of a script or textarea is one text up to the first end tag; references are replaced in a textarea only |
| XmlContent.SpecialWithoutEnd | Resource/jsb-adapter/web-adapter.js:6573-6595 | without an end tag everything read so far becomes its text, and the reader goes on behind the "<" of its own tag |
| XmlContent.SpecialExactly | Resource/jsb-adapter/web-adapter.js:6574 | the names are taken in any letters |
| XmlContent.FirstDeclarationCounts | Resource/jsb-adapter/web-adapter.js:6483-6517 | of several `xmlns` attributes the first one counts, and without one the namespace around the element |
| XmlContent.ReferencesExactly | Resource/jsb-adapter/web-adapter.js:6070-6087 | exactly an ampersand, perhaps a number sign, word characters and a semicolon are replaced, from the left; all else stays |
| XmlContent.BrokenEndTag | Resource/jsb-adapter/web-adapter.js:6138-6147 | a blank right before "<" in an end tag is an error |
| XmlContent.UnendedTag | Resource/jsb-adapter/web-adapter.js:6132-6137 | so is a tag without ">" |
| XmlAttributes.AttributesAreMerged | Resource/jsb-adapter/web-adapter.js:4132-4149 | of attributes with repeated names an element has every name once, in the order in which they first occur, with the value that comes last |
| XmlPrinted.PrintedMarkup | Resource/jsb-adapter/web-adapter.js:5419-5536 | the printer writes one tag for an element without children and two for the others, one blank and two quotation marks an attribute, and one reference for each character that must be escaped where it stands, and no other markup |
| XmlPrinted.PrintedExactly | Resource/jsb-adapter/web-adapter.js:5419-5536 | the same count for every character that cannot be in a name |
| XmlRoundTrip.ReadNode | Resource/jsb-adapter/web-adapter.js:6112-6244 | the reader consumes exactly such a printed element, in any default namespace, and builds it |
| XmlRoundTrip.ReadNodes | Resource/jsb-adapter/web-adapter.js:6112-6244 | the same for a list of children with text between them |
| XmlRoundTrip.VisibleIsClean | Resource/jsb-adapter/web-adapter.js:4183-4185 | what is read back has no empty and no adjacent texts |
| XmlRoundTrip.DistinctAreAppended | Resource/jsb-adapter/web-adapter.js:4140-4148 | distinct attributes keep their order |
| Xml.Buffer.Serialize | Resource/jsb-adapter/web-adapter.js:5419-5536 | pushing the parts computes the printed form of a node |
| Xml.Buffer.SerializeAll | Resource/jsb-adapter/web-adapter.js:5505-5508 | the children in their order |
| XmlReader.ParseElementStartPart | Resource/jsb-adapter/web-adapter.js:6258-6477 | the state machine loop stops at the end of the tag that the specification finds, or where the source reports an error |
| XmlParser.ParseDocument | Resource/jsb-adapter/web-adapter.js:6055-6245 | the main loop with its stack computes the specified parser |
| XmlParser.ReadEndTag | Resource/jsb-adapter/web-adapter.js:6132-6171 | an end tag closes the innermost element of its name, or nothing |
| XmlParser.ReadStartTag | Resource/jsb-adapter/web-adapter.js:6186-6229 | a start tag opens an element in its default namespace, or closes it at once when no end tag follows, and its special content is taken as text |
| XmlParser.ReadSpecialContent | Resource/jsb-adapter/web-adapter.js:6573-6595 | the content of a script or textarea with markup is one text up to the first end tag; without one the reader falls back behind the "<" |
| XmlParser.DeclaredSpace | Resource/jsb-adapter/web-adapter.js:6483-6517 | the loop from the last attribute to the first leaves the value of the first xmlns attribute |
| XmlParser.DomHandler.Characters | Resource/jsb-adapter/web-adapter.js:4163-4181 | text goes into the current element; before the root only white space is kept |
| XmlParser.DomHandler.StartElement | Resource/jsb-adapter/web-adapter.js:4132-4149 | a later attribute takes the place of an earlier one of its name |
| XmlParser.DomHandler.EndElement | Resource/jsb-adapter/web-adapter.js:4150-4154 | the element goes into its parent |
| DomNormalize.Normalize | Resource/jsb-adapter/web-adapter.js:4728-4742 | the walk over the sibling links with removeChild terminates, keeps links and indexes in agreement, leaves no two adjacent texts at any level below, changes no list without adjacent texts, and every list shows the same texts and nodes as before |
| DomNormalize.WhatIsLeft | Resource/jsb-adapter/web-adapter.js:4728-4742 | what is left of a list is the first node of each run of texts, with the text of all of them, and the other nodes in their order |
| DomNormalize.ShownJoined | Resource/jsb-adapter/web-adapter.js:4735-4736 | a text that takes in the next one shows the same |
| XmlNormalize.NormalizeChildren | Resource/jsb-adapter/web-adapter.js:4728-4742 | the walk terminates and computes the joined list, at every level |
| XmlNormalize.NormalizeKeepsText | Resource/jsb-adapter/web-adapter.js:5730-5750 | textContent is preserved |
| XmlNormalize.NormalizeSeparates | Resource/jsb-adapter/web-adapter.js:4728-4742 | no two text siblings are adjacent anywhere below |
| XmlNormalize.NormalizeIsIdentity | Resource/jsb-adapter/web-adapter.js:4728-4742 | a tree is left alone exactly when its texts are separated already |
| DomRuns.EveryRunKeepsLists | Resource/jsb-adapter/web-adapter.js:4842-4974 | after any sequence of insertions, appends, replacements and removals the links of every element form one doubly linked list, childNodes is that list, and no node is in two of them |
| DomRuns.InsertionMoves | Resource/jsb-adapter/web-adapter.js:4899-4946 | an inserted node comes right before the reference node; all others keep their order, in the list it leaves and in the one it enters |
| DomRuns.SplicingMovesAll | Resource/jsb-adapter/web-adapter.js:4906-4916 | the children of a fragment come before the reference node in their order and the fragment is empty |
| DomLists.ReplacedBy | Resource/jsb-adapter/web-adapter.js:4707-4714 | after replaceChild the new node is in the place of the old one, which is in no list; every other list only loses the new node |
| DomLists.ReplacedByFragment | Resource/jsb-adapter/web-adapter.js:4707-4714 | the children of a fragment are in the place of the old node, in their order, and the fragment is empty |
| DomLists.InsertedInto | Resource/jsb-adapter/web-adapter.js:4899-4946 | what every list is after an insertion: the node leaves the list it was in and comes before the reference node |
| DomLists.SplicedInto | Resource/jsb-adapter/web-adapter.js:4906-4916 | what every list is after a fragment has been inserted |
| DomLists.AppendedTo | Resource/jsb-adapter/web-adapter.js:4948-4974 | what every list is after an append |
| DomLists.FragmentAppendedTo | Resource/jsb-adapter/web-adapter.js:5159-5165 | the same for a fragment |
| DomLists.RemovedFrom | Resource/jsb-adapter/web-adapter.js:4874-4893 | after a removal the list lacks the child, and every other list is the same |
| DomRuns.FragmentIndexIsStale | Resource/jsb-adapter/web-adapter.js:4938-4943 | counterexample: the childNodes of a spliced fragment still list the nodes it has lost; they are right only if there were none |
| DomReinsertion.TakenOutExactly | Resource/jsb-adapter/web-adapter.js:4874-4904 | a node that was removed earlier and is inserted again is first taken out of its old list once more; links and indexes still agree if and only if its old neighbours have kept no others between them or are in no list now |
| DomReinsertion.Reinserted | Resource/jsb-adapter/web-adapter.js:4899-4946 | in that case it is inserted like a new node |
| DomReinsertion.ReinsertionLoses | Resource/jsb-adapter/web-adapter.js:4899-4946 | counterexample: append c, remove c, append x, insert c again: x is no longer in the list, though it still has its parent |
| DomRuns.ElementsAreLists | Resource/jsb-adapter/web-adapter.js:4842-4863 | agreement of links and index means one list, walked from either end |
| Dom.ApplyKeeps | Resource/jsb-adapter/web-adapter.js:4842-4974 | every operation keeps links and indexes in agreement |
| Dom.InsertKeeps | Resource/jsb-adapter/web-adapter.js:4899-4946 | the same for one insertion, with a move between parents or a spliced fragment |
| Dom.AppendIsInsertion | Resource/jsb-adapter/web-adapter.js:4948-4974 | the short way to append a single child does what insertion at the end does |
| Dom.RemoveKeeps | Resource/jsb-adapter/web-adapter.js:4874-4893 | removal keeps the agreement although the removed node keeps its own links |
| DomDocument.Document.InsertBefore | Resource/jsb-adapter/web-adapter.js:4899-4946 | the assignments compute the specified insertion on the heap |
| DomDocument.Document.InsertAll | Resource/jsb-adapter/web-adapter.js:4934-4943 | the same for the nodes of a fragment |
| DomDocument.Document.Link | Resource/jsb-adapter/web-adapter.js:4918-4936 | only the links at the ends and the parents change |
| DomDocument.Document.SetParents | Resource/jsb-adapter/web-adapter.js:4934-4936 | the loop reaches the last node and sets every parent |
| DomDocument.Document.UpdateChildren | Resource/jsb-adapter/web-adapter.js:4842-4863 | the walk terminates and fills childNodes with the list |
| DomDocument.Document.LinkAround | Resource/jsb-adapter/web-adapter.js:4874-4888 | the neighbours of a removed child are linked to each other |
| DomDocument.Document.RemoveChild | Resource/jsb-adapter/web-adapter.js:4874-4893 | computes the specified removal |
| DomDocument.Document.AppendSingleChild | Resource/jsb-adapter/web-adapter.js:4948-4974 | computes the specified append |
| DomDocument.Document.AppendChild | Resource/jsb-adapter/web-adapter.js:5159-5165 | element or fragment |
| DomDocument.Document.ReplaceChild | Resource/jsb-adapter/web-adapter.js:4707-4714 | insertion before the old child, and its removal |
| DomDocument.Document.CreateNode | Resource/jsb-adapter/web-adapter.js:5030-5051 | a new node has no links |
| Md5Digest.MD5.Calculate | swift/Extension/String+MD5.swift:342-419 | for every message of fewer than 2^60 bytes the result is the digest of RFC 1321 |
| Md5Digest.MD5.ProcessChunk | swift/Extension/String+MD5.swift:359-405 | the rotating loop of 64 steps on one chunk is the processing of a block by the four rounds |
| Md5.LoopIsFourRounds | swift/Extension/String+MD5.swift:371-400 | 64 rotating steps compute the four rounds of section 3.4 of RFC 1321 |
| Md5.FourSteps | swift/Extension/String+MD5.swift:371-400 | after four steps every register is back in its place |
| Md5.StepIsOperation | swift/Extension/String+MD5.swift:375-399 | one step is one operation of the round it belongs to |
| Rfc1321.RotateMovesBits | swift/Extension/String+MD5.swift:303-305 | rotation moves every bit up and brings those that leave in again below |
| Md5Digest.Prepare | swift/Extension/String+MD5.swift:238-255 | the padded message begins with the message and one set bit, goes on with zeros and leaves eight bytes in its last chunk |
| Md5Digest.ArrayOfBytes | swift/Extension/String+MD5.swift:187-211 | the bytes of a number in reverse order |
| Md5Digest.BytesIterator.Next | swift/Extension/String+MD5.swift:286-291 | consecutive chunks, without gap or overlap, up to the end |
| Md5Digest.ToUInt32Array | swift/Extension/String+MD5.swift:258-272 | the sixteen little-endian words of a chunk |
| Md5Digest.CompletedMessage | swift/Extension/String+MD5.swift:349-352 | padding and length complete the message as sections 3.1 and 3.2 of RFC 1321 say, to whole chunks |
| Md5Digest.CompletionIsUnique | swift/Extension/String+MD5.swift:343-352 | a message has one completion |
| Md5Digest.CompletionIsInjective | swift/Extension/String+MD5.swift:343-352 | two messages with the same completion are the same |
| Md5Digest.DigestIsUnique | swift/Extension/String+MD5.swift:342-419 | a message has one digest |
| Rfc1321Suite.AlphabetDigest | swift/Extension/String+MD5.swift:342-419 | from the test suite of RFC 1321: the digest of "abcdefghijklmnopqrstuvwxyz" is c3fcd3d76192e4007dfb496cca67e13b, and it has no other |
| Rfc1321Suite.BlockIsProcessed | swift/Extension/String+MD5.swift:359-405 | the registers after its block, by way of the values after each of the 64 operations |
## Left out

- nanopb callback fields, extension fields, custom stream callbacks, error message strings, and the build
  variants without 64-bit numbers, with unpacked arrays only, or with the old callback style.
- nanopb tables that refer to themselves: tables are finite trees here. Struct padding and the array bytes
  behind a count or a string terminator are not part of a message.
- What a struct holds after decoding has failed, apart from the blocks it owns.
- RoundTrip.MessageRoundTrip: encodings of 2^63 bytes and more are not covered; entries of fixed-count
  arrays that are never received count as zeros, where C leaves what was there.
- WireRecords.EncodingIsRecords: every which_ is zero or names a member, and fixed-count arrays have
  entries; the encoding is shorter than 2^63 bytes.
- Encoder.Encode: embedded messages are shorter than 2^63 bytes, so that `size_t` does not wrap around.
- Decoder.DecodeNoinit: the destination struct is passed and returned as a value; that it is written in
  place, and what aliases it, is not modelled.
- OwnedLeaks.LeaksExactly: an input is the tree of its records here, with the outcome of each reading step
  given, and not the bytes; the numbers that are decoded are left out; tables have no fixed-count arrays.
  Out-of-bounds reads by C code are not modelled.
- OwnedOutcomes.SmoothSucceeds: no field comes twice; what a repeated field needs depends on what came
  before, and is in `OwnedOutcomes.AppendCounts`, `EntryCounts` and `TurnsSucceed` for one step.
- OwnedSafety.DecodeNoinitKept: a union whose which_ member is zero is taken to hold zero bytes, as it
  does in a zeroed struct; reuse of a struct whose union has held other data is not covered.
- PromiseRuns.Conservation: no promise adopts, through others, itself; immediates run in the order in
  which they were scheduled, one at a time; reading `then` twice gives the same function. `all`, `race`,
  `finally`, `catch` and subclasses are built on `then` and are not modelled.
- XmlExactness.RoundTripExactly: names without colons, and nodes that have no namespace of their own, so
  that the printer adds no declarations and does not print as HTML; declarations, comments, CDATA and
  processing instructions are not modelled, and a run is followed up to the first error the reader
  reports. A character is one code point, and numeric references other than the printed ones are an
  unspecified function.
- DomRuns.EveryRunKeepsLists: a node that was removed earlier is not inserted again (`DomReinsertion` has
  when that can be done), the reference node is a different child of the parent, and the parent is not the
  node itself; removal directly under a Document is not modelled.
- DomReinsertion.TakenOutExactly: the condition is on the step that takes the node out again; whether the
  insertion that follows happens to repair what that step has broken is shown for one run only.
- DomNormalize.Normalize: the tree below the node has a height; a node that is below itself would be
  walked forever.
- XmlNormalize.NormalizeChildren: the children are a sequence of values here; `DomNormalize` has the
  linked nodes.
- Md5Digest.MD5.Calculate: the step from text to UTF-8 bytes and the printing as hexadecimal digits are
  left out; that the table of constants holds the sines it is named after is not proved: the values are
  those of RFC 1321.
- The remaining browser shims of `web-adapter.js`, the native bindings of `engine-adapter.js`, and the
  Swift user interface and network code.
