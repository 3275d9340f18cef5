# Verified model of Bond's binary codecs

A Dafny model of the binary wire codec of Bond and of the machinery around it, with proofs of what
it keeps. `dafny verify dfyconfig.toml` checks everything.

The parts, in the order they build on each other:

- **Variable-length integers** (`Bytes`, `Varint`, `Input`, `InputBuffer`): unrolled, checked, generic
  and counting-only implementations in C# and C++, all against one recursive definition.
- **The tagged formats** (`Wire`, `Format`, `Grammar`, `RoundTrip`): a tree of values, its direct
  encoding in Fast Binary and Compact Binary versions 1 and 2, the bytes of that in numbers, and the
  grammar of payloads over arbitrary bytes.
- **Two-pass serialization of Compact Binary version 2**: the calls a serializer makes on a writer
  (`Calls`), the C# counter (`Counter`, `CounterLengths`), the writers (`Writer`), both passes in
  lockstep (`Lockstep`, `Serializer`), and the C++ algorithm (`PassZero`, `PassOne`).
- **Reading, skipping and transcoding** (`Reader`, `Transcoder`), and the skipper of the C++ reader
  (`Skipper`).
- **Schema-driven parsers**: the loops that merge schema and payload (`FieldMerge`,
  `FieldMergeLaws`), deserialization as a function of the value (`Deserialization`), when it raises an
  exception (`Required`, `Failures`), with whatever identifiers the stop markers carry (`StopMarkers`)
  and whether there are levels enough (`Levels`), as loops over the bytes (`TaggedParser`), which types
  convert (`Conversions`) and that the object written comes back (`Objects`), the generator that
  compiles a cyclic schema (`Generator`), the table of structs in a run-time schema (`SchemaTable`),
  with the counting argument that ends both walks over cyclic types (`Counting`), the bitmap of
  required fields in the text parsers (`RequiredFields`), and arrays that grow while they are read
  (`Containers`).
- **Slicing over Simple Binary**: the format (`SimpleBinary`, `SimpleFormat`), reading and slicing each
  struct by its own schema (`Slicing`), which structs of two schemas meet (`Pairs`), the code that is
  generated (`UntaggedCode`, `UntaggedGenerator`), which calls it has, told from the schemas (`Plans`,
  and `SlicedCode` for a slice), and on which schemas that reads every payload rightly (`Defaults`,
  `DefaultRuns`, `Misreading`, `SlicedRuns`).
- **C++ memory** (`MemoryStream`, `CappedAllocator`, `AllocatorOutcomes`): the output stream as a chain
  of shared buffers, and the allocator capped by a lock-free counter under every interleaving.

Specifications are functions over values: `Wire.EncodeValue` is the format, `Grammar.ParseValue` its
inverse, `Counter.LengthsOf` the preorder list of struct lengths, `FieldMerge.Merge` the join of
schema and payload, `Deserialization.Decode` direct decoding. Objects the source updates in place are
classes whose methods are proved against step functions, and the theorems are about runs of those.

Where code and documentation differ, the code is followed:

- `OutputMemoryStream` is described as a sequence of everything written. When a write fails because
  the buffer cannot grow, the code has already put the current range on the chain without ending it.
  The content is the bytes written if and only if the write succeeds or the buffer has no room behind
  an empty range, that is, its size before the write is where the current range begins; otherwise the
  whole range counts twice. `OutputMemoryStream.Write` says so for every state, and
  `MemoryStream.FailedWrite` reaches such a state from a first buffer of 2^31 bytes.
- The same code raises the size of the buffer before it allocates one. When that allocation fails, the
  size no longer is that of the buffer unless it has been raised to what it was; `Write` says exactly
  when the stream is still usable, and promises nothing for writes to one that is not.
  `MemoryStream.FailedAllocation` reaches a stream that is not.
- The C++ loop for compile-time schemas and the C# tagged loop do not report every missing field as
  omitted. `FieldMergeLaws.OmittedExactly` and `SameEvents` say exactly when.
- The documentation promises an exception when a required field is missing from the payload
  (doc/src/bond_cpp.md:950-952). The C# deserializer relies on the reports of omitted fields, so an
  unknown field just before the missing one, with another field after it, keeps it from being
  noticed. In the Compact protocols the marker at the end of a level may carry an identifier, which
  the loop compares too and which does the same. `Required.MissingRequired` gives the exact condition
  for a level, `Failures.DecodeFails` for a whole object, both for any identifiers in the markers, nested
  ones included; `Required.MissingUnnoticed` and `TaggedParser.HiddenField` have payloads.
  `StopMarkers.StopHides` says exactly which field a marker hides. `TaggedParser.Deserialize` raises an
  exception exactly then, wherever the structs that are read have the levels of the schema; what is
  written from an object of the type or of a derived one, required fields left out or not, has them
  (`Levels.SlicedEnough`) and no identifiers in its markers (`StopMarkers.WrittenQuiet`). For that the
  promise holds: `Objects.ReadBack` raises an exception exactly if a required field is left out.
- A deserializer over the untagged parser keeps its functions by the struct that is read into, although
  their code depends on the struct in the payload. When a derived struct is read into a base that can
  have itself inside, the nested one is read by the function for the derived struct.
  `SlicedRuns.ReadSlice` says exactly on which schemas slicing is right, `SlicedRuns.MisreadChild` has a
  payload of twelve bytes that is read as sixteen. For any two schemas `UntaggedGenerator.Compile` says
  on the schemas exactly when the calls are right; that they are is not necessary, since two structs in
  the payload may take the same bytes.
- In the text parsers a field is found by its name, and a field of a base takes the name from one of the
  same name in a derived struct. If that one is required, no payload satisfies the check;
  `RequiredFields.FirstMissing` has the exact condition, `RequiredFields.HiddenField` a struct.
- C++ `SkipType` passes over 16-bit and 32-bit numbers as 64-bit ones. On a number whose last byte is
  flagged it goes further than reading does: `Skipper.SkipsNumber` is the exact condition,
  `Skipper.Overrun` a payload. No writer produces one (`Skipper.WrittenEnds`).

## Model

| member | source | states |
|---|---|---|
| `Lockstep.TwoPasses` | cs/src/core/Serializer.cs:167-176 | Serializing any struct below 2^32 bytes with an idle writer of any tagged protocol, with any choice, occurrence by occurrence, of members held as bonded and lists written as byte segments, emits exactly the direct encoding; no length check fails, and the length queue and the counter end empty |
| `Lockstep.WritesValue` | cs/src/core/protocols/CompactBinary.cs:205-233 | In the second pass the calls of a value take from the head of the queue exactly that value's struct lengths in preorder, emit its encoding, and never find the queue empty where a bonded value asks for a first pass |
| `Lockstep.WritesBody` | cs/src/core/protocols/CompactBinary.cs:475-502 | The end position pushed for a struct is the one its BT_STOP is written at, whatever is nested before it |
| `Serializer.TwoPassSerialize` | cs/src/core/Serializer.cs:167-176 | The two passes on the real writer object append the encoding of the object and leave the writer idle for the next one |
| `CounterLengths.FirstPass` | cs/src/core/protocols/CompactBinaryCounter.cs:82-104 | From an empty counter the length list is the list of true struct lengths in preorder, for every struct below 2^32 bytes, although the frames count in wrapping signed 32-bit integers |
| `CounterLengths.CountsValue` | cs/src/core/protocols/CompactBinaryCounter.cs:43-65 | Inside an open struct a value charges the innermost frame with exactly the bytes of its version 2 encoding and appends the lengths of its structs |
| `CounterLengths.CountsStop` | cs/src/core/protocols/CompactBinaryCounter.cs:92-104 | Closing a struct patches its own slot and charges the enclosing frame with the prefix and the struct |
| `Counter.CallBytes` | cs/src/core/protocols/CompactBinaryCounter.cs:219-312 | A number is counted as the bytes the version 2 writer emits for it |
| `Counter.HeaderBytes` | cs/src/core/protocols/CompactBinaryCounter.cs:130-198 | Field, list and map headers are counted as the bytes the version 2 writer emits, in all their forms |
| `Counter.CompactBinaryCounter.WriteStructEnd` | cs/src/core/protocols/CompactBinaryCounter.cs:92-104 | The object's list and stack change as in the step function the theorems are about; it fails exactly without an open struct |
| `Counter.CompactBinaryCounter.PerformAll` | cs/src/core/protocols/CompactBinaryCounter.cs:18-336 | Any sequence of calls on the counter object is a run of the step function |
| `Writer.ProtocolWriter.WriteStructBegin` | cs/src/core/protocols/CompactBinary.cs:205-214 | Takes the head of the shared length list, writes it and pushes the position where the struct must end; fails exactly when the list is empty |
| `Writer.ProtocolWriter.WriteStructEnd` | cs/src/core/protocols/CompactBinary.cs:229-233 | Writes BT_STOP and fails exactly when the position is not the one pushed |
| `Writer.ProtocolWriter.FirstPass` | cs/src/core/protocols/CompactBinary.cs:175-187 | A first pass is run on the counter that shares the list exactly when the version is 2 and the list is empty |
| `Writer.ProtocolWriter.PerformAll` | cs/src/core/protocols/CompactBinary.cs:141-470 | Any sequence of calls on the writer object is a run of the step function |
| `PassZero.Simulates` | cpp/inc/bond/protocol/compact_binary.h:878-890 | For every sequence of calls that the C# counter accepts, the C++ pass zero (one wrapping count, index stack, flat array) keeps the same open structs and the same finished lengths |
| `PassZero.SameLengths` | cpp/inc/bond/protocol/compact_binary.h:878-890 | Once all structs are closed the C++ and the C# length lists are equal |
| `PassZero.PassZero` | cpp/inc/bond/protocol/compact_binary.h:878-890 | For every struct below 2^32 bytes pass zero leaves its true lengths in preorder and an empty stack |
| `PassZero.WeightsAgree` | cpp/inc/bond/stream/output_counter.h:77-102 | The counting stream adds the same number of bytes for every call as the C# counter |
| `PassZero.PassZeroWriter.WriteStructEnd` | cpp/inc/bond/protocol/compact_binary.h:884-890 | Counts the stop byte, replaces the popped slot by the wrapped difference and counts the length's own bytes |
| `PassOne.Follows` | cpp/inc/bond/protocol/compact_binary.h:892-903 | The pointer into the array stands for the C# queue: whatever the second pass does with the queue, pass one does with the pointer, never past the end |
| `PassOne.PassOne` | cpp/inc/bond/protocol/compact_binary.h:892-903 | Over the array of pass zero, pass one emits the direct encoding and ends with the pointer just past the last length |
| `PassOne.CompactBinaryWriter.DoublePassApply` | cpp/inc/bond/core/detail/double_pass.h:23-34 | Both C++ passes together append the direct encoding of the struct and clear the pointer again |
| `Transcoder.Transcode` | cs/src/core/Transcoder.cs:185-200 | Transcoding a struct from any tagged protocol into any other: wherever the payload has a struct, the output is the direct encoding of that struct and the reader ends just past it; in particular the encoding of a value in one protocol becomes its encoding in the other |
| `Transcoder.TranscodeValue` | cs/src/core/expressions/SerializerTransform.cs:273-322 | The calls made while reading a value are exactly those of the value, and the reader ends where the value ends |
| `Transcoder.TranscodeContainer` | cs/src/core/expressions/SerializerTransform.cs:202-241 | List and set items one by one, or the raw bytes as a whole for one-byte items, give the calls of the list |
| `Transcoder.TranscodeBody` | cs/src/core/expressions/TaggedParser.cs:61-131 | Fields and ends of bases are passed on in payload order until BT_STOP |
| `Format.TypeNumbers` | idl/bond/core/bond_const.bond:4-25 | The number of each of the 17 data types and of both stop markers |
| `Format.Numbers` | cs/src/core/protocols/CompactBinary.cs:46-76 | Which numbers there are of each type, by its number |
| `Format.GroupedBytes` | cs/src/core/io/IntegerHelper.cs:152-211 | Byte i of a variable-length integer has digit i to base 128, and the flag except in the last; there are as few bytes as can be |
| `Format.NumberBytes` | cs/src/core/protocols/CompactBinary.cs:46-76 | Byte i of a number is digit i to base 256 of its pattern, in Fast and where one byte is enough; otherwise it is a variable-length integer, of 2n or -2n - 1 if the type is signed |
| `Format.TextBytes` | cs/src/core/protocols/CompactBinary.cs:78-92 | Floats are four or eight bytes as they are; strings have the number of code units of one or two bytes before them |
| `Format.ListBytes` | cs/src/core/protocols/CompactBinary.cs:94-113 | Number of the item type, count and items in order; in version 2 a count below seven is in the three upper bits, plus one |
| `Format.MapBytes` | cs/src/core/protocols/CompactBinary.cs:115-129 | Type of the keys before that of the values, count, keys and values in turn |
| `Format.StructBytes` | cs/src/core/protocols/CompactBinary.cs:6-17 | The length of what follows, in version 2 only, then the levels, 1 after each but the last and 0 after that |
| `Format.FieldBytes` | cs/src/core/protocols/CompactBinary.cs:27-43 | Type and identifier in numbers: three bytes in Fast; in Compact one, two or three by the size of the identifier; then the value and the rest |
| `Format.Sample` | cs/src/core/protocols/FastBinary.cs:6-27 | The bytes of one struct in all three protocols |
| `Format.GroupsRead` | cs/src/core/io/IntegerHelper.cs:213-265 | For any bytes, what is decoded is the weighted sum of the groups up to the first byte without a flag, or the last that may be read, which counts whole |
| `Format.WidthsRead` | cs/src/core/io/IntegerHelper.cs:213-330 | Results are cut to their width, and the tenth byte of a 64-bit integer is passed over |
| `Format.HeadersRead` | cs/src/core/protocols/CompactBinary.cs:588-607 | All forms of a field header are read for every identifier they can hold, the shortest or not |
| `RoundTrip.ValueRoundTrip` | cs/src/core/protocols/CompactBinary.cs:588-648 | Reading the encoding of any value, anywhere in a payload, gives the same value and stops exactly at its end, in Fast and both Compact versions |
| `RoundTrip.FieldHeaderRoundTrip` | cs/src/core/protocols/CompactBinary.cs:251-271 | All three forms of a field header, and the Fast one, read back as the same type and identifier |
| `RoundTrip.ListHeaderRoundTrip` | cs/src/core/protocols/CompactBinary.cs:294-307 | Container headers read back, with the count packed into the type byte or not |
| `RoundTrip.Unambiguous` | cs/src/core/protocols/CompactBinary.cs:4-124 | No encoding of a value is a proper prefix of another of the same type |
| `RoundTrip.ParsedIsValid` | cs/src/core/protocols/CompactBinary.cs:624-648 | Whatever can be read can be written: values read from arbitrary bytes are well-formed |
| `Reader.TaggedReader.Skip` | cs/src/core/protocols/CompactBinary.cs:812-860 | For any bytes at all, wherever a value stands, skipping ends exactly where reading it ends |
| `Reader.TaggedReader.SkipContainer` | cs/src/core/protocols/FastBinary.cs:711-749 | Bulk skips and item-by-item skips end where the items end |
| `Reader.TaggedReader.SkipStruct` | cs/src/core/protocols/CompactBinary.cs:904-925 | The version 2 jump over the length prefix and the field walk of the other protocols end at the same place, just past BT_STOP |
| `Reader.BulkItems` | cs/src/core/protocols/CompactBinary.cs:862-888 | Items that are skipped in bulk occupy count times their size |
| `Skipper.CompactReader.SkipType` | cpp/inc/bond/protocol/compact_binary.h:407-618 | In both versions, wherever a value stands in which no 16-bit or 32-bit number ends in a flagged byte, the C++ skipper ends exactly where reading the value ends; what is inside a version 2 struct does not matter |
| `Skipper.CompactReader.SkipStructV1` | cpp/inc/bond/protocol/compact_binary.h:484-508 | The two nested loops over levels and fields end just past the BT_STOP of the most derived level |
| `Skipper.CompactReader.SkipTypes` | cpp/inc/bond/protocol/compact_binary.h:533-564 | A run of items is passed over in one step or one by one, with the same end |
| `Skipper.SkipsNumber` | cpp/inc/bond/protocol/compact_binary.h:414-421 | A number read at two, four or eight bytes and skipped at eight: both end at the same byte if and only if it is a 64-bit one or its last byte carries no continuation flag |
| `Skipper.WrittenEnds` | cpp/inc/bond/protocol/compact_binary.h:407-618 | Every encoding of a value meets the condition of `SkipType`, so that all that is written is skipped rightly |
| `Skipper.Overrun` | cpp/inc/bond/protocol/compact_binary.h:414-421 | A concrete 16-bit number that is read in three bytes and skipped in four |
| `Varint.LengthIsThresholds` | cs/src/core/io/IntegerHelper.cs:18-150 | The threshold tables give the length of the encoding for every 16, 32 and 64-bit value |
| `Varint.CountedLengthIsLength` | cpp/inc/bond/stream/output_counter.h:13-52 | So does the recursive counter of the counting stream, last specialisation included |
| `Varint.EncodedLength` | cs/src/core/io/IntegerHelper.cs:108-150 | An encoding has at most k bytes exactly for values below 128^k |
| `Varint.EncodePrefixFree` | cs/src/core/io/IntegerHelper.cs:152-211 | No variable-length encoding is a prefix of another |
| `Varint.EncodeVarUInt16` | cs/src/core/io/IntegerHelper.cs:34-51 | The unrolled encoder writes exactly the encoding at the index, returns the next index and leaves the other bytes alone |
| `Varint.EncodeVarUInt32` | cs/src/core/io/IntegerHelper.cs:77-106 | The same for 32 bits |
| `Varint.EncodeVarUInt64` | cs/src/core/io/IntegerHelper.cs:152-211 | The same for 64 bits |
| `Varint.DecodeVarUInt16` | cs/src/core/io/IntegerHelper.cs:213-232 | The unrolled decoder computes the group-wise value and position for arbitrary bytes |
| `Varint.DecodeVarUInt32` | cs/src/core/io/IntegerHelper.cs:234-265 | The same for 32 bits |
| `Varint.DecodeVarUInt64` | cs/src/core/io/IntegerHelper.cs:267-328 | The same for 64 bits, with bit 63 from the ninth byte's flag and the tenth byte passed over |
| `Varint.Decode16RoundTrip` | cs/src/core/io/IntegerHelper.cs:213-232 | Decoding undoes encoding and stops at its end, whatever follows |
| `Varint.Decode32RoundTrip` | cs/src/core/io/IntegerHelper.cs:234-265 | The same for 32 bits |
| `Varint.Decode64RoundTrip` | cs/src/core/io/IntegerHelper.cs:267-328 | The same for every 64-bit value, although the tenth byte is never looked at |
| `Varint.ZigzagRoundTrip` | cs/src/core/io/IntegerHelper.cs:330-362 | Zigzag is undone by its decoder for every signed value of 8 to 64 bits, and numbers 0, -1, 1, -2 in order |
| `Input.DecodeVarUInt64Checked` | cs/src/core/io/safe/InputBuffer.cs:237-253 | The bounds-checked loop computes the masked value of at most ten groups and fails exactly when the buffer ends inside them |
| `Input.ReadVarRoundTrip` | cs/src/core/io/safe/InputBuffer.cs:186-224 | Whichever decoder the distance to the end of the buffer selects, reading undoes writing for all widths |
| `InputBuffer.ReadUnchecked` | cpp/inc/bond/stream/input_buffer.h:20-86 | The C++ unrolled reader computes the same value and position as the C# decoder, for arbitrary bytes |
| `InputBuffer.Stream.GenericReadVariableUnsigned` | cpp/inc/bond/protocol/encoding.h:102-119 | The byte-by-byte loop computes the value of all groups up to the first unflagged byte and fails exactly when there is none |
| `InputBuffer.SameRead` | cpp/inc/bond/stream/input_buffer.h:214-227 | On any bytes the C++ stream reads the same integer as the C# one and stops at the same byte, although only C++ sets no limit on the number of groups near the end of the buffer |
| `InputBuffer.Stream.ReadVariableUnsigned` | cpp/inc/bond/stream/input_buffer.h:214-227 | Computes what the C# stream reads, on any bytes; so both paths undo writing wherever in the buffer the encoding stands, and the unrolled one never looks beyond the end |
| `MemoryStream.OutputMemoryStream.Write` | cpp/inc/bond/stream/output_buffer.h:213-283 | Appends the bytes to the content, growing into a new buffer as needed, and leaves bytes and blobs already there alone. Fails exactly when the buffer is full and either above 2^31 - 1 bytes or cannot be allocated anew; after a failure the content, the range and the buffer are given, the content is that of what was written if and only if the range is empty, and the stream stays valid exactly when its size was not raised or raised to what it was |
| `MemoryStream.FailedWrite` | cpp/inc/bond/stream/output_buffer.h:247-259 | A failing write, on a stream whose first buffer has 2^31 bytes: the content is what was written two times |
| `MemoryStream.FailedAllocation` | cpp/inc/bond/stream/output_buffer.h:261-268 | A stream that a failed allocation leaves with a size that is not that of its buffer |
| `MemoryStream.OutputMemoryStream.Grown` | cpp/inc/bond/stream/output_buffer.h:261-268 | The new size is the least that is half as much again, or 4096 at first, and enough for what is left over |
| `MemoryStream.OutputMemoryStream.WriteBlob` | cpp/inc/bond/stream/output_buffer.h:285-316 | A blob, copied or chained, is appended to the content; a chained one itself becomes the end of the chain, and the rest of the shared buffer goes on being used without touching what has been chained. Copying fails exactly as `Write` does, with the same state after it |
| `MemoryStream.OutputMemoryStream.WriteVariableUnsigned` | cpp/inc/bond/stream/output_buffer.h:325-337 | Fast path and byte-by-byte path append the encoding of the value, across changes of buffer too, and the fast path stays inside the buffer. Says how many bytes get through with the allocations that succeed and that it fails exactly when those are not all; after a failure the current range counts twice, which is what it was and the bytes that fit if the buffer is still the first one, and otherwise the last of the bytes that got through, from the beginning of the new buffer, so that the content is what was written if and only if the buffer is still the first one and had no room behind an empty range; and when the stream stays valid |
| `MemoryStream.WriteUnchecked` | cpp/inc/bond/stream/output_buffer.h:24-82 | The unrolled writer writes exactly the encoding, with the last group written without a look at the value |
| `MemoryStream.OutputMemoryStream.GetBuffers` | cpp/inc/bond/stream/output_buffer.h:149-167 | The chain returned has the content of the stream |
| `MemoryStream.OutputMemoryStream.GetBuffer` | cpp/inc/bond/stream/output_buffer.h:172-179 | One blob with the content of the stream, unless that is 2^32 bytes or more |
| `MemoryStream.MergeChain` | cpp/inc/bond/core/blob.h:334-380 | Merging a chain keeps all its bytes in order, also where it returns the first blob itself; fails exactly on 32-bit overflow |
| `MemoryStream.Merge` | cpp/inc/bond/core/blob.h:311-332 | Merging two blobs concatenates them |
| `MemoryStream.ChainKept` | cpp/inc/bond/stream/output_buffer.h:297-310 | Writing behind everything chained so far leaves the chain's bytes as they were, even the blobs that share the buffer |
| `MemoryStream.FlatFirst` | cpp/inc/bond/core/blob.h:350-356 | If the whole chain is as long as its first blob it has the same bytes |
| `FieldMerge.ReadFieldsRuntime` | cpp/inc/bond/core/parser.h:340-381 | For any payload order the loop with a run-time schema reports exactly the join of schema and payload |
| `FieldMerge.ReadFieldsStatic` | cpp/inc/bond/core/parser.h:258-306 | For any payload order the compile-time loop reports exactly the join of schema and payload, as that loop takes it: a payload field is known if it is not smaller than all before it, and an absent field is reported where the loop first comes to it |
| `FieldMerge.ReadFieldsTagged` | cs/src/core/expressions/TaggedParser.cs:84-123 | The same for the loop the C# parser generates, with any identifier in the stop marker of the level |
| `FieldMergeLaws.PayloadOrder` | cpp/inc/bond/core/parser.h:340-381 | Every payload field gets exactly one event, known or unknown, in payload order |
| `FieldMergeLaws.RuntimePartition` | cpp/inc/bond/core/parser.h:340-381 | For any payload order every schema field is either used up by the first payload field not smaller, or omitted exactly once and never known; used up, it is known if and only if the payload's type is the same or none of struct, list, set and map |
| `FieldMergeLaws.StaticPartition` | cpp/inc/bond/core/parser.h:258-323 | For any payload order, at compile time: a payload field is known as a schema field if and only if the identifiers are equal, no field before it is greater, and the types are equal or neither is a struct, list, set or map; and a schema field is omitted, once, if and only if the first payload field that is not smaller is another and the loop has just come to it |
| `FieldMergeLaws.TaggedPartition` | cs/src/core/expressions/TaggedParser.cs:84-123 | For any payload order and any identifier in the stop marker, in the C# loop: a schema field is known exactly by the first payload field that is not smaller, if equal; otherwise it is reported omitted if and only if the loop first considers it there or the level ends there with a marker that is not beyond it |
| `FieldMergeLaws.SameData` | cs/src/core/expressions/TaggedParser.cs:84-123 | All three loops report the same known and unknown fields in the same order, for any payload order; the compile-time loop agrees with the others as long as no identifier occurs twice |
| `FieldMergeLaws.RepeatsDiffer` | cpp/inc/bond/core/parser.h:258-306 | A repeated field, of which the compile-time loop makes two known fields and the others one |
| `FieldMergeLaws.OmittedSubset` | cpp/inc/bond/core/parser.h:258-306 | What the C# loop reports omitted the run-time loop does, for any payload; what the compile-time loop does the C# loop does, for ascending payloads |
| `FieldMergeLaws.OrderMatters` | cpp/inc/bond/core/parser.h:258-306 | A payload out of order, on which the compile-time loop reports a field that the C# loop passes over |
| `FieldMergeLaws.OmittedExactly` | cpp/inc/bond/core/parser.h:288-293 | An absent field is reported exactly once unless an unknown field stands between it and the schema field before it (and, in C#, some field comes after it or the stop marker is beyond it); then not at all |
| `FieldMergeLaws.SameEvents` | cpp/inc/bond/core/parser.h:258-306 | A loop behaves like the run-time loop if and only if no absent field is so overlooked |
| `FieldMergeLaws.NoUnknownFields` | cpp/inc/bond/core/parser.h:258-306 | In particular on payloads without unknown fields |
| `FieldMergeLaws.MayOverlook` | cs/src/core/expressions/TaggedParser.cs:103-107 | A concrete payload on which both loops pass a missing field without reporting it |
| `Required.LevelIsMerge` | cs/src/core/expressions/TaggedParser.cs:84-123 | Deserializing a level, its fields in any order and any identifier in its stop marker, is exactly listening to the events of the C# merge loop: assigning on known, raising on an omitted required field, nothing else |
| `Required.MissingRequired` | cs/src/core/expressions/DeserializerTransform.cs:217-231 | Decoding a level whose fields are otherwise fine, with any identifier in its stop marker, raises an exception if and only if some required field is missing and not overlooked by the loop |
| `Required.MissingUnnoticed` | cs/src/core/expressions/TaggedParser.cs:103-107 | A concrete payload that lacks the schema's one required field and is read without an exception |
| `Failures.DecodeFails` | cs/src/core/expressions/DeserializerTransform.cs:195-239 | A value has no meaning for a type if and only if, at some level of the object or of one nested in it, it has too few levels, a value has a type that does not fit, or a required field is absent and the loop considers it there; for payload fields in any order and stop markers with any identifiers. All but too few levels are exceptions |
| `StopMarkers.StopHides` | cs/src/core/expressions/TaggedParser.cs:88-111 | Exactly what the identifier of a stop marker does, fields being in ascending order: the first field of the schema beyond the last field of the level need not be there, if that last field is not in the schema and the identifier is beyond it; nothing else changes |
| `StopMarkers.HarmlessDecodes` | cs/src/core/expressions/TaggedParser.cs:84-123 | Markers whose identifier is at most one more than that of the field before them change nothing, at any level of a value or of one nested in it, for any schema; and what is read without identifiers is read the same with any |
| `StopMarkers.WrittenQuiet` | cs/src/core/protocols/CompactBinary.cs:229-233 | In no encoding of a value, nested ones included, is there a marker that could hide a field |
| `RequiredFields.FirstMissing` | cs/src/core/expressions/pull/PullParser.cs:80-131 | After any sequence of names an exception is raised if and only if some required field is absent or hidden by a later one of its name; the qualified name it has is that of the first such, through bitmap and list of names |
| `RequiredFields.HiddenField` | cs/src/json/expressions/json/SimpleJsonParser.cs:242-290 | A struct with a required field that a field of its base hides: every payload raises the exception |
| `RequiredFields.Bitmap.constructor` | cs/src/core/expressions/RequiredFields.cs:53-63 | Exactly the bits below the count are set, in 64-bit words |
| `RequiredFields.Bitmap.Mark` | cs/src/core/expressions/RequiredFields.cs:31-36 | Clears the bit of the field and no other |
| `RequiredFields.Bitmap.IsAnySet` | cs/src/core/expressions/RequiredFields.cs:65 | Holds exactly when some bit is set |
| `RequiredFields.Bitmap.FirstSet` | cs/src/core/expressions/RequiredFields.cs:67-79 | Finds the least bit that is set |
| `RequiredFields.HandlerIsLast` | cs/src/core/expressions/xml/SimpleXmlParser.cs:92-138 | The nested tests a parser is built of select the last field of a name |
| `CappedAllocator.MemoryBound` | cpp/inc/bond/ext/capped_allocator.h:155-203 | In every interleaving of any number of threads, at every step, live bytes plus the counter's own are at most its value, which is at most the limit; the assertion in subtract never fails; and the effects in order are a run of the sequential counter |
| `CappedAllocator.Quiescence` | cpp/inc/bond/ext/shared_counter.h:184-198 | When no thread is in the allocator, the counter is exactly the live bytes plus its own storage |
| `AllocatorOutcomes.BlocksKept` | cpp/inc/bond/ext/capped_allocator.h:155-203 | In every interleaving the blocks in use are exactly those obtained and not given back, and a block is obtained exactly when a request has been granted and the underlying allocation succeeds |
| `AllocatorOutcomes.AllocateAlone` | cpp/inc/bond/ext/capped_allocator.h:155-172 | From any reachable state, a thread that allocates n bytes and is not interfered with has left the allocator after seven moves more: with one more block of n bytes and the value up by n if that fits under the limit and the underlying allocation succeeds, and with value and blocks as they were if not |
| `AllocatorOutcomes.DeallocateAlone` | cpp/inc/bond/ext/capped_allocator.h:195-203 | Giving a block back removes it and, if freeing subtracts, takes its bytes off the value |
| `AllocatorOutcomes.EndsAlone` | cpp/inc/bond/ext/multi_threaded_counter.h:35-61 | Wherever a thread is in the allocator, whatever others have done so far, left alone it leaves within seven moves with the outcome its request has come to |
| `AllocatorOutcomes.NeverStuck` | cpp/inc/bond/ext/multi_threaded_counter.h:35-61 | A thread inside the allocator can always move |
| `CappedAllocator.StepLinear` | cpp/inc/bond/ext/multi_threaded_counter.h:35-61 | Each operation takes effect at one moment between call and return, with the result the sequential counter gives there, spurious exchange failures included |
| `CappedAllocator.StepBalanced` | cpp/inc/bond/ext/multi_threaded_counter.h:35-61 | Every step keeps all bytes on the counter accounted for, and no step fails the assertion |
| `CappedAllocator.RunHolds` | cpp/inc/bond/ext/capped_allocator.h:155-203 | Both invariants hold along every schedule |
| `CappedAllocator.Allocate` | cpp/inc/bond/ext/capped_allocator.h:155-172 | An allocation succeeds exactly when it fits and the underlying one succeeds, and is charged exactly then |
| `CappedAllocator.AllocateCounter` | cpp/inc/bond/ext/shared_counter.h:184-198 | A shared counter is created exactly when its storage fits under its own limit, and starts charged with it |
| `CappedAllocator.SingleThreadedCounter.TryAdd` | cpp/inc/bond/ext/single_threaded_counter.h:32-41 | Adds exactly when the sum stays within the limit |
| `Generator.DeserializerTransform.Generate` | cs/src/core/expressions/DeserializerTransform.cs:134-141 | Generation ends on every schema graph, every slot is filled with code for its struct, and calling the first function decodes every payload as direct decoding does, with or without inlining |
| `Generator.DeserializerTransform.Deserialize` | cs/src/core/expressions/DeserializerTransform.cs:143-193 | The code for a nested struct is good code for it, inlined exactly if inlining is on, the struct is nested and is not in progress, and otherwise a call of its own slot, new if it had none; slots added on the way are complete, the others untouched, and the stack of structs in progress is as before |
| `Generator.ExecDecodes` | cs/src/core/expressions/DeserializerTransform.cs:195-239 | Good code with a complete table does what direct decoding of the schema does, on every value |
| `Generator.CodeKept` | cs/src/core/expressions/DeserializerTransform.cs:158-176 | Indices in code that has been generated stay right while more functions are added |
| `Levels.SlicedEnough` | cs/src/core/expressions/DeserializerTransform.cs:195-239 | What is written from an object of a derived type, whichever of its fields are left out, nested ones included, has all the levels that reading it into any of its bases looks for |
| `TaggedParser.ReadValue` | cs/src/core/expressions/TaggedParser.cs:133-192 | Reading by schema from the bytes of a tagged payload: wherever a value stands that decoding, with the identifiers in its stop markers, gives a meaning, it has the same effects and the reader ends exactly where parsing the value ends. Where decoding gives none the read fails, if each struct that is read, fields the schema does not have aside, has as many levels as the struct it is read into |
| `TaggedParser.ReadStruct` | cs/src/core/expressions/TaggedParser.cs:61-131 | The same for a struct: all its levels, with the cursor just past BT_STOP although the payload has more levels or fields than the schema |
| `TaggedParser.ReadRest` | cs/src/core/expressions/TaggedParser.cs:84-123 | The generated loops over the known and the unknown fields of a level do on the bytes, from any field of the schema on, what decoding with the identifiers of the markers, those of nested structs included, does on the value |
| `TaggedParser.Deserialize` | cs/src/core/expressions/TaggedParser.cs:61-131 | Wherever the structs that are read have levels enough, an exception is raised if and only if the value fails, with the identifiers its markers carry, at some level or nested; otherwise the effects are those of decoding with them and the reader ends behind the struct. For the encoding of whatever is written from an object of the type or of a derived one, required fields left out or not, an exception is raised if and only if the value fails, and otherwise the effects are those of `Decode` |
| `TaggedParser.MissingNested` | cs/src/core/expressions/DeserializerTransform.cs:217-231 | An object of a derived struct, written in any protocol without a required field of a struct nested in it, raises an exception |
| `TaggedParser.HiddenField` | cs/src/core/expressions/TaggedParser.cs:103-107 | A Compact payload whose stop marker carries an identifier, read into a struct with a required field that is missing: noticed if and only if the identifier is not beyond the field |
| `TaggedParser.ReadBase` | cs/src/core/expressions/DeserializerTransform.cs:195-239 | Wherever a payload has the encoding of a value of a derived type, it is read into any of its bases, and the reader ends just past the whole value |
| `Conversions.ScalarConverts` | cs/src/core/expressions/TaggedParser.cs:215-277 | A number or string is read into a scalar of another type if and only if that is an integer type of the same kind, signed or not, and no smaller width, or double where the payload has float; its value stays as it is |
| `Conversions.ByWidth` | cs/src/core/expressions/TaggedParser.cs:224-277 | The same condition in terms of kind and width |
| `Conversions.KindsDiffer` | cs/src/core/expressions/TaggedParser.cs:133-192 | Scalars, structs, containers and maps are never read into one another |
| `Conversions.ListConverts` | cs/src/core/expressions/TaggedParser.cs:133-148 | For the items of a list or set the same, even if there are none |
| `Conversions.MapConverts` | cs/src/core/expressions/TaggedParser.cs:150-167 | The same for keys and values of a map |
| `Conversions.ReadWidened` | cs/src/core/expressions/TaggedParser.cs:174-192 | From the bytes, in any protocol: the encoding of a number or string is read into a scalar exactly if its type converts, and to its end |
| `Conversions.ReadWidenedList` | cs/src/core/expressions/TaggedParser.cs:133-148 | From the bytes, in any protocol, a list of scalars of any length |
| `Objects.ReadBack` | cs/src/core/expressions/DeserializerTransform.cs:195-239 | Whatever is written from an object, in any tagged protocol and with any fields left out, is read into its type or any base of it if and only if no required field of that is left out, nested ones included; and then the object that the effects make is the one that was written, as far as its levels are those of the base |
| `Objects.Restored` | cs/src/core/expressions/DeserializerTransform.cs:195-239 | For any type, the effects of decoding what was written from an object rebuild that object and nothing else |
| `Objects.SliceRestored` | cs/src/core/expressions/DeserializerTransform.cs:195-239 | Decoded as a base, the effects rebuild the root-most levels, as many as the base has |
| `Objects.MadeReads` | cs/src/core/expressions/DeserializerTransform.cs:217-231 | What is written from an object is read exactly if no required field is left out, so that the documentation's promise holds for it |
| `Objects.SimpleBack` | cs/src/core/expressions/UntaggedParser.cs:70-106 | The same round trip in both versions of Simple Binary, for values with all fields, each nested struct read by its own schema |
| `Slicing.Slice` | cs/src/core/expressions/UntaggedParser.cs:70-106 | Any value of a derived type, in Simple Binary, is read into any of its bases if each nested struct is read by its own schema: the read succeeds, gives what the tagged parser gives and ends just past the value |
| `Slicing.BaseType` | cs/src/core/expressions/DeserializerTransform.cs:195-239 | A payload of a derived struct is always read into each of its bases, required fields or not |
| `Slicing.OwnType` | cs/src/core/expressions/DeserializerTransform.cs:195-239 | Every value of a type is read into that type |
| `Slicing.ReadAgrees` | cs/src/core/expressions/UntaggedParser.cs:70-106 | For any two schemas, each nested struct read by its own: what the tagged parser can read of a value of the payload schema is read from Simple Binary with the same effects in the same order, ending just past the value |
| `Slicing.ReadStructAgrees` | cs/src/core/expressions/DeserializerTransform.cs:195-239 | The same for a struct whose hierarchy is at least as deep as the target's |
| `SlicedRuns.ReadSlice` | cs/src/core/expressions/DeserializerTransform.cs:143-193 | The generated functions for reading a derived struct into its base read every payload rightly, with the effects of `Decode` and to its end, if and only if the two are the same, or a value of the base cannot have another one inside, or the levels beyond the base take no bytes; with or without inlining |
| `SlicedRuns.MisreadChild` | cs/src/core/expressions/DeserializerTransform.cs:158-162 | A payload with a nested base that the generated functions read four bytes too far |
| `DefaultRuns.RunDefault` | cs/src/core/expressions/UntaggedParser.cs:70-106 | Generated code for a default value ends no earlier than the value; later if it has one of the sliced base inside; and otherwise exactly behind it |
| `SlicedCode.CompileSlice` | cs/src/core/expressions/DeserializerTransform.cs:143-193 | Every call in the functions for a slice is of a function made for the struct in the payload if and only if the two structs are the same or the base cannot have itself inside |
| `UntaggedGenerator.Compile` | cs/src/core/expressions/DeserializerTransform.cs:134-193 | For any two schemas, generation ends; if every call is of a function made for the struct in the payload, the functions read each struct by its own schema, on any bytes. That is so exactly when it is in the walk over the two schemas that generating makes, with or without inlining; if no target struct meets two payload structs; and, without inlining, only then |
| `UntaggedGenerator.UntaggedTransform.Generate` | cs/src/core/expressions/DeserializerTransform.cs:134-141 | Every slot is filled, no target struct has two, and each call is of a function made for the struct in the payload if and only if the walk over the schemas says so |
| `UntaggedGenerator.UntaggedTransform.Deserialize` | cs/src/core/expressions/DeserializerTransform.cs:143-193 | The code for a nested struct is inlined or calls the slot of the target struct; slots added on the way are the planned ones and complete, the others untouched, and the stack is as before |
| `UntaggedCode.ExecReads` | cs/src/core/expressions/DeserializerTransform.cs:195-239 | Code whose calls are right does on any bytes what reading each struct by its own schema does, failures included |
| `Slicing.FieldKinds` | cs/src/core/expressions/UntaggedParser.cs:93-106 | From Simple Binary a field is read only into one of its own kind, a container only into one of the same type |
| `Slicing.RootMost` | cs/src/core/expressions/TaggedParser.cs:61-131 | What is read depends on the root-most levels only, as many as the target has |
| `SimpleBinary.SkipEnds` | cs/src/core/expressions/UntaggedParser.cs:176-264 | Skipping by schema ends just past the value, byte lists in one step included |
| `SimpleBinary.ScalarRoundTrip` | cs/src/core/protocols/SimpleBinary.cs:435-652 | Scalars and strings of both versions are read back and skipped exactly |
| `SimpleFormat.CountBytes` | cs/src/core/protocols/SimpleBinary.cs:27-50 | Counts are four bytes, least significant first, and variable-length in version 2 |
| `SimpleFormat.ScalarBytes` | cs/src/core/protocols/SimpleBinary.cs:18-34 | Byte i of a number of any width is digit i to base 256 of its pattern; strings have the number of their code units before them |
| `SimpleFormat.ContainerBytes` | cs/src/core/protocols/SimpleBinary.cs:37-50 | Count, then the items, or keys and values in turn |
| `SimpleFormat.StructBytes` | cs/src/core/protocols/SimpleBinary.cs:6-16 | The values of the fields, base first, and nothing else |
| `SchemaTable.Cache.GetSchema` | cs/src/core/Schema.cs:78-154 | Construction ends on every type graph; the table lists the smallest set of structs that has the root and is closed under references, each once, every index is in range and names the struct meant, and to a reader of the table every entry has the base, the identifiers and the types of the fields of its struct |
| `SchemaTable.Cache.GetTypeDef` | cs/src/core/Schema.cs:108-154 | To a reader of the table the definition returned stands for the type, bonded or not, key and value of maps in their places, nullable types as lists and blobs as lists of int8; entries added on the way are complete and only of structs it leads to |
| `SchemaTable.DescribedMeans` | cs/src/core/Schema.cs:108-154 | Turning a definition and the table back into a type gives the type that the definition describes |
| `SchemaTable.DescribedStructMeans` | cs/src/core/Schema.cs:78-106 | The same for an entry: its base and its fields, in order |
| `SchemaTable.StillDescribes` | cs/src/core/Schema.cs:108-154 | Definitions stay right while the table grows |
| `Containers.ReadInto` | cs/src/core/expressions/DeserializerTransform.cs:345-382 | For any initial array, new or reused, the result is exactly the payload's elements in order; fails exactly when the length to grow to overflows 32 bits |
| `Containers.ReadArray` | cs/src/core/expressions/DeserializerTransform.cs:470-484 | The same for any cap on preallocation |
| `Containers.ReadBlob` | cs/src/core/expressions/DeserializerTransform.cs:309-343 | The same for blobs read byte by byte, as a segment of the array |
| `Containers.ReachesSmall` | cs/src/core/expressions/DeserializerTransform.cs:345-368 | Up to 2^30 elements no initial length makes reading fail |
| `Containers.ReachesExactly` | cs/src/core/expressions/DeserializerTransform.cs:345-368 | Reading succeeds if and only if there is room already, or doubling the length, taken as 32 at least, gets to the count within 2^31 - 1 |
| `Containers.BlobReachesExactly` | cs/src/core/expressions/DeserializerTransform.cs:309-343 | The same for blobs, with 512 in place of 32 |

## Left out

- Lockstep.TwoPasses: says nothing about structs of 2^32 bytes or more, whose length the 32-bit prefix of version 2 cannot hold.
- RoundTrip.ValueRoundTrip: for version 2 the payload is below 2^32 bytes, for the same reason.
- Grammar.ParseValue: a count that reads as a negative integer and a struct prefix other than the true length are not in the grammar; on such payloads the theorems about reading, skipping and transcoding say nothing.
- Reader.TaggedReader.Skip: a negative bulk skip, which the source performs backwards, is an exception here.
- Reader.TaggedReader.ReadNum: takes its result from the functions of `Input`, whose agreement with the decoders is proved there, rather than repeating the branches of each type.
- Reader.TaggedReader.VarInt: likewise.
- Calls.CallsOf: calls without effect in the tagged writers (base begin, field end, field omitted, container end) are not listed; the three writers and the three readers are one class each with the protocol as a constant.
- PassZero.SameLengths: strings are below 2^32 bytes; the growth of the C++ array behind the stack and the lengths is not modelled.
- Deserialization.Decode: a payload with fewer levels than the schema has no meaning. Conversions between compatible scalar types keep the value as it was read.
- TaggedParser.ReadValue: where a struct in the payload has fewer levels than the struct it is read into, the code goes on behind it, and nothing is said.
- Generator.ExecDecodes: does not distinguish filling an object that is already there from creating it, which is where an inlined struct differs from a called one.
- Slicing.Read: nested structs use up fuel, since a struct without fields takes no bytes; agreement is proved whenever the fuel is at least the size of the value. All fields of the payload are written, since a tagged payload that omits a field leaves the target's own default. Where the tagged parser cannot read a value into an unrelated target, nothing is said of the untagged one.
- FieldMergeLaws.OmittedExactly: payload fields are in ascending order; for other orders `TaggedPartition` and `RuntimePartition` say when a field is reported.
- RequiredFields.FirstMissing: names are as the parser compares them, attributes and namespaces applied; the tokens of JSON and XML and the values of fields are left out.
- UntaggedGenerator.Compile: where a call is of a function made for another struct, which payloads are read wrongly is said for slices only, by `SlicedRuns.ReadSlice`. Code for passing over values is `SimpleBinary.Skip`: it is kept by the struct in the payload. A schema in which, say, a struct stands for a list, on which generation itself fails, is an exception when reading.
- SlicedRuns.ReadSlice: schemas are `Grounded`, that is, no struct has itself as a field without a container in between; objects of others cannot be created.
- Skipper.CompactReader.SkipType: counts above 2^31 - 1, which only C++ takes as unsigned, are not in the grammar; the buffer is below 2^31 bytes.
- InputBuffer.Stream.GenericReadVariableUnsigned: a shift beyond the width of the type, which only overlong encodings cause, is taken as arithmetic modulo the width.
- CappedAllocator.Step: sizes are byte counts, without the multiplication by the element size; the counter is a single atomic location; reference counting and destruction of the shared counter are left out.
- SchemaTable.Cache.GetSchema: metadata is the qualified name; there are at most 2^16 structs.
- MemoryStream.OutputMemoryStream.Write: after a failed allocation the size is wrong and the next write would go beyond the buffer; operations on a stream in that state are not modelled.
- MemoryStream.OutputMemoryStream.GetBuffer: the allocation of the merged buffer does not fail.
- Containers.ReadInto: the block copy of byte arrays and containers other than arrays are left out.
- Floating-point numbers and characters of strings are opaque bytes; `maybe`, nullable and enum types appear as what they are on the wire.
- The memo table of the serializer generator, DOM, JSON and XML protocols beyond the check of required fields, protocol magic, `Merger` and `MapTo` are left out.
- Streams behind the readers and writers are byte sequences in memory; writing to them does not fail.
