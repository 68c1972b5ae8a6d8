# Frugal in Dafny

A model of Frugal, a codec for the Thrift Binary Protocol that works on Go structs by
reflection, and proofs of what its parts promise. `dafny verify dfyconfig.toml` checks it.

There are three parts.

**The codec.** `Schema` holds types, values and struct descriptors; struct types are names
in a schema, so that structs may contain each other and themselves. `Wire` says which bytes
a value becomes, `Skip` and `Reference` how the protocol reads bytes, `Decoding` what the
decoder computes: the same checks in the same order, a depth budget, and the outcomes Ok,
Err and Panic. `Codec` states the laws that connect them, on the lemmas of `ReadingBack`,
`SelfDelimiting`, `DepthBudget` and `TypedReading`. `Passthrough` and `HopLimit` treat
unknown fields of one struct, `Evolution` and `EvolvedHop` those of all structs of an older
schema, `RequiredFields` the check for required fields, `Truncation` and `WholeMessages`
panics, `ErrorOffsets` errors, `LengthChecks` the lengths of containers, `MapLaws` entries
with equal keys, `Omission` the fields that are left out, and `Emission` the order of those
that are not. `FastPaths` says what the registered list and map writers write. `Encoder`,
`EncodedSize` and `Decoder` are the code itself: methods that grow a byte slice, add up
sizes, and move an index through the buffer, each proved against the functions above;
`EndToEnd` runs them after each other. `GoSlice`, `Bitsets` and `UnknownFields` are the
objects they change.

**The descriptors.** `TagParser` and `TagScanner` parse the types in struct tags, `Grammar`
and `TypeNames` say which tags they accept, `NestedPointers` where they panic, `FieldTypes`
and `Layout` what the codec makes of a parsed type. `Descriptors` builds the tables of one
struct, `DescGraph` builds the descriptors of struct types that refer to each other,
`FetchOrder` says in which order. `DescMap` and `DescMapRuns` publish them in a map that is
read without a lock, `DescMapProgress` shows that its calls end.

**The allocator.** `Span` cuts aligned pieces from blocks, on the arithmetic of `Alignment`.

Terms used below:

- *typed*: a value of its Go type; strings, lists and maps are shorter than 2^31 and enums
  fit in an int32. Scalars are bit patterns, doubles included; their comparison with a
  default follows Go, so that -0.0 equals 0.0 and NaN equals nothing. The entries of a map
  are listed in one iteration order, and nothing is assumed about that order.
- *canonical*: nothing that is on the wire is nil, every field that is left out holds the
  value that a fresh struct has there, and every bool that a map writer branches on is 0
  or 1.
- *normal form*: what a round trip makes of a value. A nil list, map or binary on the wire
  becomes empty, a nil struct becomes the default struct, a field that is left out becomes
  what the target holds, a bool that a map writer branches on becomes 0 or 1.
- *plain*: scalars, strings and binary. A map writer for two plain types ranges over the map
  as one of its own Go map type and writes bools through a branch.
- *settled*: none of the maps of a value is in the middle of growing. Ranging over a growing
  map consults the hash function of its key type, which for doubles is another one than that
  of the Go map type that the writer ranges over.
- *read in place*: a map whose entries the registered writer finds in their slots.
- *older*: a struct descriptor that keeps unknown fields and has some of the fields of
  another one, with the same types and defaults.
- *restorable*: no struct with required fields is nil on the wire. Such a struct is written
  as a bare STOP and fails the check for required fields when it is read.
- *cost*: the depth budget that a value takes. A struct costs 1 more than its fields, and
  one level more behind a pointer; a container or a string costs 1 more than its parts;
  scalars and nocopy strings cost nothing.

Where the code and its comments disagree the model follows the code. Tags may give field IDs
up to 65535, but building the descriptor of a struct with that ID panics
(`Descriptors.Tables.FromDefsFields`). The comment at internal/reflect/ttype.go:162 says that
newTType always succeeds, but it panics on pointers to pointers; the tag parser, which runs
first, already does, exactly where `NestedPointers.PanicsIff` says. The decoder does not
return an error on every message: `WholeMessages.EmptyMessagePanics` gives the least message
that runs over the end of the buffer, and `WholeMessages.WholeMessage` the condition under
which none does.

## Model

| member | source | states |
|---|---|---|
| `Codec.RoundTrip` | internal/reflect/decoder.go:66-140 | into a target that holds the defaults, an encoded struct decodes to the identical struct and exactly its length, whatever follows it and in whatever order its maps were written, if and only if it is canonical and its cost is within the depth budget. The encoding is that of `Wire`, bools in maps as appendMapBool writes them; the methods of `Encoder` write it for all values whose maps are read in place |
| `Codec.RoundTripInto` | internal/reflect/decoder.go:66-140 | the same for every typed value and any target: decoding succeeds if and only if no struct with required fields was nil on the wire and the budget covers the cost, and then overwrites the target with the normal form of the value, in which a bool that appendMapBool branched on is 0 or 1; over budget it reports the depth limit |
| `EndToEnd.EncodeAndDecode` | frugal.go:33-46 | the methods one after the other, for values whose maps, where they have entries, are read in place and each entry once: a struct that fits into the buffer comes back identical in an object that held the defaults, whatever else the buffer holds, if and only if it is canonical and its cost is at most 1023 |
| `EndToEnd.DecodeObject` | internal/reflect/reflect.go:87-107 | the decoder is run on the whole buffer under the limit of 1023 and leaves in the object what the specification says |
| `Codec.NormFixesCanonical` | internal/reflect/append.go:27-69 | the normal form (nil list, map or binary as empty, nil struct as the default struct, omitted field as the default, branched bools as 0 or 1) leaves exactly the canonical values unchanged |
| `Codec.MapFixed` | internal/reflect/append_map_fast.go:23-28 | a map comes back identical if and only if all its entries are canonical, bools that appendMapBool branches on included; no entry can be lost to a key that collides |
| `Codec.EncodingPrefixFree` | internal/reflect/append.go:21-78 | no encoding of a canonical struct, whose branched bools are 0 or 1, is a prefix of the encoding of another one, and equal encodings come from equal values |
| `Codec.DecoderIsReader` | internal/reflect/decoder.go:168-180 | the decoder accepts exactly what the reference reader without pre-checks and without budget accepts, for every input and every budget: same value and length within the budget, the depth limit above it |
| `Codec.BudgetMonotone` | internal/reflect/decoder.go:67-69 | a larger budget never changes the result of a message that was accepted |
| `Codec.SelfDelimits` | internal/reflect/decoder.go:86-139 | an accepted message of n bytes gives the same result with any other bytes behind it, and no proper prefix of it is accepted |
| `Truncation.PanicIsTruncation` | internal/reflect/decoder.go:86-113 | with enough zero bytes behind it a panicking message has another outcome, which is no panic; a message that is accepted, or refused for depth, a negative size, a wrong type or a missing field, keeps its outcome whatever follows |
| `Truncation.PaddingEndsPanic` | internal/reflect/decoder.go:86-113 | every message can be extended to one that does not panic, by a number of zero bytes that its length bounds |
| `WholeMessages.WholeMessage` | internal/reflect/decoder.go:86-139 | a message that the protocol's own skipping accepts as one struct never makes the decoder panic, whatever the schema, the target and the budget; every message that the decoder accepts is one of these, and ends where skipping ends |
| `WholeMessages.EmptyMessagePanics` | internal/reflect/decoder.go:86-87 | the decoder does panic: on the empty message, for every struct and every positive budget |
| `WholeMessages.CutMessagePanics` | internal/reflect/decoder.go:86-97 | an accepted message that is cut off behind one of its fields, or within the header of the next one, panics |
| `WholeMessages.WithoutLastByte` | internal/reflect/decoder.go:86-92 | every accepted message ends with a STOP byte, and without this byte it panics |
| `WholeMessages.CutExactly` | internal/reflect/decoder.go:86-107 | for a struct that knows none of the fields, the messages cut off in these ways are all that panic |
| `Codec.ChainOf512` | internal/reflect/decoder.go:31-31 | under the limit of 1023 a chain of k nested structs decodes back if and only if k is at most 512, and otherwise reports the depth limit |
| `Codec.ChainCost` | internal/reflect/decoder.go:418-433 | k nested structs cost 2k - 1, since a struct behind a pointer uses two levels |
| `ReadingBack.ValueReadsBack` | internal/reflect/decoder.go:214-434 | a written value of any type reads back as its normal form with its exact length and cost, or not at all if a struct with required fields is nil in it |
| `ReadingBack.StructReadsBack` | internal/reflect/decoder.go:66-140 | the same for a struct read over any target: fields on the wire replace, others stay |
| `ReadingBack.EntriesReadBack` | internal/reflect/decoder.go:305-338 | map entries read back one by one in the order in which they were written |
| `ReadingBack.PutAllDistinct` | internal/reflect/decoder.go:337-337 | inserting entries with distinct keys keeps all of them in order, so that a map is restored whatever its iteration order |
| `ReadingBack.MapKeepsEntries` | internal/reflect/decoder.go:305-338 | a map whose branched bool keys are 0 or 1 comes back entry by entry in the order of its iteration |
| `ReadingBack.FixedReadsBack` | internal/reflect/decoder.go:142-162 | every scalar in range is written and read back bit by bit, enums through 32 bits with sign extension |
| `ReadingBack.EnumOutsideInt32IsLost` | internal/reflect/append.go:55-56 | an enum survives if and only if its value fits in an int32 |
| `ReadingBack.UnknownReadsBack` | internal/reflect/append.go:71-77 | re-emitted unknown fields are collected again, byte for byte |
| `SelfDelimiting.ReadStructLocal` | internal/reflect/decoder.go:86-139 | what is read from a message depends on the bytes it consumes and on no others |
| `SelfDelimiting.ReadValueSkips` | internal/reflect/decoder.go:96-107 | skipping a value by its wire type consumes exactly the bytes that decoding it consumes |
| `SelfDelimiting.MinWireSizeBound` | internal/reflect/decoder.go:164-180 | every value that can be skipped takes at least the bytes that minWireSize lists for its wire type |
| `SelfDelimiting.SkipPairsBound` | internal/reflect/decoder.go:271-276 | l entries take at least l times the sum of the minimal sizes of key and value |
| `DepthBudget.StructMeets` | internal/reflect/decoder.go:66-140 | the decoder meets the reference reader at every budget: pre-checks reject nothing that could be read, and accepted means cost within budget |
| `DepthBudget.ElemsFit` | internal/reflect/decoder.go:377-382 | the floor-division check of a list length passes whenever the elements can be read |
| `DepthBudget.EntriesFit` | internal/reflect/decoder.go:271-276 | the floor-division check of a map length passes whenever the entries can be read |
| `LengthChecks.MinWireSizeIsLeast` | internal/reflect/decoder.go:164-180 | for the wire type of every type the table lists the least length of a value: some bytes of that length are skipped as one, and none that are shorter |
| `LengthChecks.ListLengthCheck` | internal/reflect/decoder.go:377-382 | behind a sound header of a positive length a list or set is refused at offset 5, before any element, if and only if no bytes as many as are left could be its elements; otherwise its elements are decoded |
| `LengthChecks.MapLengthCheck` | internal/reflect/decoder.go:271-276 | the same for a map, at offset 6 |
| `TypedReading.ReadStructTyped` | internal/reflect/decoder.go:66-140 | whatever bytes are accepted, the result is a well-formed value: lengths, ranges, distinct map keys, unknown fields that the struct really does not know |
| `TypedReading.MapPutDistinct` | internal/reflect/decoder.go:337-337 | storing an entry keeps the keys of a map distinct in the sense of Go's == |
| `MapLaws.LastEntryWins` | internal/reflect/decoder.go:278-350 | an accepted map holds exactly those entries on the wire that no later entry with an equal key replaces: as a multiset, and entry by entry each of them alone under its key. Every entry of the map stood on the wire; NaN keys and struct pointers replace nothing |
| `MapLaws.PutAllLasts` | internal/reflect/decoder.go:343-343 | the same for any map that the entries are stored into: its own entries stay unless one of them is replaced |
| `MapLaws.KeyEquality` | internal/reflect/decoder.go:343-343 | Go's equality of keys: other keys than doubles are equal if they are the same, and struct pointers that are not nil equal nothing |
| `MapLaws.FloatEquality` | internal/reflect/ttype.go:125-131 | equality of doubles by ranges of bit patterns: the same number, which no pattern beyond infinity is, or two zeros |
| `Passthrough.HopDecodes` | internal/reflect/decoder.go:96-107 | a message that decodes with the full schema decodes with an older one that keeps unknown fields, under the same budget; what is encoded from that decodes with the full schema, under a budget at least as large, if and only if no struct with required fields is nil among the known fields and the budget covers the known fields as they are encoded; the bytes passed through matter only under a smaller budget, and the condition is exact there too. The result is the struct of the direct decode with its known fields normalised, and that very struct if and only if they are canonical; otherwise the depth limit is reported |
| `Passthrough.UnknownFieldsSurvive` | internal/reflect/append.go:71-77 | the same on the reference reader: the second read succeeds if and only if no struct with required fields is nil among the known fields, and costs the maximum of the known fields as encoded and of the bytes passed through, which cost no more than in the direct decode |
| `HopLimit.HopLosesALevel` | internal/reflect/append.go:21-25 | the depth condition at work: of messages of k nested structs whose innermost leaves out a field that is not optional, those with k at most 512 decode under the limit of 1023, but what is encoded from them decodes again only for k at most 511 |
| `Passthrough.HopIsIdentity` | internal/reflect/append.go:27-69 | the hop leaves a struct unchanged if and only if its known fields are canonical |
| `Passthrough.FieldsInStep` | internal/reflect/decoder.go:86-126 | both schemas read the same fields over the same bytes; replaying what the older one collected gives what it does not know |
| `Passthrough.OldReads` | internal/reflect/decoder.go:127-135 | the older schema accepts whatever the full one accepts, with the same length and no more depth |
| `EvolvedHop.HopThroughOldSchema` | internal/reflect/decoder.go:66-140 | two whole schemas, in which every struct of the old one is an older form of its namesake and keeps unknown fields, at each level of nesting: a message that decodes with the new schema decodes with the old one under the same budget, and what the old one then encodes decodes with the new one, under a budget at least as large, to the very struct that the message itself gives if and only if what the old schema read is canonical and its cost is within the budget; if only the budget is short, the depth limit is reported |
| `EvolvedHop.HopReads` | internal/reflect/append.go:21-78 | the same on the reference reader, with bounds of the cost from both sides: it is at least that of the struct as encoded, and at most that or the cost of the first read |
| `EvolvedHop.ValueReturns` | internal/reflect/decoder.go:214-434 | each value within a message is read by both schemas over the same bytes; encoded with the old one it comes back with the new one as what the new one had read, in front of anything, if and only if it is canonical |
| `Evolution.StructBack` | internal/reflect/append.go:27-77 | the known fields and the bytes passed through together give the struct of the new schema back if and only if the known fields are canonical |
| `Evolution.MapBack` | internal/reflect/append_map_fast.go:177-188 | the same for the entries of a map with distinct keys, bools that a writer branches on included |
| `Passthrough.FieldsPass` | internal/reflect/decoder.go:96-126 | whatever schema the older struct is read with, the bytes it collects, replayed with the full schema, give exactly the fields it does not know, and cost no more depth than the fields read so far |
| `RequiredFields.RequiredCheckIsExact` | internal/reflect/decoder.go:127-135 | once the fields of a struct have been decoded, the struct is accepted if and only if every required field stood in this very struct with its expected wire type; otherwise the error is reported at its end |
| `RequiredFields.SeenIsPresent` | internal/reflect/decoder.go:86-126 | the fields that the loop marks are exactly those found by walking over the headers of this struct, whatever nested structs contain |
| `ErrorOffsets.StructOutcome` | internal/reflect/decoder.go:66-140 | a struct that is refused is refused for the budget, at the end of a whole message for a missing required field, or at the value of a field that fails, behind whole fields, with the kind of that failure |
| `ErrorOffsets.ListOutcome` | internal/reflect/decoder.go:353-416 | a short, negative or mistyped header of a list or set is reported at offset 0 in this order; any other error is the length check at 5, or stands at an element that fails behind whole ones, with its kind |
| `ErrorOffsets.MapOutcome` | internal/reflect/decoder.go:254-351 | the same for a map: at the key that fails behind whole entries, or at the value that fails behind a whole key |
| `ErrorOffsets.StringOutcome` | internal/reflect/decoder.go:221-252 | each outcome of a string by the four bytes of its size and the length of the buffer |
| `Emission.ValueSkips` | internal/reflect/append.go:80-105 | every encoded value, also one that this decoder would refuse, is skipped by a reader that knows only its wire type, in exactly its length |
| `Emission.StructSkips` | internal/reflect/append.go:21-78 | an encoded struct is one complete struct of the Thrift Binary Protocol |
| `Emission.FieldsAscend` | internal/reflect/append.go:27-77 | the field IDs on the wire are those of the fields not left out, strictly ascending and each found by GetField, followed by the unknown ones |
| `Omission.LeftOutExactly` | internal/reflect/append.go:30-35 | a field of a typed struct takes no bytes if and only if it is optional and is nil, or is optional, the struct has InitDefault and the field is a scalar or string equal to its default |
| `Omission.NilIsLeftOut` | internal/reflect/desc.go:291-292 | an optional field that is nil takes no bytes, whatever its type |
| `Omission.OthersAreWritten` | internal/reflect/append.go:30-37 | a field that is not optional takes at least its header |
| `Omission.DefaultIsLeftOut` | internal/reflect/desc.go:294-305 | an optional field that is not nil takes no bytes if and only if its type is no pointer or container, the struct has InitDefault, and the value equals the default as Go compares it, []byte as strings |
| `Omission.HeaderOnWire` | internal/reflect/append.go:37-40 | a field that is written takes its wire type, the high and the low byte of its ID, and its value |
| `Decoder.TDecoder.Decode` | internal/reflect/decoder.go:66-140 | from an arbitrary dirty bitset and unknown-field list, the loop leaves in the target what the specification says, or reports its error, offset or panic; fewer container slots than consumed bytes are asked for on success, and at most maxdepth * len(b) on every run |
| `Decoder.TDecoder.DecodeType` | internal/reflect/decoder.go:214-434 | the method computes Decoding.DecodeType and stays within the allocation bound |
| `Decoder.TDecoder.DecodeFields` | internal/reflect/decoder.go:86-126 | the loop over the fields, with bitset, unknown-field list and target all in step with the fields read so far |
| `Decoder.TDecoder.DecodeMap` | internal/reflect/decoder.go:254-276 | header, sign, wire types and length checks of a map in this order; `LengthChecks.MapLengthCheck` says which lengths pass |
| `Decoder.TDecoder.FillMap` | internal/reflect/decoder.go:305-351 | the entries are decoded and stored one by one, so that the last one with a key stays (`MapLaws.LastEntryWins`); an error is reported at the offset of the key or value that failed |
| `Decoder.TDecoder.DecodeList` | internal/reflect/decoder.go:353-382 | header, sign, wire type, zero length and length checks of a list or set in this order; `LengthChecks.ListLengthCheck` says which lengths pass |
| `Decoder.TDecoder.FillList` | internal/reflect/decoder.go:384-416 | the slice that was allocated up front holds the decoded elements in order |
| `Decoder.TDecoder.StoreField` | internal/reflect/decoder.go:108-125 | one known field is overwritten and its ID marked, nothing else |
| `Decoder.TDecoder.ClearedBitset` | internal/reflect/decoder.go:70-77 | of a bitset with arbitrary old bits, all required IDs are unmarked |
| `Decoder.TDecoder.TestRequired` | internal/reflect/decoder.go:131-135 | the test over the bitset answers whether all required fields have been seen |
| `Decoder.TDecoder.KeepUnknown` | internal/reflect/decoder.go:136-138 | the collected unknown fields replace those of the target, unless there were none |
| `Decoder.MapRoom` | internal/reflect/decoder.go:271-276 | a map that passes its length check has no more keys and values than there are bytes left |
| `Bitsets.Bitset.Set` | internal/reflect/bitset.go:31-34 | sets one of the 65536 bits and keeps all others |
| `Bitsets.Bitset.Unset` | internal/reflect/bitset.go:36-39 | clears one bit and keeps all others |
| `Bitsets.Bitset.Test` | internal/reflect/bitset.go:41-44 | reads one bit |
| `Bitsets.OneBit` | internal/reflect/bitset.go:31-44 | masking a word with 1 << y or its complement changes bit y and no other bit |
| `UnknownFields.UnknownFields.Copy` | internal/reflect/unknownfields.go:48-58 | fills the buffer exactly with the noted pieces of the message, in their order |
| `UnknownFields.UnknownFields.Add` | internal/reflect/unknownfields.go:39-42 | appends a piece and keeps the total size right |
| `UnknownFields.UnknownFields.Reset` | internal/reflect/unknownfields.go:34-37 | forgets the pieces of the last user |
| `UnknownFields.PiecesLength` | internal/reflect/unknownfields.go:44-51 | the maintained size is the length of the copy |
| `Encoder.EncodeObject` | frugal.go:33-41 | for values whose maps, where they have entries, are read in place and each entry once, it succeeds if and only if the encoding fits into the buffer; then the encoding stands in the caller's own array and everything behind it is untouched. Nil and empty maps of any type are included; for others the writer must find entries in their slots, and the map must be settled or its keys be hashed alike |
| `Encoder.AppendStruct` | internal/reflect/append.go:21-78 | appends exactly the encoding of the struct; a nil struct is a bare STOP |
| `Encoder.AppendField` | internal/reflect/append.go:30-69 | a field is left out, exactly where `Omission.LeftOutExactly` says, or written with its header, by the inlined scalar path or by AppendFunc |
| `Encoder.AppendAny` | internal/reflect/append.go:80-105 | appends exactly the encoding of the value |
| `Encoder.AppendList` | internal/reflect/append_list.go:39-65 | whichever list writer is registered appends the encoding of the list |
| `Encoder.AppendMap` | internal/reflect/append_map.go:50-81 | whichever map writer is registered appends the encoding of the map under its iteration order: a nil or empty map always; another one if its slots agree with those of the Go map type that the writer ranges over, and if it is not in the middle of growing or that type hashes its keys alike |
| `Encoder.AppendEntries` | internal/reflect/append_map.go:43-81 | the header announces the length taken first; whatever the iteration yields, the write succeeds if and only if that length is 0 or equals the pairs iterated, both modulo 2^32; wherever the slot of an entry is, the writer finds that entry in it |
| `GoSlice.Append` | internal/reflect/utils.go:108-135 | append writes behind the slice in place while the capacity lasts, and copies to a new array afterwards |
| `FastPaths.MapWritersWrite` | internal/reflect/append_map_fast.go:30-175 | for all 144 pairs of kinds the registered writer writes the key and value of the encoding, bools between plain types through a branch and others as bytes |
| `FastPaths.FastPathIsGeneric` | internal/reflect/append_map_fast.go:177-188 | a registered writer finds an entry in its slot if and only if it is the first slot or the types are not plain to binary; what it then writes is what the generic path writes if and only if the bools it branches on are 0 or 1 |
| `FastPaths.SeenInPlace` | internal/reflect/append_map_fast.go:255-267 | an entry begins where the writer looks for its slot, at every position, if and only if the slot sizes agree |
| `FastPaths.TwoByteSlices` | internal/reflect/append_map_fast.go:255-267 | in a map from string to binary the second value would be read as a string that starts at a capacity and is as long as an address |
| `FastPaths.ListWriterWrites` | internal/reflect/append_list_fast.go:23-35 | every registered list writer writes elements as the generic path does |
| `FastPaths.ScalarLayout` | internal/reflect/append_map_fast.go:255-267 | the Go map type that a plain writer ranges over has the slots of the actual map if and only if the value is not binary |
| `FastPaths.RangeHashes` | internal/reflect/append_map_fast.go:91-98 | it also has the hash function of the actual map if and only if the key is not a double; `Encoder.AppendMap` rests on it where a map is growing |
| `FastPaths.WhatIsReadInPlace` | internal/reflect/append_map_fast.go:91-98 | a registered writer finds the entries of a map in their slots and comes across each of them once, except for binary values behind a plain key and for double keys with plain values while the map grows |
| `EncodedSize.EncodedSize` | internal/reflect/ttype.go:235-280 | the computed size is the number of bytes that appendStruct appends |
| `EncodedSize.EncodedMapSize` | internal/reflect/ttype.go:282-341 | the same for maps, with multiplication for fixed-size keys or values and iteration for the others |
| `EncodedSize.EncodedListSize` | internal/reflect/ttype.go:343-372 | the same for lists and sets |
| `EncodedSize.FieldSize` | internal/reflect/ttype.go:247-273 | the same for one variable-length field, with the same rules for leaving it out as the encoder |
| `EncodedSize.FixedAndVariable` | internal/reflect/desc.go:218-229 | the precomputed sum for fixed-size fields plus the lengths of the listed others is the length of all fields |
| `EncodedSize.FixedFieldLength` | internal/reflect/desc.go:262-273 | a field with a precomputed length always has that length on the wire |
| `BigEndian.GetPut32` | internal/reflect/utils.go:115-122 | four bytes, most significant first, give the value back modulo 2^32 |
| `BigEndian.GetPut64` | internal/reflect/utils.go:124-135 | eight bytes give the value back |
| `BigEndian.MostSignificantFirst` | internal/reflect/utils.go:108-135 | each byte of an encoded integer, from the most significant one down |
| `Schema.GetField` | internal/reflect/desc.go:188-197 | a field found has the ID asked for; where none is found no field has it |
| `Schema.KnownField` | internal/reflect/decoder.go:96-97 | the field of a header is known exactly if ID and wire type are those of a field |
| `Schema.FindKey` | internal/reflect/decoder.go:337-337 | the entry that SetMapIndex overwrites is one with an equal key, if there is one |
| `Descriptors.DoResolveFields` | internal/defs/resolver.go:148-278 | starting from the Go types and the types in the tags, it succeeds if and only if all tags are well-formed, IDs distinct, types parsed, pointers and options allowed; it returns exactly the declared fields in ascending order of ID. It panics if and only if the first declaration that is not accepted has its ID and requiredness in order and a type on which the parser panics |
| `Descriptors.ResolvedFields` | internal/defs/resolver.go:220-250 | what is returned meets what the codec assumes of its fields if and only if in every declared type pointers lead to scalars, strings or structs and no struct is held by value |
| `Descriptors.DeclaresByGoType` | internal/defs/resolver.go:183-258 | a declaration is accepted if and only if its ID has 16 bits, its requiredness is one of the three, its type is parsed, it is optional or no pointer to anything but a struct, and its options are none, or nocopy alone on a string or []byte or a pointer to one |
| `Descriptors.DeclaredLayout` | internal/defs/resolver.go:225-273 | the codec works on a declared field with the size of its Go type and the wire type of its tag |
| `Layout.ParsedLayout` | internal/reflect/ttype.go:152-173 | for every Go type and every tag that is parsed, the codec's type has the size in memory of the Go type, the wire type that the protocol gives to what the tag names (enums as i32, binary as string), and the length on the wire of its scalars; keys, values and elements keep their places |
| `Layout.SliceWords` | internal/defs/types.go:449-457 | a slice tagged with the word set has wire type 14, with the word list 15 |
| `Layout.ScalarWords` | internal/defs/types.go:311-350 | each word for a scalar, byte for int8 included, is accepted for its kind and gives a type of the size and the wire type of that kind |
| `Layout.ScalarKinds` | internal/defs/types.go:311-350 | without a tag, exactly the signed integers, bool, float64 and string are accepted as scalars |
| `Layout.StructNamesDiffer` | internal/reflect/ttype.go:145-164 | struct types of different packages or names are different in a schema |
| `FieldTypes.FieldTypeIffUniform` | internal/reflect/ttype.go:152-173 | the type that the codec makes of a parsed type is one that it treats uniformly if and only if pointers lead to scalars, strings or structs and no struct is held by value |
| `FieldTypes.ParsedIsWellFormed` | internal/defs/types.go:287-486 | whatever the tag, in a parsed type map keys are of key types, pointers within containers lead to structs, and no pointer leads to a pointer |
| `Descriptors.SortedOrderIsUnique` | internal/defs/resolver.go:276-276 | as the IDs are distinct there is one sorted order, whatever algorithm sorts |
| `Descriptors.Tables.FromDefsFields` | internal/reflect/desc.go:199-230 | succeeds if and only if no field has the ID 65535 (the 16-bit sum overflows and the code panics); the tables are then those of a well-formed descriptor |
| `Descriptors.Tables.FillIndex` | internal/reflect/desc.go:207-217 | fieldIdx maps exactly the IDs of the fields to their positions |
| `Descriptors.Tables.FillLengths` | internal/reflect/desc.go:218-229 | fixed-size sum, variable-length positions and required IDs |
| `Descriptors.GetFieldExact` | internal/reflect/desc.go:188-197 | GetField finds the fields of the struct, each at its position, and nothing else |
| `DescGraph.ClosedIffResolvable` | internal/reflect/desc.go:47-126 | after any history of calls, failed ones included, a call returns a descriptor whose reachable struct types are all linked if and only if every struct reachable from it resolves |
| `DescGraph.ClosedWithoutFailures` | internal/reflect/desc.go:47-126 | as long as no call has failed, every returned descriptor reaches linked struct types only |
| `DescGraph.FailureLeavesTrap` | internal/reflect/desc.go:84-90 | a failed call can leave a link behind through which a later call publishes a descriptor that reaches an unlinked struct type |
| `DescGraph.LinksAreFinal` | internal/reflect/desc.go:117-125 | a link, once set, is never changed by any later calls |
| `DescGraph.HistoryKeeps` | internal/reflect/desc.go:77-126 | in every history, among structs that can be built, what is cached is linked throughout, what is linked is cached, and every descriptor is that of its struct |
| `DescGraph.NewDescKeeps` | internal/reflect/desc.go:77-91 | the depth-first step keeps the white, grey and black invariant, and never fails on a struct whose reachable structs resolve |
| `DescGraph.NewDesc` | internal/reflect/desc.go:77-91 | terminates since the cache grows; on success nothing cached or linked before is changed, on failure no link is |
| `FetchOrder.FieldsInOrder` | internal/reflect/desc.go:93-126 | struct types are built one by one in the order in which the fields mention them, keys in front of values, and what follows the first failure is not touched |
| `DescGraph.Registry.CreateStructDesc` | internal/reflect/desc.go:47-73 | the method changes the package variables as the specification says |
| `DescGraph.CreatePublishes` | internal/reflect/desc.go:58-73 | a call that fails, or that finds the struct published, publishes nothing; another one publishes the descriptor under the struct and under the type of the call, and nothing else |
| `DescGraph.Registry.NewStructDescAndPrefetch` | internal/reflect/desc.go:77-91 | caches before descending and removes the entry again on failure |
| `DescGraph.Registry.PrefetchSubStructDesc` | internal/reflect/desc.go:93-104 | the loop over the fields, up to the first failure |
| `DescGraph.Registry.FetchStructDesc` | internal/reflect/desc.go:106-126 | descends into keys, values and elements and links struct types |
| `DescMap.MapStructDesc.Set` | internal/reflect/descmap.go:57-78 | afterwards the map holds the descriptor for the key and everything else as before; slots stay free of duplicates and foreign keys; no published array is written to |
| `DescMap.MapStructDesc.Get` | internal/reflect/descmap.go:42-53 | returns what the map holds for the key |
| `DescMap.FindAfterPut` | internal/reflect/descmap.go:67-78 | copying the items with one replaced or added is an update of the map |
| `DescMapRuns.GetReadsItsLoad` | internal/reflect/descmap.go:42-53 | in every interleaving of any number of readers with the writer, a Get returns what the map held when it loaded its slot |
| `DescMapRuns.StoreIsTheUpdate` | internal/reflect/descmap.go:57-78 | Set takes effect at the store of the slot, for its key only; no other step changes the map |
| `DescMapRuns.SharedIsImmutable` | internal/reflect/descmap.go:67-78 | no step writes to an array that is published or held by a reader |
| `DescMapRuns.RunKeepsInv` | internal/reflect/descmap.go:24-78 | in every run, slots hold no type twice and no type of another bucket, and the writer's private array is as far as its copying |
| `DescMapProgress.SetTakesEffect` | internal/reflect/descmap.go:57-78 | from every state of every run, a Set that is left to itself ends with the descriptor stored for its key and everything else as it was |
| `DescMapProgress.GetReturns` | internal/reflect/descmap.go:42-53 | a Get that is left to itself ends and returns what the map holds for its key |
| `Span.Span.Malloc` | internal/reflect/span.go:39-55 | the piece is the first aligned free address of the block that is used; a new block has 2048 bytes, or as many as the piece may need; all pieces handed out in the life of the allocator stay in bounds of their blocks, aligned and apart from each other |
| `Span.Memory.Malloc` | internal/reflect/decoder.go:48-54 | requests of at most 256 bytes without pointers come from the span, all others from the heap; a block of 2048 bytes is given up only with at least 1786 of them in use, and the number of blocks is at most 1 + (sum of size + align - 1) / 1786 |
| `Span.CutPiece` | internal/reflect/span.go:50-55 | a piece behind those handed out before keeps all of them safe |
| `Span.OpenBlock` | internal/reflect/span.go:41-49 | a new block apart from the old ones keeps all pieces safe |
| `Span.NoAddressTwice` | internal/reflect/span.go:39-55 | no address belongs to two pieces, and every address of a piece to its block, at a start that its alignment divides |
| `Span.BlockBound` | internal/reflect/span.go:24-49 | the blocks are paid for by the requests |
| `Alignment.LeastPadding` | internal/reflect/span.go:51-54 | ((x + mask) & ^mask) - x is the least padding that aligns x, for every power of two |
| `Alignment.ClearLowBits` | internal/reflect/span.go:53-53 | x & ^(2^k - 1), bit by bit, is x rounded down to a multiple of 2^k |
| `TagParser.PrintParses` | internal/defs/types.go:287-526 | a printed type parses back to itself over its Go type, reading exactly what was printed, at the end of the tag or in front of a colon or a closing bracket |
| `TagParser.PrintParsesWhole` | internal/defs/types.go:232-235 | the same for a whole tag |
| `Grammar.ParsesIffSpelled` | internal/defs/types.go:287-526 | the parser is exactly its grammar: in front of the end of a tag, a colon or a closing bracket, it returns a type and a length if and only if the tokens up to there spell that type over the Go type, qualified names and spaces included |
| `Grammar.ParsedIsSpelled` | internal/defs/types.go:287-486 | whatever follows, what the parser has read spells the type that it returns: no bracket, colon or name is passed over |
| `Grammar.SpelledParses` | internal/defs/types.go:287-486 | every sequence of tokens that spells a type is parsed to it |
| `Grammar.SpaceInFront` | internal/defs/types.go:245-255 | any of the eight bytes that count as spaces may stand in front of a token |
| `TypeNames.QualifiedParses` | internal/defs/types.go:488-526 | for every Go type that has a name, a package, a dot and a word are parsed to their end if and only if the word is the name, unless the package is part of the keyword; any other word is refused |
| `TypeNames.QualifiedStruct` | internal/defs/types.go:511-525 | the same for structs, whose keyword is struct |
| `TypeNames.QualifiedEnum` | internal/defs/types.go:362-376 | the same for enums, whose keyword is i64 |
| `TypeNames.WordParses` | internal/defs/types.go:506-509 | a single word that is no part of the keyword is accepted if and only if it is the name |
| `TagParser.EnumParses` | internal/defs/types.go:362-376 | the name of a type of kind int64 parses to an enum if and only if the type is not the predeclared int64 and the name is no part of the word i64 |
| `TagParser.EnumNamedI` | internal/defs/types.go:367-367 | an enum named i is taken for a plain i64 |
| `NestedPointers.PanicsIff` | internal/defs/types.go:292-310 | there is a tag on which the parser panics for a Go type if and only if it can get to a pointer to a pointer in it: through pointers, keys and elements, and through map values behind a key that it accepts; without a tag, if and only if it gets there without passing a slice |
| `NestedPointers.NestedPointerPanics` | internal/defs/types.go:297-300 | a Go type without any pointer to a pointer never panics, with any tag or none; a pointer to a pointer always does |
| `NestedPointers.TrapPanics` | internal/defs/types.go:292-310 | for every Go type in which a nested pointer can be reached, a tag that reaches it |
| `TagParser.CacheKeyIsSound` | internal/reflect/ttype.go:145-164 | two types parsed from any tags with the same Go type and the same textual form are the same type |
| `TagParser.StringPrefixFree` | internal/defs/types.go:145-178 | over one Go type, no textual form is the beginning of another |
| `TagParser.ParsedIsOver` | internal/defs/types.go:287-486 | whatever the tag, a parsed type has the shape of its Go type |
| `TagScanner.Scanner.NextToken` | internal/defs/types.go:245-277 | the two loops over spaces and identifier characters read the next token |
| `TagScanner.Scanner.ParseType` | internal/defs/types.go:287-438 | the moving position computes the parser, with its errors and its panic; `NestedPointers.PanicsIff` says when there is one |
| `TagScanner.Scanner.ParseMap` | internal/defs/types.go:388-437 | the same for the rest of a map type |
| `TagScanner.Scanner.ParseSlice` | internal/defs/types.go:440-486 | the same for lists and sets |
| `TagScanner.Scanner.MatchStruct` | internal/defs/types.go:488-526 | the same for plain and qualified names; the position moves for qualified names only, and the name behind the dot decides (`TypeNames.QualifiedParses`) |

## Left out

- The internals of `thrift.Binary.Skip`: the library is not part of this model. `Skip.SkipValue` is the protocol's own reading of a value, without a depth limit.
- Pointers to containers and to `[]byte`, and struct fields by value: sizes, encoding and decoding do not treat them alike, and `Schema.FieldType` leaves them out. `FieldTypes.FieldTypeIffUniform` shows that of the types that tags can give nothing else is left out.
- Encoder.AppendMap: requires, like the methods that lead to it, that a map from a plain key to binary is nil or empty, and that a map with double keys and plain values is nil, empty or not in the middle of growing. In the first case the registered writer reads the map through slots of another size (`FastPaths.TwoByteSlices`), and what it then writes depends on memory; in the second the iteration may repeat or miss entries. Sizes, decoding and all laws of the codec cover these types.
- Containers and strings of 2^31 elements or bytes and more, and enums outside int32: their lengths and values are truncated on the wire. `ReadingBack.EnumOutsideInt32IsLost` shows the enum case.
- What Go does with a bool that is not 0 or 1, which the decoder can store: the branch of appendMapBool is modelled as a test for 0.
- Go's iteration over a growing map: what it yields where the hash functions differ is left open in `Encoder.Iterate`, as some sequence of entries of the map. `Encoder.AppendEntries` says for every such sequence whether the write succeeds.
- Defaults that are not values of their field's type: `Passthrough` and `TypedReading` require what InitDefault leaves in a struct to be typed. `Evolution` also requires the defaults of an older schema to hold no structs, and equal defaults on both sides.
- Nocopy aliasing of the input buffer, the `NocopyWriter` argument, and the layout of Go values in memory: the model has values, and a nocopy string differs only in its depth cost.
- The content of the target after a failed decode, and the text of error messages; the kind of the error and the offset returned with it are modelled.
- Changes of a map while it is encoded, beyond the count of its iterated pairs (`Encoder.AppendEntries`).
- `sync.Pool` beyond handing out objects with arbitrary old content, garbage collection, and the reuse of memory it frees: blocks of the allocator are address ranges apart from each other, supplied by the caller.
- The parsing of field IDs by `strconv` and the splitting of tags at commas: `Descriptors.DoResolveFields` starts from the parts, and the error messages are one outcome.
- `IsNil`, `reflect.Value` and copying of struct arguments in `internal/reflect/reflect.go`: the calls start from a descriptor and a struct.
- The second cache `fieldsCache` of `ResolveFields`, `checkUniqueness`, options, `iov`, `debug` and the leftovers of the JIT: no path of the codec uses them, or they would add only easy members.
- DescMapRuns: the lock that Set runs under is not modelled as steps of its own; a second writer cannot start before the first has stored.
- WholeMessages.WholeMessage: one direction only, as a message that cannot be skipped may also be refused with an error before its end is reached, depending on the schema. For one struct without fields `WholeMessages.CutExactly` is exact.
- EvolvedHop.HopThroughOldSchema: budgets below that of the first decode are not treated; for one struct, `Passthrough.HopDecodes` is exact there too. Where the struct that was read is not canonical it says that something else comes back or nothing, not what.
- DescGraph: a struct type that is embedded by value is not followed, as such fields are left out everywhere.
