# A verified model of Apache Thrift's codecs, transports and fb303 structures

The model covers the hard parts of the Apache Thrift 0.9.1 sources: the wire formats and the state
machines that read and write them, the transports under them, the streaming MD5 of the compiler, and
the concurrent structures of fb303. Object state is kept in classes whose methods follow the source
step by step; each method is tied to a function of the state, and the main theorems are about those
functions, for all inputs, runs or schedules.

| component | modules |
|---|---|
| arithmetic of fixed-width integers | `Bits`, `Varint` |
| value trees and the compact format | `Wire`, `Compact`, `CompactWriter`, `CompactReader`, `CompactSkip`, `CompactTree` |
| the compact protocol objects of Go and Ruby | `GoProtocol`, `RubyProtocol` |
| Ruby's schema-driven struct reader and writer | `Schema`, `SchemaRead`, `SchemaWrite`, `RubyCollections`, `SchemaEvolution`, `FieldIds`, `StructDriver` |
| the Go binary protocol, Skip, message headers | `Binary`, `BinaryReturns`, `BinaryProtocol`, `BinaryTree`, `Messages` |
| the Go JSON protocol | `Json`, `JsonGrammar`, `JsonReader`, `JsonLockstep`, `JsonTree`, `JsonMessage`, `JsonProtocol`, `StringBody` |
| the writer of thrift.js, against RFC 8259 | `JsWriter`, `JsonText`, `JsJson`, `JsReader` |
| streaming MD5 | `Md5` |
| buffered and framed transports | `BufferedTransport`, `FramedTransport` |
| fb303 | `Counters`, `StableVector`, `Growth`, `ServiceTracker` |

`dafny verify dfyconfig.toml` checks everything.

Where the code departs from its documentation or intent, the model follows the code, and a theorem
says exactly when the intent is met:

- compact message headers read the type back modulo 4, so ONEWAY (4) comes back as 0
  (`Messages.CompactHeaderRoundTrip`);
- the JSON reader looks for the tag `16` where the writer spells `i16`, so trees with 16-bit tags are
  not recovered (`JsonTree.JsonRoundTrip`);
- a Ruby field set to nil that has a default comes back with the default, a set written from an Array
  or a Hash as a Set, an object of another class as one of the field's, a byte or 16-bit integer too
  wide cut to its width, and whatever is not `true` in a bool field as false
  (`SchemaEvolution.RoundTripIff`);
- `checkpointDuration_` is not assigned by its constructor (`ServiceTracker.FirstReportDuration`);
- a failed flush of the buffered transport keeps bytes that already went down
  (`BufferedTransport.ConservesIff`, over whole runs `BufferedTransport.RunConservesIff`), and its
  Write, which drops the error of that flush, can accept less than it was given without an error
  (`BufferedTransport.TBufferedTransport.Write`);
- a zero-size read of the framed transport can drop the rest of a frame
  (`FramedTransport.ReadConserves`, over whole runs `FramedTransport.TransferConservesIff`);
- `size_` of StableVector is a racy high-water mark (`Growth.SizeIsHighWaterIff`, and for callers
  `Growth.SerialGrowthKeepsSize` and `Growth.OverlapLosesIff`);
- Go's Skip drops the errors of inner calls, so on input that ends inside a struct it depends on a
  stale buffer byte and may not return (`BinaryReturns.SkipReturnsIff`);
- thrift.js leaves NaN and container map keys unquoted, spells NaN and infinite numbers as words, leaves
  some control characters bare and joins a null element as nothing (`JsJson.WritesJsonIff`).

## Model

| member | source | states |
|---|---|---|
| `Varint.Zigzag32RoundTrip` | src/thrift-0.9.1/lib/go/thrift/compact_protocol.go:623-685 | zigzag of any int32, by the shifts and exclusive-or of the code, stays an int32 and is undone by zigzagToInt32, and the other way round |
| `Varint.ZigzagInverse32` | src/thrift-0.9.1/lib/go/thrift/compact_protocol.go:623-685 | every int32 pattern is the zigzag of what zigzagToInt32 makes of it: decoding, too, is one to one and onto |
| `Varint.Zigzag64RoundTrip` | src/thrift-0.9.1/lib/go/thrift/compact_protocol.go:617-692 | the same for int64 |
| `Varint.ZigzagInverse64` | src/thrift-0.9.1/lib/go/thrift/compact_protocol.go:617-692 | every int64 pattern is the zigzag of what zigzagToInt64 makes of it |
| `Varint.Zigzag32Interleaves` | src/thrift-0.9.1/lib/go/thrift/compact_protocol.go:623-625 | zigzag orders 0, -1, 1, -2, ... : the pattern is 2n for n >= 0 and -2n-1 below |
| `Varint.VarintRoundTrip` | src/thrift-0.9.1/lib/go/thrift/compact_protocol.go:575-680 | a varint followed by any bytes decodes to its value and leaves those bytes |
| `Varint.VarintPrefixFree` | src/thrift-0.9.1/lib/go/thrift/compact_protocol.go:575-680 | two varints with equal streams are equal and so are their tails: no encoding is a prefix of another |
| `Varint.VarintLength` | src/thrift-0.9.1/lib/go/thrift/compact_protocol.go:575-614 | at most k bytes if and only if the value is below 2^(7k), for k >= 1: the length is max(1, ceil(bits/7)) |
| `Varint.VarintFits` | src/thrift-0.9.1/lib/go/thrift/compact_protocol.go:575-614 | 32-bit values fit the 5-byte and 64-bit values the 10-byte buffer |
| `Varint.WriteVarint32` | src/thrift-0.9.1/lib/go/thrift/compact_protocol.go:575-594 | the loop over the 5-byte array, masks and shifts included, writes the varint of the 32-bit pattern and never leaves the array |
| `Varint.WriteVarint64` | src/thrift-0.9.1/lib/go/thrift/compact_protocol.go:597-614 | the same loop over the 10-byte array |
| `Varint.ReadVarint64` | src/thrift-0.9.1/lib/rb/ext/compact_protocol.c:380-392 | the shift-and-or loop returns the decoded value reduced to a signed 64-bit integer and the unread bytes, or fails at the end of the input |
| `Varint.ReadVarint64IsDecode` | src/thrift-0.9.1/lib/rb/ext/compact_protocol.c:380-392 | the accumulator started at zero denotes exactly the recursive decoding |
| `Bits.TwosComplement` | src/thrift-0.9.1/lib/rb/ext/compact_protocol.c:394-396 | the casts to 8, 16, 32 and 64 bits: the one value in range with the same remainder |
| `CompactWriter.StepSimulates` | src/thrift-0.9.1/lib/rb/ext/compact_protocol.c:100-119 | one call: with Ruby's stack equal to Go's with lastFieldId appended and equal pending booleans, both writers emit the same bytes and are related again; Go panics only on an end too many |
| `CompactWriter.RunSimulates` | src/thrift-0.9.1/lib/go/thrift/compact_protocol.go:138-201 | every call sequence: Go accepts it if and only if it is bracketed, and then Go and Ruby emit identical bytes and stay related |
| `CompactWriter.FreshRelated` | src/thrift-0.9.1/lib/rb/ext/compact_protocol.c:176-184 | the states before a struct is opened are related |
| `Compact.FieldHeaderLength` | src/thrift-0.9.1/lib/go/thrift/compact_protocol.go:166-201 | a field header is one byte exactly for ids 1 to 15 above the last, with the type in its low half |
| `Compact.CollectionHeaderLength` | src/thrift-0.9.1/lib/go/thrift/compact_protocol.go:561-572 | the header of a list or set is one byte exactly for sizes up to 14 |
| `Compact.MapHeaderLength` | src/thrift-0.9.1/lib/go/thrift/compact_protocol.go:210-221 | a map header is one byte exactly for the empty map |
| `CompactWriter.GoWrites` | src/thrift-0.9.1/lib/go/thrift/compact_protocol.go:138-307 | the calls that write a tree append its encoding and restore lastField, lastFieldId and booleanField, at any nesting, with ids in any order |
| `GoProtocol.TCompactProtocol.WriteStructBegin` | src/thrift-0.9.1/lib/go/thrift/compact_protocol.go:138-142 | pushes the last field id and resets it |
| `GoProtocol.TCompactProtocol.WriteStructEnd` | src/thrift-0.9.1/lib/go/thrift/compact_protocol.go:147-151 | pops it back |
| `GoProtocol.TCompactProtocol.WriteFieldBegin` | src/thrift-0.9.1/lib/go/thrift/compact_protocol.go:153-160 | writes a header, or keeps a boolean field pending |
| `GoProtocol.TCompactProtocol.WriteFieldBeginInternal` | src/thrift-0.9.1/lib/go/thrift/compact_protocol.go:166-201 | the delta form for deltas of 1 to 15, the long form otherwise, and the new last id |
| `GoProtocol.TCompactProtocol.WriteMapBegin` | src/thrift-0.9.1/lib/go/thrift/compact_protocol.go:210-221 | one zero byte for an empty map, size and both type nibbles otherwise |
| `GoProtocol.TCompactProtocol.WriteCollectionBegin` | src/thrift-0.9.1/lib/go/thrift/compact_protocol.go:561-572 | size in the nibble up to 14, overflow form above |
| `GoProtocol.TCompactProtocol.WriteBool` | src/thrift-0.9.1/lib/go/thrift/compact_protocol.go:241-255 | a pending field's header carries the value; elsewhere one byte does |
| `GoProtocol.TCompactProtocol.WriteI64` | src/thrift-0.9.1/lib/go/thrift/compact_protocol.go:276-279 | zigzag varint of the 64-bit value |
| `GoProtocol.TCompactProtocol.WriteBinary` | src/thrift-0.9.1/lib/go/thrift/compact_protocol.go:297-307 | length and bytes, no payload write for the empty string |
| `RubyProtocol.CompactProtocol.WriteFieldBeginInternal` | src/thrift-0.9.1/lib/rb/ext/compact_protocol.c:100-119 | pops the last id, writes the header relative to it, pushes the new id |
| `RubyProtocol.CompactProtocol.WriteVarint` | src/thrift-0.9.1/lib/rb/ext/compact_protocol.c:129-139 | byte by byte, the varint of the pattern |
| `RubyProtocol.CompactProtocol.WriteBool` | src/thrift-0.9.1/lib/rb/ext/compact_protocol.c:250-262 | as Go: the pending field's header, or one byte |
| `RubyProtocol.CompactProtocol.ReadVarintValue` | src/thrift-0.9.1/lib/rb/ext/compact_protocol.c:380-392 | the loop on the object's input meets the functional reader |
| `RubyProtocol.CompactProtocol.ReadFieldBegin` | src/thrift-0.9.1/lib/rb/ext/compact_protocol.c:459-489 | type, delta or explicit id, stack update and pending boolean, and the same errors, as the functional reader |
| `RubyProtocol.CompactProtocol.ReadMapBegin` | src/thrift-0.9.1/lib/rb/ext/compact_protocol.c:491-495 | size and type byte, none for size zero |
| `RubyProtocol.CompactProtocol.ReadListBegin` | src/thrift-0.9.1/lib/rb/ext/compact_protocol.c:497-505 | nibble or overflow size |
| `RubyProtocol.CompactProtocol.ReadBool` | src/thrift-0.9.1/lib/rb/ext/compact_protocol.c:511-519 | takes the pending value first |
| `RubyProtocol.CompactProtocol.Skip` | src/thrift-0.9.1/lib/rb/lib/thrift/protocol/base_protocol.rb:322-369 | the recursive skipper over the object leaves it as the functional one does, on every input, well formed or not, and terminates by the unread bytes |
| `CompactSkip.HeaderOfField` | src/thrift-0.9.1/lib/rb/ext/compact_protocol.c:459-489 | a field header written relative to the last id reads back as type and id and leaves the reader at the value, boolean folding included |
| `CompactSkip.ReadCollectionHeader` | src/thrift-0.9.1/lib/rb/ext/compact_protocol.c:497-505 | list and set headers of either form read back |
| `CompactSkip.ReadMapHeader` | src/thrift-0.9.1/lib/rb/ext/compact_protocol.c:491-495 | map headers read back; an empty map reads without types |
| `CompactSkip.SkipExact` | src/thrift-0.9.1/lib/rb/lib/thrift/protocol/base_protocol.rb:322-369 | Skip at any encoded value followed by any bytes consumes exactly the encoding and restores the field stack and the pending boolean |
| `CompactTree.ReadsTree` | src/thrift-0.9.1/lib/rb/ext/compact_protocol.c:334-565 | reading at an encoded tree gives the tree, only the types of empty maps gone and 16-bit integers wider than that, which Ruby writes whole, cut; the trailing bytes; and the stacks as before |
| `CompactTree.GoWritesRubyReads` | src/thrift-0.9.1/lib/go/thrift/compact_protocol.go:138-307 | what Go's calls emit for any tree in any state, Ruby reads back as that tree, but for the types of empty maps, with the bytes after it untouched |
| `CompactTree.BareKeeps` | src/thrift-0.9.1/lib/rb/ext/compact_protocol.c:491-495 | a tree without empty maps whose 16-bit integers fit, as Go's always do, comes back whole: nothing else is lost |
| `CompactTree.EncodingPrefixFree` | src/thrift-0.9.1/lib/go/thrift/compact_protocol.go:138-307 | encodings delimit themselves: equal streams have equal trees, as they are read, and equal tails |
| `SchemaRead.ReadExact` | src/thrift-0.9.1/lib/rb/ext/struct.c:419-585 | the schema-driven reader at any encoded tree of the announced type returns the schema's view of it (unknown and mistyped fields dropped, mismatched containers nil, duplicates resolved) and consumes exactly the encoding |
| `SchemaRead.ReadFieldsExact` | src/thrift-0.9.1/lib/rb/ext/struct.c:542-585 | the field loop, from any set of fields already read |
| `SchemaEvolution.Evolution` | src/thrift-0.9.1/lib/rb/ext/struct.c:218-585 | bytes written under class W read under class R: each id holds the migrated value if both have it with equal type and it was set, else the reader's default, and exactly the struct's bytes are consumed |
| `SchemaEvolution.FieldsMigrate` | src/thrift-0.9.1/lib/rb/ext/struct.c:344-382 | what each id ends up with, field by field, over the writer's sorted ids |
| `SchemaEvolution.RoundTripIff` | src/thrift-0.9.1/lib/rb/ext/struct.c:218-585 | under one schema a value the writer takes comes back if and only if every bool in it is true or false, every byte and 16-bit integer fits its width, every object is of its field's class and has unset no field that has a default, and every set is held as a Set |
| `SchemaEvolution.RoundTripOnWire` | src/thrift-0.9.1/lib/rb/ext/struct.c:218-585 | the same on bytes, whatever follows them |
| `RubyCollections.SetNewIs` | src/thrift-0.9.1/lib/rb/ext/struct.c:506-540 | Set.new of any list: each of its items once, in order of first occurrence, and nothing else |
| `RubyCollections.SetNewIff` | src/thrift-0.9.1/lib/rb/ext/struct.c:506-540 | Set.new gives the list back if and only if its items are distinct |
| `RubyCollections.HashPutIs` | src/thrift-0.9.1/lib/rb/ext/struct.c:445-478 | storing a pair: the key then gives the value, every other key what it gave, and the keys keep their order, a new one last |
| `RubyCollections.PutAllIs` | src/thrift-0.9.1/lib/rb/ext/struct.c:445-478 | a hash filled pair by pair: each key once, in order of first occurrence, with its last value |
| `SchemaEvolution.SetOfItems` | src/thrift-0.9.1/lib/rb/ext/struct.c:279-310 | however a set was held, what comes back is the Set of its items, each once, when the items come back |
| `FieldIds.SortedIds` | src/thrift-0.9.1/lib/rb/ext/struct.c:344-382 | exactly the ids of the class are visited |
| `FieldIds.SortedIdsIncrease` | src/thrift-0.9.1/lib/rb/ext/struct.c:344-382 | in strictly increasing order, so each once |
| `StructDriver.WriteAnything` | src/thrift-0.9.1/lib/rb/ext/struct.c:316-342 | the recursive writer emits the encoding of the object's tree and restores the protocol's stacks, with any object for a bool, any int for a byte or a 16-bit integer, sets held as Arrays, Sets or Hashes, and objects of any class where a struct is announced |
| `StructDriver.WriteSet` | src/thrift-0.9.1/lib/rb/ext/struct.c:279-310 | a set held as an Array, a Set or a Hash emits its items, of a Hash its keys, in order |
| `StructDriver.WriteKeys` | src/thrift-0.9.1/lib/rb/ext/struct.c:288-308 | the loop over the keys of a Hash |
| `StructDriver.WriteElems` | src/thrift-0.9.1/lib/rb/ext/struct.c:260-312 | the element loop emits the elements in order |
| `StructDriver.WritePairs` | src/thrift-0.9.1/lib/rb/ext/struct.c:221-259 | the key loop emits the pairs in insertion order |
| `StructDriver.StructWrite` | src/thrift-0.9.1/lib/rb/ext/struct.c:344-382 | set fields in id order, stop byte, stack restored |
| `StructDriver.ReadAnythingFrom` | src/thrift-0.9.1/lib/rb/ext/struct.c:419-540 | the recursive reader over the object returns what the functional one does and leaves the object in its state, on every input |
| `StructDriver.ReadElemsFrom` | src/thrift-0.9.1/lib/rb/ext/struct.c:480-540 | the element loop |
| `StructDriver.ReadPairsFrom` | src/thrift-0.9.1/lib/rb/ext/struct.c:445-478 | the pair loop, later keys overriding in place |
| `StructDriver.StructRead` | src/thrift-0.9.1/lib/rb/ext/struct.c:542-585 | the field loop with its skips |
| `Binary.BigEndianRoundTrip` | src/thrift-0.9.1/lib/go/thrift/binary_protocol.go:179-198 | an integer below 256^k survives its k big-endian bytes |
| `Binary.FromBigEndianRoundTrip` | src/thrift-0.9.1/lib/go/thrift/binary_protocol.go:370-396 | and every k bytes survive their integer |
| `Binary.ScalarRoundTrip` | src/thrift-0.9.1/lib/go/thrift/binary_protocol.go:166-404 | every scalar that fits its width comes back when read at its own encoding, whatever the scratch buffer holds, and what follows is untouched |
| `Binary.SkipExact` | src/thrift-0.9.1/lib/go/thrift/protocol.go:86-154 | the Go Skip of any encoded value followed by any bytes returns no error and consumes precisely the encoding, although it drops the errors of inner calls |
| `Binary.SkipTerminates` | src/thrift-0.9.1/lib/go/thrift/protocol.go:86-154 | it returns within three calls or loop turns per unread byte |
| `Binary.CostBound` | src/thrift-0.9.1/lib/go/thrift/protocol.go:111-152 | the calls and turns that skipping a tree takes are fewer than three times its bytes |
| `Binary.SkipFieldsAtEnd` | src/thrift-0.9.1/lib/go/thrift/protocol.go:111-123 | at the end of the input, where every read fails and leaves the buffer as it is, the struct loop returns if and only if the stale first byte of the buffer is STOP |
| `BinaryReturns.SkipReturnsIff` | src/thrift-0.9.1/lib/go/thrift/protocol.go:86-154 | on every byte string and for every type, Skip fails to return if and only if its run comes to a struct loop with nothing unread and a stale type byte other than STOP; every run that returns has the one outcome |
| `BinaryProtocol.BinaryWrites` | src/thrift-0.9.1/lib/go/thrift/binary_protocol.go:97-216 | the calls that write a tree write its binary encoding |
| `BinaryTree.WrittenReadsBack` | src/thrift-0.9.1/lib/go/thrift/binary_protocol.go:65-404 | the bytes a tree's calls emit are read back, by the types on the wire, as exactly that tree, whatever the scratch buffer holds and whatever follows |
| `BinaryTree.ReadsTree` | src/thrift-0.9.1/lib/go/thrift/binary_protocol.go:260-404 | reading at an encoded tree gives the tree and consumes exactly its encoding |
| `BinaryTree.TypeReadsBack` | src/thrift-0.9.1/lib/go/thrift/type.go:25-41 | the type bytes are the constants of type.go |
| `BinaryProtocol.TBinaryProtocol.PutUint` | src/thrift-0.9.1/lib/go/thrift/binary_protocol.go:179-198 | the low bytes land in the scratch array high byte first |
| `BinaryProtocol.TBinaryProtocol.WriteDouble` | src/thrift-0.9.1/lib/go/thrift/binary_protocol.go:200-202 | the bits travel as an int64 and come out reversed |
| `BinaryProtocol.TBinaryProtocol.WriteMapBegin` | src/thrift-0.9.1/lib/go/thrift/binary_protocol.go:123-134 | both types and a 32-bit size |
| `BinaryProtocol.TBinaryProtocol.WriteMessageBegin` | src/thrift-0.9.1/lib/go/thrift/binary_protocol.go:65-91 | the strict or the old header, by the object's flag |
| `BinaryProtocol.TBinaryProtocol.ReadAll` | src/thrift-0.9.1/lib/go/thrift/binary_protocol.go:429-432 | fills the scratch array with what came, also when it is too little |
| `BinaryProtocol.TBinaryProtocol.ReadMessageBegin` | src/thrift-0.9.1/lib/go/thrift/binary_protocol.go:221-259 | all branches of both header forms, with the state each leaves |
| `BinaryProtocol.TBinaryProtocol.ReadFieldBegin` | src/thrift-0.9.1/lib/go/thrift/binary_protocol.go:273-283 | type and id; the id is zero for STOP and after a failed type byte |
| `BinaryProtocol.TBinaryProtocol.Skip` | src/thrift-0.9.1/lib/go/thrift/protocol.go:86-154 | over the object, for every run that returns, exactly as specified, stale buffer included |
| `Messages.BinaryHeaderRoundTrip` | src/thrift-0.9.1/lib/go/thrift/binary_protocol.go:65-259 | a header reads back if and only if the type fits a byte and the reader does not insist on a version the writer left out |
| `Messages.StrictHeaderBytes` | src/thrift-0.9.1/lib/go/thrift/binary_protocol.go:65-77 | a strict header leads with the bytes 80 01 00 and the type |
| `Messages.CompactHeaderBytes` | src/thrift-0.9.1/lib/go/thrift/compact_protocol.go:115-131 | a compact header leads with the byte 82, then version 1 below three bits of the type |
| `Messages.CompactHeaderRoundTrip` | src/thrift-0.9.1/lib/go/thrift/compact_protocol.go:115-131 | name and sequence id survive every compact header, the type modulo 4, so it reads back if and only if it is below 4 |
| `Messages.VersionAndTypeBits` | src/thrift-0.9.1/lib/rb/ext/compact_protocol.c:435-457 | the version-and-type byte: its bits, the version it shows and the type it gives back |
| `Md5.FoldConcat` | src/thrift-0.9.1/compiler/cpp/src/md5.c:351-353 | folding blocks over a concatenation continues the fold, when the first part is whole blocks |
| `Md5.InitialRegisters` | src/thrift-0.9.1/compiler/cpp/src/md5.c:312-320 | the registers start as the sixteen bytes 01 23 45 67 ... 76 54 32 10 of RFC 1321, section 3.3 |
| `Md5.Md5State.Append` | src/thrift-0.9.1/compiler/cpp/src/md5.c:322-358 | after any append the registers are the fold of the complete blocks of all input, the buffer starts with the rest, and the counter is the bit length modulo 2^64 |
| `Md5.Md5State.AddLength` | src/thrift-0.9.1/compiler/cpp/src/md5.c:332-337 | the two counter words with carry advance by eight times the bytes, modulo 2^64 |
| `Md5.Md5State.FillBlock` | src/thrift-0.9.1/compiler/cpp/src/md5.c:339-349 | the initial partial block: filled and folded, or kept with what came |
| `Md5.Md5State.AppendBlocks` | src/thrift-0.9.1/compiler/cpp/src/md5.c:351-357 | full blocks from the input, the rest into the buffer |
| `Md5.Md5State.Finish` | src/thrift-0.9.1/compiler/cpp/src/md5.c:360-381 | the digest is that of one-shot MD5 of everything appended |
| `Md5.Md5State.SavedLength` | src/thrift-0.9.1/compiler/cpp/src/md5.c:372-374 | the eight bytes kept before padding are the bit length of everything appended, low byte first |
| `Md5.Md5State.Digest` | src/thrift-0.9.1/compiler/cpp/src/md5.c:379-380 | the sixteen digest bytes are the registers, low byte first |
| `Md5.DigestOfChunks` | src/thrift-0.9.1/compiler/cpp/src/md5.c:312-381 | init, any appends and finish give the digest of the concatenation, however it is cut |
| `Md5.CountAdds` | src/thrift-0.9.1/compiler/cpp/src/md5.c:332-337 | shifted byte count, high bits and carry add up to the 64-bit sum |
| `Md5.OffsetIsRemainder` | src/thrift-0.9.1/compiler/cpp/src/md5.c:327-376 | count[0] >> 3 masked is the length of the partial block, and the padding expression is the least number of zeros |
| `Md5.ZerosFor` | src/thrift-0.9.1/compiler/cpp/src/md5.c:375-376 | the least number of zeros that reaches 56 modulo 64 |
| `Md5.LengthBytes` | src/thrift-0.9.1/compiler/cpp/src/md5.c:372-374 | the shifts over the two words give the 64-bit length low byte first |
| `Md5.RegisterBytes` | src/thrift-0.9.1/compiler/cpp/src/md5.c:379-380 | the shifts over the registers give each of them low byte first |
| `Md5.PaddedIsBlocks` | src/thrift-0.9.1/compiler/cpp/src/md5.c:375-378 | a padded message is whole blocks, longer by 9 to 72 bytes |
| `Counters.Linearizable` | src/thrift-0.9.1/contrib/fb303/cpp/FacebookBase.cpp:49-119 | in every interleaving each call takes effect exactly once between its invocation and its return, with the value returned, and those values are the ones of atomic operations in that order |
| `Counters.NoIncrementLost` | src/thrift-0.9.1/contrib/fb303/cpp/FacebookBase.cpp:49-74 | a counter only ever incremented holds the 64-bit sum of all increments that took effect, racing creators included |
| `Counters.NoDeadlock` | src/thrift-0.9.1/contrib/fb303/cpp/FacebookBase.cpp:49-119 | while a call is open, some open call can step |
| `Counters.CallCompletes` | src/thrift-0.9.1/contrib/fb303/cpp/FacebookBase.cpp:49-119 | a call made while no thread holds a lock and scheduled alone is back within twelve steps, having taken effect with the atomic operation's value and left exactly its map |
| `Counters.OpenCallCompletes` | src/thrift-0.9.1/contrib/fb303/cpp/FacebookBase.cpp:49-119 | from every state a run reaches, any open call run alone while no other thread holds a lock returns within eleven steps, with the value it took or else that of the atomic operation on the map so far |
| `Counters.CallsAreShort` | src/thrift-0.9.1/contrib/fb303/cpp/FacebookBase.cpp:49-119 | in every run and schedule no thread takes more than twelve steps a call: none goes round in circles |
| `Counters.MoveLowersRank` | src/thrift-0.9.1/contrib/fb303/cpp/FacebookBase.cpp:49-119 | every step of an open call brings it closer to its end |
| `Counters.WaitsIff` | src/thrift-0.9.1/contrib/fb303/cpp/FacebookBase.cpp:50-117 | an open call waits if and only if it wants a lock that some thread holds, and one of the two wants or has it alone |
| `Counters.StepKeepsInv` | src/thrift-0.9.1/contrib/fb303/cpp/FacebookBase.cpp:49-119 | every step of every thread keeps lock exclusion, the facts at each program point, and agreement with the replayed map |
| `Counters.TakenIsAtomic` | src/thrift-0.9.1/contrib/fb303/cpp/FacebookBase.cpp:49-119 | the value computed at the step that takes effect is that of the atomic operation on the replayed map |
| `Counters.ExclusiveKept` | src/thrift-0.9.1/contrib/fb303/cpp/FacebookBase.cpp:49-119 | no step breaks the exclusion of map or key locks |
| `Counters.ReplaySums` | src/thrift-0.9.1/contrib/fb303/cpp/FacebookBase.cpp:70-73 | replaying increments of a key sums them modulo 2^64 |
| `StableVector.WhichInBounds` | src/thrift-0.9.1/contrib/fb303/TClientInfo.h:101-116 | every index below 2^31 goes to a level and an offset inside the level's size, which name the index |
| `StableVector.WhichOnto` | src/thrift-0.9.1/contrib/fb303/TClientInfo.h:101-116 | every such place comes from exactly one index: which is a bijection |
| `StableVector.LevelSizeIs` | src/thrift-0.9.1/contrib/fb303/TClientInfo.h:85-96 | level v > 0 has 1024 * 2^(v-1) elements |
| `StableVector.StableVector.Expand` | src/thrift-0.9.1/contrib/fb303/TClientInfo.h:85-96 | levels up to the one asked for exist at their sizes; no element moves or changes |
| `StableVector.StableVector.Locate` | src/thrift-0.9.1/contrib/fb303/TClientInfo.h:101-116 | which: the place exists afterwards, old levels stay the same objects, size_ grows to n + 1 at most |
| `StableVector.StableVector.Get` | src/thrift-0.9.1/contrib/fb303/TClientInfo.h:125-130 | reads the default-filled map, changing none of it |
| `StableVector.StableVector.Set` | src/thrift-0.9.1/contrib/fb303/TClientInfo.h:125-130 | writes one element of the map and no other |
| `StableVector.StableVector.Size` | src/thrift-0.9.1/contrib/fb303/TClientInfo.h:135-135 | one more than the largest index accessed, zero if none was |
| `Growth.GrowthIsSafe` | src/thrift-0.9.1/contrib/fb303/TClientInfo.h:85-116 | any threads, any schedule: published levels are allocated, each was pushed once at its size and stays, the reserve is never exceeded, and a thread leaving which indexes inside an existing level |
| `Growth.StepKeepsInv` | src/thrift-0.9.1/contrib/fb303/TClientInfo.h:85-116 | every step keeps that, the unlocked read of vectLvl_ included |
| `Growth.StepLowersRank` | src/thrift-0.9.1/contrib/fb303/TClientInfo.h:85-130 | every step of an open access brings it closer to its end and no other further from its own; it stays for the element asked for and is over only once that is indexed |
| `Growth.AccessesAreShort` | src/thrift-0.9.1/contrib/fb303/TClientInfo.h:85-130 | in every run and schedule no thread takes more than 73 steps an access |
| `Growth.SomeoneSteps` | src/thrift-0.9.1/contrib/fb303/TClientInfo.h:85-130 | while an access is open, some open access can step |
| `Growth.SizeIsHighWaterIff` | src/thrift-0.9.1/contrib/fb303/TClientInfo.h:101-104 | over every run of any threads: size_ is at every point one more than the largest index past the size step, if and only if no step stores a size below the one there is |
| `Growth.SizeDropsIff` | src/thrift-0.9.1/contrib/fb303/TClientInfo.h:101-104 | a step lowers size_ if and only if it is such a store |
| `Growth.SerialGrowthKeepsSize` | src/thrift-0.9.1/contrib/fb303/TClientInfo.h:101-104 | size_ is right throughout every run in which accesses growing to different sizes never overlap between test and store |
| `Growth.OverlapLosesIff` | src/thrift-0.9.1/contrib/fb303/TClientInfo.h:101-104 | the converse, in every state: pending stores are harmless in every order if and only if they agree; where two differ, letting the larger go first makes the smaller lose size |
| `Growth.SizeCanShrink` | src/thrift-0.9.1/contrib/fb303/TClientInfo.h:102-104 | a witness: six steps after which size_ is below an index in use |
| `ServiceTracker.CheckpointsConserve` | src/thrift-0.9.1/contrib/fb303/cpp/ServiceTracker.cpp:153-292 | over every run: lifetime_services is its first value plus all reported plus all pending services, and counts and, from the first report on, durations by name sum to their totals, modulo 2^64 |
| `ServiceTracker.CallsAreBooked` | src/thrift-0.9.1/contrib/fb303/cpp/ServiceTracker.cpp:153-292 | over every run and for every name: the pending entry is the number and total duration of that name's counted calls since the last report, each report's entry those of its interval, modulo 2^64, and a name without a call has none; every counted call is in exactly one of them, in order |
| `ServiceTracker.ReportExports` | src/thrift-0.9.1/contrib/fb303/cpp/ServiceTracker.cpp:239-263 | a report exports for each name called its calls of the interval and their mean duration |
| `ServiceTracker.ReportsIff` | src/thrift-0.9.1/contrib/fb303/cpp/ServiceTracker.cpp:213-222 | a finish makes a report if and only if it is counted and, unsigned, sixty seconds have gone by since the report before or the start |
| `ServiceTracker.TimedBooks` | src/thrift-0.9.1/contrib/fb303/cpp/ServiceTracker.cpp:203-211 | recording a call changes the entry of its own name and no other |
| `ServiceTracker.FirstReportDuration` | src/thrift-0.9.1/contrib/fb303/cpp/ServiceTracker.cpp:40-54 | the first report's duration is right if and only if the member the constructor leaves unassigned was zero |
| `ServiceTracker.FinishKeepsAccounts` | src/thrift-0.9.1/contrib/fb303/cpp/ServiceTracker.cpp:153-228 | one finished service method keeps the accounts |
| `ServiceTracker.ReportKeepsLifetime` | src/thrift-0.9.1/contrib/fb303/cpp/ServiceTracker.cpp:249-263 | a checkpoint leaves lifetime_services alone, since no checkpoint counter has its name |
| `ServiceTracker.KeysDistinct` | src/thrift-0.9.1/contrib/fb303/cpp/ServiceTracker.cpp:249-263 | the checkpoint counters of all names are distinct from each other and from the fixed ones |
| `ServiceTracker.TimedAdds` | src/thrift-0.9.1/contrib/fb303/cpp/ServiceTracker.cpp:203-211 | recording one call adds one to the counts and its duration to the durations, whichever branch is taken |
| `ServiceTracker.SumsWithout` | src/thrift-0.9.1/contrib/fb303/cpp/ServiceTracker.cpp:203-211 | a sum over the map is one entry plus the sum over the others |
| `ServiceTracker.ServiceTracker.FinishService` | src/thrift-0.9.1/contrib/fb303/cpp/ServiceTracker.cpp:153-228 | log-only, no-checkpoint, counting and reporting branches, with the unsigned interval test |
| `ServiceTracker.ServiceTracker.ReportCheckpoint` | src/thrift-0.9.1/contrib/fb303/cpp/ServiceTracker.cpp:239-273 | exports exactly the counters of the names recorded, then clears |
| `ServiceTracker.ServiceTracker.constructor` | src/thrift-0.9.1/contrib/fb303/cpp/ServiceTracker.cpp:35-54 | starts with no services and an arbitrary duration |
| `BufferedTransport.TBufferedTransport.Flush` | src/thrift-0.9.1/lib/go/thrift/buffered_transport.go:89-102 | for every script of replies of the transport below: downstream gets the prefix the script lets through, the buffer is emptied or kept whole, and the stream is conserved if and only if the script lets all of it through or none |
| `BufferedTransport.DrainedIff` | src/thrift-0.9.1/lib/go/thrift/buffered_transport.go:89-102 | a flush gets to the end if and only if no reply fails while bytes remain |
| `BufferedTransport.ConservesIff` | src/thrift-0.9.1/lib/go/thrift/buffered_transport.go:89-102 | a flush conserves the stream if and only if no reply fails while bytes remain, or the very first fails and takes nothing |
| `BufferedTransport.RunConservesIff` | src/thrift-0.9.1/lib/go/thrift/buffered_transport.go:78-102 | over any run of writes and flushes and any replies: the accepted prefixes come down in order, none lost or repeated, if and only if no flush, asked for or made by a Write, fails after part of the buffer has gone |
| `BufferedTransport.TBufferedTransport.Write` | src/thrift-0.9.1/lib/go/thrift/buffered_transport.go:78-87 | for every script of replies: the whole is accepted if and only if it fits behind what waits, or no reply fails while that goes down and it fits the buffer; what goes down, the replies used and whether bytes were repeated are the dropped flush's; and what went down and waits is the accepted prefixes if and only if no flush has ever failed after a part had gone |
| `BufferedTransport.TBufferedTransport.Read` | src/thrift-0.9.1/lib/go/thrift/buffered_transport.go:63-76 | the bytes returned, buffered and upstream make up what was buffered and upstream, for any sizes and also when the transport fails; the slice is filled unless the buffer runs out |
| `FramedTransport.ReadConserves` | src/thrift-0.9.1/lib/go/thrift/framed_transport.go:68-81 | one read conserves the stream except exactly for a zero-size read of an unfinished frame with a non-empty frame behind it |
| `FramedTransport.TransferConservesIff` | src/thrift-0.9.1/lib/go/thrift/framed_transport.go:68-125 | over any run of flushes and reads of any sizes, whatever the payloads and frame boundaries: the bytes come out in the order they went in, none lost or repeated, if and only if no step is a zero-size read of an unfinished frame with a non-empty frame behind it |
| `FramedTransport.TransferConserves` | src/thrift-0.9.1/lib/go/thrift/framed_transport.go:68-125 | in particular over any run whose reads are of positive size |
| `FramedTransport.ReadStaysInFrame` | src/thrift-0.9.1/lib/go/thrift/framed_transport.go:68-81 | a read gives as much of its frame as fits and nothing of the next, and is empty, with an end of file, exactly when the frame is spent and the next is empty or missing |
| `FramedTransport.HeaderIsSize` | src/thrift-0.9.1/lib/go/thrift/framed_transport.go:88-96 | the four-byte header tells the frame's size if and only if it is below 2^32 |
| `FramedTransport.FramesSnoc` | src/thrift-0.9.1/lib/go/thrift/framed_transport.go:88-104 | a frame appended to the stream is behind all others |
| `FramedTransport.TFramedTransport.Flush` | src/thrift-0.9.1/lib/go/thrift/framed_transport.go:88-104 | what was written since the last flush becomes the last frame |
| `FramedTransport.TFramedTransport.ReadFrame` | src/thrift-0.9.1/lib/go/thrift/framed_transport.go:106-125 | takes the next frame, leaving the buffer for an empty one and at the end of the input |
| `FramedTransport.TFramedTransport.Read` | src/thrift-0.9.1/lib/go/thrift/framed_transport.go:68-81 | reads as the step function on buffer and frames |
| `Json.Writes` | src/thrift-0.9.1/lib/go/thrift/json_protocol.go:85-192 | in any context but a key's, writing a tree appends the context's separator and the tree's text, and leaves the stack as it was but for one post-value step |
| `Json.WritesField` | src/thrift-0.9.1/lib/go/thrift/json_protocol.go:96-111 | a field is a quoted id, a colon and an object of type name and value |
| `Json.Encloses` | src/thrift-0.9.1/lib/go/thrift/simple_json_protocol.go:673-715 | between a begin and its end the enclosing stack is untouched |
| `JsonGrammar.TextIsValue` | src/thrift-0.9.1/lib/go/thrift/simple_json_protocol.go:546-728 | the text of every tree is accepted as one value by a recogniser of RFC 8259, sections 4 to 6, that knows no contexts and takes no bare infinity or NaN |
| `JsonGrammar.QuotedIff` | src/thrift-0.9.1/lib/go/thrift/simple_json_protocol.go:586-666 | outside a key a scalar is quoted if and only if it is characters or a double whose eleven exponent bits are all ones; in a key always |
| `JsonGrammar.WriterWritesJson` | src/thrift-0.9.1/lib/go/thrift/json_protocol.go:44-52 | a fresh protocol writing any tree outputs one JSON value and ends with the stack it started with |
| `JsonGrammar.MessageIsWritten` | src/thrift-0.9.1/lib/go/thrift/json_protocol.go:62-83 | a whole message's output and stack |
| `JsonGrammar.MessageIsArray` | src/thrift-0.9.1/lib/go/thrift/json_protocol.go:62-83 | a whole message is one JSON array |
| `JsonReader.CallLockstep` | src/thrift-0.9.1/lib/go/thrift/simple_json_protocol.go:730-813 | with equal stacks the read call takes exactly the tokens of the write call, returns its scalar and leaves equal stacks, if and only if it is no boolean key, no object left between key and value, and no list left without an element |
| `JsonReader.RunLockstep` | src/thrift-0.9.1/lib/go/thrift/simple_json_protocol.go:730-1057 | the same over every sequence of such calls, from any point of the text: every token consumed once, no context error |
| `JsonReader.TagsReadBack` | src/thrift-0.9.1/lib/go/thrift/json_protocol.go:490-556 | every type name reads back as its type, except I16, which reads as STOP |
| `JsonLockstep.TreeReadable` | src/thrift-0.9.1/lib/go/thrift/json_protocol.go:85-192 | every call that writes a tree is one of those, in the context it is made in |
| `JsonLockstep.MessageReadable` | src/thrift-0.9.1/lib/go/thrift/json_protocol.go:62-83 | and every call that writes a whole message |
| `JsonLockstep.TreeInStep` | src/thrift-0.9.1/lib/go/thrift/simple_json_protocol.go:730-1057 | reading a written tree, whatever follows it: after every call the reader's stack equals the writer's after as many calls, and every token so far has been consumed once |
| `JsonLockstep.MessageInStep` | src/thrift-0.9.1/lib/go/thrift/simple_json_protocol.go:730-1057 | the same over any whole message from a fresh protocol |
| `JsonTree.JsonRoundTrip` | src/thrift-0.9.1/lib/go/thrift/json_protocol.go:85-304 | the text of a tree is read back, by its own tags and amid any text, as that tree with the stacks in step, if and only if nothing in it is announced as a 16-bit integer (and one that stands alone fits its width, as in Go it does) |
| `JsonTree.ReadsBack` | src/thrift-0.9.1/lib/go/thrift/json_protocol.go:228-304 | the direction that recovers the tree |
| `JsonTree.ReadsWrong` | src/thrift-0.9.1/lib/go/thrift/json_protocol.go:536-537 | the direction that does not, at any depth |
| `JsonTree.ShortFieldBegin` | src/thrift-0.9.1/lib/go/thrift/json_protocol.go:237-255 | a 16-bit field reads as the end of its struct |
| `JsonMessage.MessageRoundTrip` | src/thrift-0.9.1/lib/go/thrift/json_protocol.go:62-226 | a written message is read back as that message, whatever follows it, if and only if its type fits a byte and nothing in its arguments is announced as a 16-bit integer |
| `JsonMessage.BeginReadsBack` | src/thrift-0.9.1/lib/go/thrift/json_protocol.go:196-221 | version, name, type and sequence id read back and leave the reader inside the array |
| `JsonProtocol.TJSONProtocol.OutputPostValue` | src/thrift-0.9.1/lib/go/thrift/simple_json_protocol.go:563-584 | replaces the top of the stack by the next context |
| `JsonProtocol.TJSONProtocol.OutputScalar` | src/thrift-0.9.1/lib/go/thrift/simple_json_protocol.go:586-666 | separator, scalar quoted as its kind and context want, next context |
| `JsonProtocol.TJSONProtocol.OutputEnd` | src/thrift-0.9.1/lib/go/thrift/simple_json_protocol.go:684-715 | closes and steps the enclosing context |
| `JsonProtocol.TJSONProtocol.WriteFieldBegin` | src/thrift-0.9.1/lib/go/thrift/json_protocol.go:96-107 | id, object begin and type name |
| `JsonProtocol.TJSONProtocol.WriteMapBegin` | src/thrift-0.9.1/lib/go/thrift/json_protocol.go:115-126 | list begin, both type names and the size |
| `JsonProtocol.TJSONProtocol.ParsePreValue` | src/thrift-0.9.1/lib/go/thrift/simple_json_protocol.go:730-791 | consumes the separator the context asks for, leaves an end, refuses anything else |
| `JsonProtocol.TJSONProtocol.ParseEnd` | src/thrift-0.9.1/lib/go/thrift/simple_json_protocol.go:969-1057 | checks the context, the closing token, pops and steps |
| `JsonProtocol.TJSONProtocol.ReadFieldBegin` | src/thrift-0.9.1/lib/go/thrift/json_protocol.go:237-255 | no field at a closing token or the end of the input; else id, object start and type |
| `StringBody.BodyEndIsScan` | src/thrift-0.9.1/lib/go/thrift/simple_json_protocol.go:833-888 | the read-to-quote and count-backslashes recursion stops at exactly the quote where the escape automaton of RFC 8259, section 7, stops, for every input |
| `StringBody.EscapedIsOdd` | src/thrift-0.9.1/lib/go/thrift/simple_json_protocol.go:839-845 | the automaton is inside an escape exactly after an odd number of trailing backslashes |
| `StringBody.StringReader.CountEscapes` | src/thrift-0.9.1/lib/go/thrift/simple_json_protocol.go:839-845 | the backward loop counts the backslashes before the closing quote |
| `StringBody.StringReader.ParseQuotedStringBody` | src/thrift-0.9.1/lib/go/thrift/simple_json_protocol.go:866-888 | returns the body up to and including the closing quote and leaves the rest, or fails when none closes it |
| `StringBody.StringReader.ParseStringBody` | src/thrift-0.9.1/lib/go/thrift/simple_json_protocol.go:833-864 | the whole body between quotes goes to unquoting; a failed unquoting is an error only when an escaped quote was met |
| `JsWriter.Writes` | src/thrift-0.9.1/lib/js/thrift.js:363-546 | writing any tree leaves tpos as it was and tstack longer by one element, the tree's rendering |
| `JsWriter.LastFieldWins` | src/thrift-0.9.1/lib/js/thrift.js:396-402 | a field id written twice keeps its first place and its last value |
| `JsWriter.KeyIsString` | src/thrift-0.9.1/lib/js/thrift.js:442-442 | a map key comes out quoted if and only if it is neither NaN nor a container |
| `JsWriter.EscapeReadsBack` | src/thrift-0.9.1/lib/js/thrift.js:509-546 | every string is read back from its escaped form, and the quote put after it is the one that ends it |
| `JsWriter.EscapedIsPrintable` | src/thrift-0.9.1/lib/js/thrift.js:515-543 | the escaped form has no bare control character if and only if the string has none but the five with a short escape |
| `JsJson.WritesJsonIff` | src/thrift-0.9.1/lib/js/thrift.js:363-546 | from a fresh protocol, writing any tree leaves one string, and it is one JSON value of RFC 8259 if and only if no map key is NaN or a container, no number elsewhere is NaN or infinite, no string has a control character without a short escape, and no list or set holds a null; fields overwritten by a later one with the same id do not count |
| `JsJson.TreeIsClosed` | src/thrift-0.9.1/lib/js/thrift.js:363-546 | wherever a rendering stands in a text, a JSON reader takes exactly it, or refuses it, by that condition alone |
| `JsJson.EscapedThen` | src/thrift-0.9.1/lib/js/thrift.js:509-546 | an escaped string in place is taken to its own closing quote if and only if it has no such control character |
| `JsReader.WrittenReadsBack` | src/thrift-0.9.1/lib/js/thrift.js:307-546 | from a fresh protocol, what any clean tree leaves is read back, by the names of RType and the sizes, with nothing left over: field ids, types, sizes, the order of elements and pairs, scalars by their spelling, of fields with one id the last value in the first place, and quoted keys by their spelling |
| `JsReader.TreeReadsBack` | src/thrift-0.9.1/lib/js/thrift.js:307-546 | the same wherever the rendering stands in a text |
| `JsReader.TypeReads` | src/thrift-0.9.1/lib/js/thrift.js:307-332 | every type name reads back as its type |
| `JsReader.DecimalReads` | src/thrift-0.9.1/lib/js/thrift.js:616-616 | every integer's spelling is parsed back |
| `JsWriter.Protocol.WriteStructEnd` | src/thrift-0.9.1/lib/js/thrift.js:368-386 | the loop over properties joins them in order of insertion |
| `JsWriter.Protocol.WriteFieldEnd` | src/thrift-0.9.1/lib/js/thrift.js:396-403 | value and field info become a property of the struct below |
| `JsWriter.Protocol.FoldPairs` | src/thrift-0.9.1/lib/js/thrift.js:423-445 | popping value and key and putting the pair in front keeps the order of pairs; a lone key is padded |
| `JsWriter.Protocol.WriteMapEnd` | src/thrift-0.9.1/lib/js/thrift.js:416-449 | size set at the end, pairs folded into one object |
| `JsWriter.Protocol.WriteListEnd` | src/thrift-0.9.1/lib/js/thrift.js:456-466 | the splice loop keeps the order of elements |
| `JsWriter.Protocol.WriteString` | src/thrift-0.9.1/lib/js/thrift.js:509-546 | the character loop escapes the whole string; null stays null |
| `JsWriter.Protocol.WriteBool` | src/thrift-0.9.1/lib/js/thrift.js:485-487 | a boolean is pushed as the number 1 or 0 |
| `JsWriter.Protocol.WriteNumber` | src/thrift-0.9.1/lib/js/thrift.js:489-507 | a number is pushed as it is, whatever its announced type |

## Left out

- Go's compact reader: `ReadStructEnd` restores the last field id without popping the stack, and
  `getTType` has an empty case for BOOLEAN_FALSE; the nesting theorems are about the Ruby reader.
- Errors of the transport under a protocol object: a write succeeds, and a read fails only at the end
  of the input. After an exception the state of a Ruby protocol object is not described.
- `validate`, unions and UTF-8 conversion in struct.c and compact_protocol.c; a string is its bytes.
- Varint.ReadVarint64: a shift of 64 or more is undefined in C; the model lets the bits fall away, as Go does.
- Hash keys of doubles in Ruby are compared by bit pattern, and doubles everywhere travel as eight raw bytes.
- Containers, strings and frames longer than a signed or unsigned 32-bit size, which the protocols cannot announce.
- SchemaEvolution.Evolution: the written object conforms to its class, which leaves out values that raise, and those that Ruby converts on the way: a Float given for an integer, a number or a numeric string given for a double.
- Go's `ReadBinary` of the binary protocol, which allocates a slice of a size it has not checked.
- BinaryTree.WrittenReadsBack: the tree reader is the one generated code amounts to; the library has no driver of its own.
- BinaryProtocol.TBinaryProtocol.Skip: the method takes a bound on calls and turns and is stated for runs that return within it; which do is BinaryReturns.SkipReturnsIff.
- md5_process: the 64 steps of a block; the theorems hold for every compression function.
- Md5.Md5State.Append: requires that the partial block and the new bytes together stay within a C int, since the code adds the two as ints.
- Md5.Md5State.AddLength: the shift `nbytes << 3` overflows a C int for appends of 2^28 bytes and more; the model lets the bits fall away.
- getCounters: it reads all values under the map's read lock only, so the map it builds is not one atomic view.
- Counters.ReplaySums: a sum of counters beyond int64 is undefined in C++; the model wraps it, also for lifetime_services.
- The memory model of C++: the locks are taken at their contract and each step is one access.
- Growth.GrowthIsSafe: the read of the level vector while another thread pushes is one step; the reserve keeps the vector from moving.
- Log messages, idle-thread checks, getStatus and the lifetime values that are only logged in ServiceTracker.
- ServiceTracker.CheckpointsConserve: the tracker is the only one to set its counters, and its mutex makes each call one step.
- The transport below a framed transport is a reliable FIFO; frames cut short by a lost connection are not described.
- JSON scalars are tokens: the spelling of numbers, base64, Unicode escapes and white space are not modelled, a
  numeric read call refuses a token of another kind, and JSON null, which this writer never emits, is not read.
- JsonTree.JsonRoundTrip: the condition is about tokens. Go writes every NaN as `NaN` and reads back one canonical NaN, so a NaN with another payload changes; json.Marshal replaces bytes that are not UTF-8, so a string holding such bytes changes. It assumes the message is fully buffered; the code asks bufio how much it has. The names of VOID and UTF16 are not types of this model.
- JsonMessage.MessageRoundTrip: the same two, NaN payloads and strings that are not UTF-8, change inside a message, too.
- The layout of TSimpleJSONProtocol itself; only the context machine it shares with TJSONProtocol.
- BufferedTransport.DrainedIff: a write that returns zero bytes without an error, against the contract of io.Writer, would keep the flush looping; here a write that does not fail makes progress.
- Numbers in thrift.js are known by spelling and by whether they are NaN: a finite one is spelled as in JSON; writeBinary is writeString; writeMessageBegin and writeMessageEnd are not modelled.
- JsReader.WrittenReadsBack: the reader stands for a JSON parser with the steps of the library's read calls; their rstack is not modelled.
- Loops over a count are modelled counting down where the source counts up.
- Sockets, servers, code generation, generated parsers and the other languages' libraries.
