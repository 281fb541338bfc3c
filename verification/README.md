# Proofs about libinit, libthread and libprocess

This project models three parts of the repository in Dafny and proves what they are for.

**The protobuf-c codec** (`libs/libinit`), with which a parent process hands its child the child's initial data.
`Wire` has the scalar encodings of the Protocol Buffers "Encoding" specification. `Schema` has descriptors: a schema is a
sequence of message descriptors, and a MESSAGE field names its sub-descriptor by index, so descriptors may be recursive.
`Encoding` says what a message looks like on the wire and `Decoding` what a byte string stands for; both are plain functions.
Two of the modules tie these functions to the format itself, with its numbers written out and without the definitions they
share: `WireFormat` says what is written and `WireReading` what is read. `RequiredFields` says the same of fields that do not occur.
Everything else is proved about `Encoding` and `Decoding` or against them:

- *The laws.* `RoundTrip`: unpacking what was packed gives the message back; `UnknownFields` says for exactly which
  messages. `Merging` and `Concatenation`: concatenating serialised messages merges them; `MergeLoop` is the loop that merges,
  with its search for the field of a oneof's case. `ForwardCompat`: a program with
  an older schema passes on what it does not know. They share `SlotFold` (a message is unpacked one slot at a time) and `Reading` (a writer and a reader with
  possibly different schemas).
- *The printers.* `PackedSize` computes the length, `Packing` writes into an array at an offset and moves bytes over
  themselves, `Streaming` appends chunks to a growing buffer. All three agree with `Encoding.Encode`.
- *The parser.* `Scanner`, `Lookup`, `Slabs`, `Memory`, `HeapMerge` and `Unpacker` are the two-pass parser with its
  loops, its field cache, its bitmap and slabs, and an allocator that may refuse any request. `Unpacker.Unpack` computes
  `Decoding.Unpack` and loses no block, except where it reads outside its input or writes outside an array; `Strays` says
  where that is, and `Overruns` has an input.

**libthread's locks** (`libs/libthread`). `RecursiveLock`, `TicketLock`, `CondVar`, `Join` and `LockInit` are
transition systems with one step per atomic access, any number of threads and any schedule; what is proved holds in every reachable
state. `WaitQueue` is the linked list behind a condition variable.

**libprocess's bookkeeping** (`libs/libprocess`). `Lists` has the list macros, `Grant` the slot allocator of a child's
CNode with the rollback that jumps into a loop, `Connections` the reference counts that any number of handles share.

## Results that depart from what one might expect

- *Normal form.* The message that comes back from a round trip has booleans as 0 or 1 and unlabeled zeroes unset
  (`RoundTrip.Normalize`). An unlabeled float counts as zero for both zeroes, as the C comparison does.
- *Messages with all their known fields in order may not survive a round trip*: nothing looks at unknown fields, and those
  must be complete and have numbers the descriptor does not have (`UnknownFields.RoundTripIff`; `UnknownFields.HollowIsLost`
  is a message that is lost).
- *Unpacking can read outside its input.* `scan_length_prefixed_data` adds a length and the size of its prefix in 32 bits.
  A prefix for which the sum wraps makes the scan fail at the next tag, unless the field is a repeated field of
  integers or enumerators: then its elements are counted over more bytes than there are (`Strays.WrappedOutsideIff`). The
  bytes 0A FF FF FF FF 0F are such an input (`Strays.WrappedStrays`).
- *Unpacking can write outside an array.* Elements are counted in 64 bits and their array is allocated for the low 32. Of
  the members that can be applied, this goes wrong exactly if a field gets 2^32 elements or more (`Strays.AppliedStrays`,
  `Overruns.TwiceHalf`), so never for less than 2^32 bytes (`Decoding.ShortFits`). `Strays.UnpackStrays` is the exact condition for
  both, at every level, and `Unpacker.Unpack` is proved against it; `Strays.ShortStrays` says for which schemas shorter inputs can do it.
- *A message can be lost on its way into a buffer*: a chunk whose memory is refused is left out without notice
  (`Streaming.SimpleBuffer.Append`), and the length of the whole message is returned all the same (`Streaming.MessageToBuffer`).
- *`merge_messages` reads outside the descriptor exactly if some oneof is set in neither message*, at a level that is merged
  (`MergeLoop.MergeInto`, `Merging.EmptyLeavesBounds`). So an empty sub-message can be sent once and not twice
  (`Concatenation.TwiceEmpty`).
- *Merging is associative, inside the descriptor, exactly for schemas in which no oneof has a `bytes` case, nor a string
  case with a default beside a case that is none* (`Merging.MergeAssocIff`). An empty byte string owns no memory and so is taken for an unset
  one, and an unset union is not a string's default, so neither is moved to the later message even where the oneof's case says it is set.
- *`merge_messages` is not the specification's merge* (`Merging.KeptIff` has the exact condition). It drops the earlier
  message's unknown fields and keeps required fields and unlabeled scalars of the later message even if it lacks them.
  Two messages at the top level are not merged by it but field by field, so for them `Concatenation.UnpackConcat` holds
  without such a condition. For a oneof the last case set wins as a whole.
- *The ticket lock is right for up to 2^32 threads and for no more* (`TicketLock.TicketOrder`, `TicketLock.TooManyThreads`).
- *A failed grant of device memory or of an interrupt leaks the copied name exactly if both the entry and the name had been
  allocated* (`Grant.CopyDevmemToProc`, `Grant.CopyIrqToProc`; `Grant.LeakingCall` is such a call); slots and lists are restored.
- *An object can be freed in some run exactly if no destroyed handle's list holds it* (`Connections.CanStillBeFreed`). A
  destroyed handle gets an entry only if the slot its CNode had in the parent names another child's CNode by then
  (`Connections.ReachesDestroyed`): as long as no slot is used again every object can be freed
  (`Connections.FreeableWithoutReuse`), and with one used again an object can be kept for ever (`Connections.PinningRun`).
- *A connection that fails late leaves its record behind*: the child's initial data then names an object the child does not
  refer to (`Connections.Connect`).

## Model

| member | source | states |
|---|---|---|
| Wire.VarintInverse | libs/libinit/include/protobuf-c/protobuf-c.c:776-885 | Decoding a varint gives back every number it was made from, of any size. |
| Wire.VarintPrefixFree | libs/libinit/include/protobuf-c/protobuf-c.c:2713-2725 | If two varints are followed by anything and the results are equal, the numbers and what follows are equal. |
| Wire.TermLenAbsent | libs/libinit/include/protobuf-c/protobuf-c.c:2713-2725 | The length search fails exactly when every byte it may look at has its continuation bit set. |
| Wire.VarintTenfold | libs/libinit/include/protobuf-c/protobuf-c.c:1436-1440 | A number up to ten times larger takes at most one byte more, which is why the length prefix of a packed field can grow by one byte only. |
| Wire.TagSize | libs/libinit/include/protobuf-c/protobuf-c.c:235-250 | For every wire type, the size computed from a field number is the length of the tag varint. |
| Wire.UInt32Size | libs/libinit/include/protobuf-c/protobuf-c.c:260-275 | The comparison cascade computes the varint's length. |
| Wire.Int32Size | libs/libinit/include/protobuf-c/protobuf-c.c:285-300 | The size of a signed number is the length of the varint of its 64-bit sign extension, so ten for a negative one. |
| Wire.UInt64Size | libs/libinit/include/protobuf-c/protobuf-c.c:346-366 | The two-level cascade computes the varint's length on all 64-bit numbers. |
| Wire.ZigZag32Bijective | libs/libinit/include/protobuf-c/protobuf-c.c:312-319 | ZigZag and its inverse undo each other in both directions on all 32-bit numbers; the value is twice the magnitude, less one for negatives. |
| Wire.ZigZag64Bijective | libs/libinit/include/protobuf-c/protobuf-c.c:377-384 | The same for 64 bits. |
| Wire.ParseUInt32Value | libs/libinit/include/protobuf-c/protobuf-c.c:2385-2401 | The unrolled parser keeps exactly the low 32 bits of the varint's value, however long the varint is. |
| Wire.ParseUInt64Value | libs/libinit/include/protobuf-c/protobuf-c.c:2433-2451 | The loop's groups and weights add up to the low 64 bits of the varint's value. |
| Wire.TagFromShiftedId | libs/libinit/include/protobuf-c/protobuf-c.c:1067-1074 | The varint of the shifted field number has room for the wire type in its first byte: adding it there gives the tag. |
| Wire.LittleEndian32Inverse | libs/libinit/include/protobuf-c/protobuf-c.c:915-929 | Fixed 32-bit numbers are read back as written. |
| Wire.LittleEndian64Inverse | libs/libinit/include/protobuf-c/protobuf-c.c:946-956 | Fixed 64-bit numbers are read back as written. |
| Lookup.IntRangeLookup | libs/libinit/include/protobuf-c/protobuf-c.c:2023-2062 | On every sorted descriptor the binary search over id ranges returns the index a search of all fields returns, or -1 if no field has the id. |
| Lookup.TagAsInt | libs/libinit/include/protobuf-c/protobuf-c.c:3086-3094 | Passing an unsigned tag as a signed number does not change what is found. |
| Lookup.OrSetsBit | libs/libinit/include/protobuf-c/protobuf-c.c:3001-3002 | Or-ing a power of two sets that bit and no other. |
| Lookup.BitmapSet | libs/libinit/include/protobuf-c/protobuf-c.c:3001-3002 | Setting one index marks it and leaves every other index as it was. |
| Lookup.BitmapClear | libs/libinit/include/protobuf-c/protobuf-c.c:3048-3057 | After clearing, no index is marked. |
| Reading.ScanInverse | libs/libinit/include/protobuf-c/protobuf-c.c:3070-3209 | Splitting the bytes of any list of complete members gives the list back. |
| Reading.PayloadsRead | libs/libinit/include/protobuf-c/protobuf-c.c:2727-2853 | A packed body holding any number of elements is read back as those elements, in order. |
| Reading.ParsePackedAppend | libs/libinit/include/protobuf-c/protobuf-c.c:2727-2853 | Two packed bodies one behind the other are read as the elements of the first and then those of the second. |
| Reading.SlotRead | libs/libinit/include/protobuf-c/protobuf-c.c:1089-1456 | The members one field writes, read into the field's initial slot, give the slot's normal form, for every label and type. |
| Reading.OtherBlock | libs/libinit/include/protobuf-c/protobuf-c.c:2864-2915 | The members of one field never disturb another field's final slot, oneof siblings included. |
| Reading.FoldFields | libs/libinit/include/protobuf-c/protobuf-c.c:1470-1522 | After the members of the first n fields a slot is final if its field was among them and untouched if not. |
| SlotFold.ApplyAllBySlots | libs/libinit/include/protobuf-c/protobuf-c.c:3260-3274 | Applying members to a message is applying them to each slot separately and keeping the unknown ones in order. |
| RoundTrip.RequiredArePresent | libs/libinit/include/protobuf-c/protobuf-c.c:3239-3248 | What is packed always contains the required fields the parser insists on. |
| RoundTrip.UnpackEncode | libs/libinit/include/protobuf-c/protobuf-c.c:3007-3298 | For every schema and every message that can be packed - all labels and types, packed and unpacked, oneofs, nested messages, unknown fields - unpacking succeeds and gives the message in normal form. |
| WireReading.ComesBack | libs/libinit/include/protobuf-c/protobuf-c.c:527-570 | Field by field, every message that is packed and unpacked comes back as it was, but for booleans, which are 0 or 1, and for the values that are not sent, which are unset: of an unlabeled field outside a oneof exactly zero - both zeroes of a floating-point number - and the empty string or byte string. Any other number comes back with its pattern. |
| UnknownFields.MessageHalves | libs/libinit/include/protobuf-c/protobuf-c.c:1459-1466 | A message can be packed and read back exactly if its known fields are in order and its unknown fields are complete and unknown to its descriptor, at every level. |
| UnknownFields.UnpackForeign | libs/libinit/include/protobuf-c/protobuf-c.c:2872-2884 | Whatever the bytes, every unknown field of an unpacked message is complete and unknown to its descriptor, at every level. |
| UnknownFields.RoundTripIff | libs/libinit/include/protobuf-c/protobuf-c.c:3007-3298 | A message whose known fields are in order at every level comes back from a round trip if and only if its unknown fields are complete and unknown to their descriptors at every level. |
| UnknownFields.HollowIsLost | libs/libinit/include/protobuf-c/protobuf-c.c:2872-2884 | A message without fields and with one unknown varint of no bytes does not come back. |
| WireFormat.VarintOfIff | libs/libinit/include/protobuf-c/protobuf-c.c:776-885 | Bytes are the varint of a number exactly if all but the last have the top bit set, the groups of seven bits add up to the number, and there is no shorter form. |
| WireFormat.DataOfIff | libs/libinit/include/protobuf-c/protobuf-c.c:1089-1145 | What follows a tag, for every type and value: the varint of the number, sign-extended, zigzagged or as it is, four or eight bytes with weights 1, 256, 65536 and so on, or a length as a varint and as many bytes. Exactly these bytes are written. |
| WireFormat.EncodeIff | libs/libinit/include/protobuf-c/protobuf-c.c:1067-1522 | For every schema and message, the bytes written are the only ones of the form the specification describes, which is stated with its numbers written out: the fields that are sent in the order of the descriptor, each with the varint of eight times its number plus 0, 1, 2 or 5 by its type, or 2 if it is packed, then its data, and the unknown fields with their own number and wire type at the end. |
| WireReading.ScanMemberIff | libs/libinit/include/protobuf-c/protobuf-c.c:2064-2133 | The first member of any bytes: a tag in a varint of at most five bytes, low three bits the wire type, then for 0 a varint of at most ten bytes, for 1 eight bytes, for 5 four bytes, for 2 a varint of at most five bytes and as many bytes as its low 32 bits say, if the sum is less than 2^32; nothing else is a member. |
| WireReading.MemberOkIff | libs/libinit/include/protobuf-c/protobuf-c.c:2107-2133 | The data of a member is complete exactly if it is as long as its wire type calls for, all of it and nothing more. |
| WireReading.ScanIff | libs/libinit/include/protobuf-c/protobuf-c.c:3070-3163 | Bytes split into a list of members exactly if these follow each other in them with nothing left over. |
| WireReading.LeafIff | libs/libinit/include/protobuf-c/protobuf-c.c:2485-2584 | The value read from a complete member, for every type but a sub-message: none unless the wire type is the type's own or it is a boolean; otherwise the low 32 or 64 bits of the varint's number, zigzag undone, whether it is other than zero, the weighted bytes, the bytes behind the prefix, or those up to the first NUL. |
| WireReading.SubmessageIff | libs/libinit/include/protobuf-c/protobuf-c.c:2585-2614 | A sub-message is read exactly if the wire type is 2 and the bytes behind the prefix unpack. |
| WireReading.ElementsIff | libs/libinit/include/protobuf-c/protobuf-c.c:2727-2853 | A packed body is read as these elements exactly if it consists of them: four bytes, eight bytes, one byte that is 0 or 1, or a varint of at most ten bytes each. |
| WireReading.RepeatedReads | libs/libinit/include/protobuf-c/protobuf-c.c:2899-2911 | A repeated number whose member is length-prefixed is read packed, declared so or not; otherwise, and for strings and byte strings, one element is appended. |
| RequiredFields.NotMentioned | libs/libinit/include/protobuf-c/protobuf-c.c:2925-2972 | A field whose number no member has, nor any other case of its oneof, is an empty list, the default of a required field, or not set. |
| RequiredFields.RequiredSetIff | libs/libinit/include/protobuf-c/protobuf-c.c:3239-3248 | In the message that the members give, a required field is set if and only if it has a default or some member has its number. |
| RequiredFields.UnpackIff | libs/libinit/include/protobuf-c/protobuf-c.c:3007-3298 | Bytes unpack to a message if and only if they split into at most 2^27 - 16 members that give this message, every required field of it is set, and no list has 2^32 elements or more. |
| RequiredFields.SizeIsRequired | libs/libinit/include/protobuf-c/protobuf-c.c:3239-3248 | An instance: `required uint64 size = 2` holding 5 is packed as 10 05 and unpacked from that, and no bytes at all do not unpack. |
| Merging.MergeTyped | libs/libinit/include/protobuf-c/protobuf-c.c:2161-2331 | Merging well-typed messages gives a well-typed message. |
| Merging.MergeAssoc | libs/libinit/include/protobuf-c/protobuf-c.c:2161-2331 | In schemas whose oneofs move as a whole, three occurrences merge to the same message whichever two are merged first. |
| Merging.MergeAssocFails | libs/libinit/include/protobuf-c/protobuf-c.c:2232-2327 | Where one value of a oneof moves and another stays, there are three messages, with every merge inside the descriptor, for which the order of merging matters. |
| Merging.MergeAssocIff | libs/libinit/include/protobuf-c/protobuf-c.c:2161-2331 | Merging is associative, on all messages for which both orders stay inside the descriptor, if and only if no oneof of the schema has a `bytes` case, nor a string case with a default beside a case that is none. |
| Merging.EmptyLeavesBounds | libs/libinit/include/protobuf-c/protobuf-c.c:2236-2246 | Merging two empty messages reads the field before the first one exactly for the descriptors with a oneof. |
| Merging.NoOneofsInBounds | libs/libinit/include/protobuf-c/protobuf-c.c:2161-2331 | In schemas without oneofs every merge stays inside the descriptor. |
| Merging.KeptIff | libs/libinit/include/protobuf-c/protobuf-c.c:2161-2331 | The code's merge stays inside the descriptor and gives the specification's merge exactly if at every level each oneof is set in one of the two messages and nothing is lost: no unknown field, required field, unlabeled scalar, byte string beside an empty one, or, in a oneof, string with a default or empty byte string. |
| Merging.MergedFields | libs/libinit/include/protobuf-c/protobuf-c.c:2161-2331 | Every field of a merged message: sub-messages in both are merged in turn; any other field is the specification's where it is kept, and otherwise the one of the two that the specification does not call for. |
| MergeLoop.MergeOneof | libs/libinit/include/protobuf-c/protobuf-c.c:2232-2327 | A field of a oneof: the case word of the earlier message is looked up, and the field found, not the one the loop is at, is moved or stays; a lookup that finds nothing happens only where the merge leaves the descriptor. |
| MergeLoop.MergePlain | libs/libinit/include/protobuf-c/protobuf-c.c:2184-2327 | A field outside oneofs becomes the merged field, with sub-messages merged by the same loop. |
| MergeLoop.MergeInto | libs/libinit/include/protobuf-c/protobuf-c.c:2161-2331 | The loop over the fields, with oneofs stored as one case word each, computes the merged message, or leaves the descriptor exactly if, at some level that is merged, a oneof is set in neither message. |
| MergeLoop.MergeCased | libs/libinit/include/protobuf-c/protobuf-c.c:2232-2327 | A merged message has at most one case of each oneof set if the two messages have. |
| MergeLoop.UnpackCased | libs/libinit/include/protobuf-c/protobuf-c.c:2619-2690 | Whatever the bytes, an unpacked message has at most one case of each oneof set, at every level. |
| Concatenation.ScanAppend | libs/libinit/include/protobuf-c/protobuf-c.c:3070-3209 | The members of a concatenation are the members of the two halves. |
| Concatenation.UnpackTyped | libs/libinit/include/protobuf-c/protobuf-c.c:3007-3298 | Whatever the bytes, an unpacked message is well-typed. |
| Concatenation.FoldForgets | libs/libinit/include/protobuf-c/protobuf-c.c:2619-2690 | Once a member touches a singular field that is not a sub-message, what the slot held before does not matter. |
| Concatenation.FoldRepeated | libs/libinit/include/protobuf-c/protobuf-c.c:2693-2711 | Members read into a repeated field that already has elements append the same elements they give on their own. |
| Concatenation.FoldChain | libs/libinit/include/protobuf-c/protobuf-c.c:2585-2614 | In every schema each further occurrence of a sub-message is merged into what is there, and the first that cannot be merged ends it. |
| Concatenation.FoldMerges | libs/libinit/include/protobuf-c/protobuf-c.c:2585-2614 | In such schemas all the occurrences of a sub-message that follow merge into the earlier one as their own merge does, and fail exactly if merging them one after the other leaves the descriptor. |
| Concatenation.UnpackConcat | libs/libinit/include/protobuf-c/protobuf-c.c:2585-2614 | For every schema, unpacking the concatenation of any two byte strings that unpack gives the first message with the second behind it - repeated fields appended, each further occurrence of a sub-message merged in order, the last mentioned value elsewhere, unknown fields appended - and nothing exactly if there are too many members, a repeated field gets 2^32 elements or more, or an occurrence cannot be merged because a oneof is set on neither side. |
| Concatenation.UnpackConcatMerges | libs/libinit/include/protobuf-c/protobuf-c.c:2585-2614 | In schemas in which the order of merging does not matter, the sub-messages of the two halves are merged once, however often they occur in each. |
| Concatenation.TwiceEmpty | libs/libinit/include/protobuf-c/protobuf-c.c:2585-2614 | The bytes 0A 00, an empty sub-message whose type has a oneof, unpack; twice the same bytes do not. |
| Concatenation.TouchedIfSet | libs/libinit/include/protobuf-c/protobuf-c.c:2619-2690 | Whether bytes mention a field can be told from the message they unpack to: the field, or its oneof, is set. |
| Concatenation.UnpackConcatLastWins | libs/libinit/include/protobuf-c/protobuf-c.c:2585-2614 | The concatenation stands for the specification's merge of the two messages if and only if the sub-messages they have in common lose nothing when merged. |
| ForwardCompat.UnpackNewer | libs/libinit/include/protobuf-c/protobuf-c.c:2872-2884 | An older schema, a subset of the fields at every level, unpacks a newer message to the fields it has, with the others kept raw and in order. |
| ForwardCompat.DowngradeOk | libs/libinit/include/protobuf-c/protobuf-c.c:1459-1466 | What the older program holds can be packed again and takes exactly as many bytes as the original. |
| ForwardCompat.SizesAlong | libs/libinit/include/protobuf-c/protobuf-c.c:1519-1520 | Field by field, known and kept members together take the bytes of the original's members. |
| ForwardCompat.RequiredPassedOn | libs/libinit/include/protobuf-c/protobuf-c.c:3239-3248 | Required fields of the newer schema survive the older program, also those it does not know. |
| ForwardCompat.PassOn | libs/libinit/include/protobuf-c/protobuf-c.c:2872-2884 | Unpacking with the newer schema what the older program repacked gives the original message in normal form. |
| ForwardCompat.OlderIsSubset | libs/libinit/include/protobuf-c/protobuf-c.c:2872-2884 | An older descriptor, as the proofs walk it, is one whose fields are a subset of the newer one's. |
| PackedSize.ScalarLengths | libs/libinit/include/protobuf-c/protobuf-c.c:1321-1337 | The elements of a packed field take between the type's minimum and ten times the minimum, and exactly the minimum unless the type is a varint. |
| PackedSize.RepeatedLength | libs/libinit/include/protobuf-c/protobuf-c.c:610-685 | A repeated field takes one tag per element, or one tag and one length prefix if packed and not empty. |
| PackedSize.PayloadSize | libs/libinit/include/protobuf-c/protobuf-c.c:413-461 | The size computed for a value is the length of its bytes. |
| PackedSize.RequiredFieldSize | libs/libinit/include/protobuf-c/protobuf-c.c:413-461 | The same with the tag. |
| PackedSize.RepeatedFieldSize | libs/libinit/include/protobuf-c/protobuf-c.c:610-685 | The size computed for a repeated field is the length of its bytes, packed or not. |
| PackedSize.FieldSize | libs/libinit/include/protobuf-c/protobuf-c.c:477-594 | The same for every label, including fields that are not sent. |
| PackedSize.MessageSize | libs/libinit/include/protobuf-c/protobuf-c.c:708-754 | The size computed for a message is the length of the serialised message. |
| Bits.OrDisjoint | libs/libinit/include/protobuf-c/protobuf-c.c:858-885 | Or-ing a multiple of 2^k with a number below 2^k adds them. |
| Bits.OrContinue | libs/libinit/include/protobuf-c/protobuf-c.c:776-800 | Setting the continuation bit and truncating to a byte keeps the low seven bits. |
| Packing.UInt32Pack | libs/libinit/include/protobuf-c/protobuf-c.c:776-800 | Writes the varint at its offset, returns its length and changes no other byte. |
| Packing.Int32Pack | libs/libinit/include/protobuf-c/protobuf-c.c:813-828 | Writes the varint of the 64-bit sign extension: ten bytes for a negative number. |
| Packing.UInt64Pack | libs/libinit/include/protobuf-c/protobuf-c.c:858-885 | The two-halves form, with a byte that straddles them, writes the same varint. |
| Packing.TagWirePack | libs/libinit/include/protobuf-c/protobuf-c.c:1092-1098 | `tag_pack` followed by or-ing the wire type in place writes the tag. |
| Packing.PrefixedPack | libs/libinit/include/protobuf-c/protobuf-c.c:993-1025 | Writes length and bytes. |
| Packing.PrefixedMessagePack | libs/libinit/include/protobuf-c/protobuf-c.c:1038-1051 | A sub-message written one byte in and moved if its length needs more ends up as length and message, with nothing else changed. |
| Packing.PayloadPack | libs/libinit/include/protobuf-c/protobuf-c.c:1088-1137 | Writes exactly a value's bytes. |
| Packing.RequiredFieldPack | libs/libinit/include/protobuf-c/protobuf-c.c:1088-1137 | Writes exactly a field's tag and value. |
| Packing.LengthSizes | libs/libinit/include/protobuf-c/protobuf-c.c:1436-1440 | The source's assertion holds: the real length prefix is as long as the one reserved, or one byte longer. |
| Packing.PackedFieldPack | libs/libinit/include/protobuf-c/protobuf-c.c:1361-1444 | A packed field ends up as tag, minimal length prefix and payload, moved by one byte or not. |
| Packing.RepeatedFieldPack | libs/libinit/include/protobuf-c/protobuf-c.c:1354-1457 | Writes exactly a repeated field's bytes. |
| Packing.FieldPack | libs/libinit/include/protobuf-c/protobuf-c.c:1154-1223 | Writes exactly a field's bytes for every label; fields that are not sent write nothing. |
| Packing.UnknownFieldPack | libs/libinit/include/protobuf-c/protobuf-c.c:1459-1466 | Writes an unknown field's tag and raw bytes. |
| Packing.MessagePack | libs/libinit/include/protobuf-c/protobuf-c.c:1470-1522 | Writes exactly the serialised message, returns its length - the size `MessageSize` returns - and changes no byte outside it, whatever the buffer held. |
| Streaming.SimpleBuffer.Append | libs/libinit/include/protobuf-c/protobuf-c.c:186-215 | The chunk goes behind the earlier contents, in a new block of twice the size or more if it does not fit, for which the old block is freed; if that block is refused, which happens exactly if the chunk does not fit and the request is not granted, the buffer is unchanged and the caller is not told. |
| Streaming.SimpleBuffer.Grow | libs/libinit/include/protobuf-c/protobuf-c.c:192-210 | The doubling loop ends, and the contents are kept when the memory is replaced. |
| Streaming.PackedPayloadLength | libs/libinit/include/protobuf-c/protobuf-c.c:1744-1798 | The second length computation for packed payloads agrees with the bytes. |
| Streaming.PackedPayloadToBuffer | libs/libinit/include/protobuf-c/protobuf-c.c:1814-1906 | Unless memory is refused, appending a fixed-width array whole appends the same bytes as packing its elements. |
| Streaming.RequiredFieldToBuffer | libs/libinit/include/protobuf-c/protobuf-c.c:1545-1645 | Unless memory is refused, the chunks of a field are its bytes. |
| Streaming.SubmessageToBuffer | libs/libinit/include/protobuf-c/protobuf-c.c:1622-1639 | A sub-message goes through a buffer of its own, whose block is given back; if some of its memory was refused, the length read from it may be more than its array has. |
| Streaming.RepeatedFieldToBuffer | libs/libinit/include/protobuf-c/protobuf-c.c:1908-1942 | Unless memory is refused, the chunks of a repeated field are its bytes. |
| Streaming.FieldToBuffer | libs/libinit/include/protobuf-c/protobuf-c.c:1661-1732 | The same for every label. |
| Streaming.UnknownFieldToBuffer | libs/libinit/include/protobuf-c/protobuf-c.c:1944-1955 | Unless memory is refused, the chunks of an unknown field are its tag and raw bytes. |
| Streaming.MessageToBuffer | libs/libinit/include/protobuf-c/protobuf-c.c:1959-2012 | Unless memory is refused, all chunks together are exactly what `MessagePack` writes. In any case the length of the whole message is returned and no block is lost, except if the buffer of a sub-message is read outside its array, which takes a refusal. |
| Scanner.ScanVarint | libs/libinit/include/protobuf-c/protobuf-c.c:2713-2725 | The loop finds the varint's length, or that it does not end in time. |
| Scanner.ParseTagAndWiretype | libs/libinit/include/protobuf-c/protobuf-c.c:2064-2091 | The loop with its shifted groups finds field number, wire type and length of a tag, and fails exactly on malformed ones. |
| Scanner.ScanLengthPrefixed | libs/libinit/include/protobuf-c/protobuf-c.c:2106-2133 | The loop finds a length prefix and returns the 32-bit sum of its size and what it announces, or 0 if the prefix is incomplete or the sum is more than there is. |
| Scanner.WrapsShape | libs/libinit/include/protobuf-c/protobuf-c.c:2128-2132 | The sum wraps only for prefixes of five bytes, and then it is at most four. |
| Scanner.WrapsFails | libs/libinit/include/protobuf-c/protobuf-c.c:2128-2132 | After such a prefix, if the sum is not 0, the next tag found is a part of the prefix and has the wire type 7, so the scan fails there. |
| Scanner.ParseBooleanBytes | libs/libinit/include/protobuf-c/protobuf-c.c:2475-2483 | True exactly if some group of the varint is not zero. |
| Scanner.ParseUInt64Bytes | libs/libinit/include/protobuf-c/protobuf-c.c:2433-2451 | The shifting loop computes the number. |
| Scanner.MaxB128Numbers | libs/libinit/include/protobuf-c/protobuf-c.c:2135-2143 | The loop counts the bytes that end a varint, and runs over the end of the input exactly if it is told to look at more bytes than there are. |
| Scanner.CountPackedElements | libs/libinit/include/protobuf-c/protobuf-c.c:2341-2383 | The scanning pass's count for a body of a given length: terminator bytes for varints, a division for fixed widths, refused if it does not divide, the length for booleans; it runs over the end of the input exactly if the type is a varint other than a boolean and the length is more than there is. |
| Scanner.ReservedStep | libs/libinit/include/protobuf-c/protobuf-c.c:2135-2143 | Reading one element takes exactly one off the count of the rest. |
| Scanner.ReservedExactly | libs/libinit/include/protobuf-c/protobuf-c.c:2727-2853 | Every packed body the parsing pass accepts has exactly as many elements as the scanning pass counted. |
| Strays.StepHeld | libs/libinit/include/protobuf-c/protobuf-c.c:2693-2850 | A repeated field that a member is parsed into grows by what the scanning pass counted for the member, and something was stored behind the end of its array exactly if it ends up longer than that. |
| Decoding.ShortFits | libs/libinit/include/protobuf-c/protobuf-c.c:3214-3235 | From less than 2^32 bytes no repeated field gets more elements than its array, allocated for the low 32 bits of their number, has room for. |
| Strays.WrappedOutsideIff | libs/libinit/include/protobuf-c/protobuf-c.c:3185-3195 | Behind a prefix that wraps, the rest of the length as a 64-bit number is more than any input holds, so counting runs over its end exactly if the field is a repeated field of integers or enumerators. |
| Strays.AppliedStrays | libs/libinit/include/protobuf-c/protobuf-c.c:3214-3274 | Where all members can be applied, unpacking writes outside an array, its own or a sub-message's, exactly if a repeated field gets 2^32 elements or more. |
| Strays.ScanStraysFails | libs/libinit/include/protobuf-c/protobuf-c.c:3185-3205 | Where the scan reads outside its input, the bytes are no sequence of complete members. |
| Strays.UnpackStraysFails | libs/libinit/include/protobuf-c/protobuf-c.c:3007-3298 | Bytes on which unpacking reads outside its input or writes outside an array, in its own passes or in those of a sub-message it reaches, stand for no message. |
| Strays.CanStray | libs/libinit/include/protobuf-c/protobuf-c.c:3185-3205 | A descriptor has an input of less than 2^64 bytes on which its scan reads outside if and only if it has a repeated field of integers or enumerators. |
| Strays.ShortStrays | libs/libinit/include/protobuf-c/protobuf-c.c:3007-3298 | A schema has an input of less than 2^32 bytes on which unpacking strays if and only if some descriptor has a repeated field of integers or enumerators. |
| Strays.WrappedStrays | libs/libinit/include/protobuf-c/protobuf-c.c:2128-2143 | On the bytes 0A FF FF FF FF 0F, for a message with one repeated field 1, unpacking reads outside its input if and only if the field's type is a varint and not a boolean. |
| Overruns.TwiceHalf | libs/libinit/include/protobuf-c/protobuf-c.c:3214-3235 | For a repeated boolean, the bytes 0A 80 80 80 80 08 with 2^31 zeroes behind them unpack; twice the same bytes make unpacking write outside the array, which is allocated for no element. |
| Slabs.Capacity | libs/libinit/include/protobuf-c/protobuf-c.c:2990-2999 | The 23 slabs hold 2^27 - 16 entries together. |
| Slabs.SlabList.Push | libs/libinit/include/protobuf-c/protobuf-c.c:3164-3181 | Pushing appends to the contents or fails, and fails only at capacity or when memory is refused. |
| Slabs.SlabList.Grow | libs/libinit/include/protobuf-c/protobuf-c.c:3164-3178 | Starting a slab of twice the size keeps the contents; a full container of 23 slabs is the only other failure. |
| Slabs.SlabList.Store | libs/libinit/include/protobuf-c/protobuf-c.c:3181-3181 | The store is inside the current slab. |
| Slabs.SlabList.FreeAll | libs/libinit/include/protobuf-c/protobuf-c.c:3276-3278 | The clean-up loop gives back every slab but the one on the stack. |
| Memory.Heap.Alloc | libs/libinit/include/protobuf-c/protobuf-c.c:161-165 | A granted block is new and a refused request changes nothing; which requests are granted is the allocator's to decide. |
| Memory.Heap.Free | libs/libinit/include/protobuf-c/protobuf-c.c:167-171 | Freeing needs a live block, which rules out freeing twice; NULL is ignored. |
| Memory.FreeUnpacked | libs/libinit/include/protobuf-c/protobuf-c.c:3300-3387 | Frees exactly the blocks a message owns, at every depth, each once. |
| HeapMerge.MergeRepeated | libs/libinit/include/protobuf-c/protobuf-c.c:2184-2215 | Concatenating two arrays moves, reuses or replaces them without losing a block, and gives the elements of both in order. |
| HeapMerge.MergeField | libs/libinit/include/protobuf-c/protobuf-c.c:2216-2328 | For each label and type the two slots own the same blocks between them afterwards, and the later one is the merged slot. |
| HeapMerge.MergeInto | libs/libinit/include/protobuf-c/protobuf-c.c:2161-2331 | Merging with allocations that may be refused: the two messages own disjoint blocks afterwards and none is lost, and without a refusal the later one is the merged message. |
| Unpacker.ParsePackedRepeated | libs/libinit/include/protobuf-c/protobuf-c.c:2727-2853 | The element loops accept exactly the well-formed bodies and store the elements in order; they go past the end of the array exactly if more elements are read, up to the end or a malformed one, than there is room for. |
| Unpacker.ParseNumber | libs/libinit/include/protobuf-c/protobuf-c.c:2485-2539 | A number is read exactly when the wire type fits its field type. |
| Unpacker.ParseString | libs/libinit/include/protobuf-c/protobuf-c.c:2540-2558 | The old string is freed, the new one stops at the first NUL, and a refusal leaves neither behind. |
| Unpacker.ParseBytes | libs/libinit/include/protobuf-c/protobuf-c.c:2559-2584 | The same for byte strings; an empty one owns no block. |
| Unpacker.ParseMessage | libs/libinit/include/protobuf-c/protobuf-c.c:2585-2614 | A repeated occurrence is unpacked, merged and the earlier message freed, also on failure, without losing a block. |
| Unpacker.ParseRequired | libs/libinit/include/protobuf-c/protobuf-c.c:2485-2617 | The value stored is the parsed one, merged with what was there if it is a sub-message. |
| Unpacker.ParseRepeated | libs/libinit/include/protobuf-c/protobuf-c.c:2693-2850 | The elements go behind those present, and behind the end of the array exactly if `Strays.Overruns` says so, also where the value itself turns out to be malformed. |
| Unpacker.ParseSlot | libs/libinit/include/protobuf-c/protobuf-c.c:2885-2912 | The label decides how a member changes its field's slot. |
| Unpacker.KeepUnknown | libs/libinit/include/protobuf-c/protobuf-c.c:2872-2884 | An unknown member is copied with its tag, wire type and bytes, inside the table allocated for them. |
| Unpacker.ParseMember | libs/libinit/include/protobuf-c/protobuf-c.c:2864-2915 | One member does to the message what `Decoding.Apply` says, or fails where it fails; it strays exactly if it is stored behind the end of its array or unpacking its sub-message strays. |
| Unpacker.ScanData | libs/libinit/include/protobuf-c/protobuf-c.c:3110-3160 | The switch over the wire type finds the length of the data after a tag, 0 if it is malformed, with the 32-bit sum for length-prefixed data. |
| Unpacker.LookUp | libs/libinit/include/protobuf-c/protobuf-c.c:3086-3102 | The one-entry cache never changes which field is found. |
| Unpacker.MarkRequired | libs/libinit/include/protobuf-c/protobuf-c.c:3104-3105 | Exactly the member's own index is marked, and only if its field is required. |
| Unpacker.ScanNext | libs/libinit/include/protobuf-c/protobuf-c.c:3070-3163 | An iteration finds the next member, its length and its field, or that it is malformed, or that its length prefix wraps; nothing is found behind a prefix that wraps. |
| Unpacker.ScanWrapped | libs/libinit/include/protobuf-c/protobuf-c.c:3163-3205 | A member whose prefix wraps is stored and its elements are counted, for every type by the loop or the division that counts any other's, over the length less the prefix as a 64-bit number: that reads outside the input exactly where `Strays.ScanStrays` says, and otherwise the scan fails with no block lost. |
| Unpacker.CountMember | libs/libinit/include/protobuf-c/protobuf-c.c:3183-3205 | A member adds its elements to its field's count, and a packed body that cannot be counted is refused; counting a complete member never leaves the input. |
| Unpacker.BadMember | libs/libinit/include/protobuf-c/protobuf-c.c:3191-3199 | A member refused while counting could not have been parsed. |
| Unpacker.ScanAll | libs/libinit/include/protobuf-c/protobuf-c.c:3070-3209 | The scanning pass leaves the members in the slabs, the counts of elements and of unknown fields, and the required fields marked; it fails only on bytes that do not unpack or on a refusal, and it reads outside its input exactly where `Strays.ScanStrays` says. |
| Unpacker.MarkedIsPresent | libs/libinit/include/protobuf-c/protobuf-c.c:3104-3105 | A required field is marked if and only if some member carries its id. |
| Unpacker.ReserveArrays | libs/libinit/include/protobuf-c/protobuf-c.c:3211-3249 | Each repeated field gets an array for the low 32 bits of its count, and a missing required field is found if there is one. |
| Unpacker.ParseSlab | libs/libinit/include/protobuf-c/protobuf-c.c:3260-3274 | The inner loop applies the members of one slab in order, each once, with indices in bounds. |
| Unpacker.ParseAll | libs/libinit/include/protobuf-c/protobuf-c.c:3260-3274 | The double loop over all slabs applies all members in input order, each once, and strays exactly if one of those it reaches does. |
| Unpacker.Unpack | libs/libinit/include/protobuf-c/protobuf-c.c:3007-3298 | With any request refused, unless the source reads outside its input or writes outside an array: the heap afterwards holds what it held plus exactly the blocks of the returned message, if any. Without a refusal the result is the message the bytes stand for, failure exactly if they stand for none, and `Strays.UnpackStrays` says exactly when the source strays. |
| Unpacker.UnpackAndFree | libs/libinit/include/protobuf-c/protobuf-c.c:3300-3387 | Unpacking and freeing leaves the heap as it was, for all bytes on which the source does not stray; without a refusal those are exactly the ones `Strays.UnpackStrays` does not hold of. |
| RecursiveLock.StepInv | libs/libthread/src/mutex.c:143-229 | Every single access of any thread keeps the lock's invariant. |
| RecursiveLock.RunInv | libs/libthread/src/mutex.c:143-229 | So does every interleaving of any number of threads. |
| RecursiveLock.MutualExclusion | libs/libthread/src/mutex.c:156-170 | No two threads hold the lock at once. |
| RecursiveLock.FreeLock | libs/libthread/src/mutex.c:200-215 | A free lock word means no holder, depth zero and no thread inside. |
| RecursiveLock.NeverFails | libs/libthread/src/mutex.c:156-162 | The assertion that the depth is positive never fails, and the word is never found corrupted on release. |
| RecursiveLock.OwnerOutside | libs/libthread/src/mutex.c:156-170 | Between calls the three words say who holds the lock and how deep. |
| RecursiveLock.ReleasedByLastUnlock | libs/libthread/src/mutex.c:200-215 | The word is released by the unlock that matches the outermost lock, and by nothing else. |
| RecursiveLock.LockFree | libs/libthread/src/mutex.c:164-170 | When the word is free, a thread's own five steps of `mutex_lock` acquire the lock at depth one: word, holder and depth are set and nothing else changes. |
| RecursiveLock.LockAgain | libs/libthread/src/mutex.c:156-163 | A holder that locks again succeeds at once and is one deeper, at any depth below the largest `int`; at that depth nothing changes. |
| RecursiveLock.UnlockLastOne | libs/libthread/src/mutex.c:200-207 | At depth one, the holder's own steps of `mutex_unlock` succeed and leave no depth, no holder and a free word. |
| RecursiveLock.UnlockInner | libs/libthread/src/mutex.c:200-211 | At a larger depth they succeed, leave word and holder, and take one off the depth. |
| RecursiveLock.UnlockOther | libs/libthread/src/mutex.c:200-215 | A thread that is not the holder changes nothing by unlocking. |
| RecursiveLock.HolderUndisturbed | libs/libthread/src/mutex.c:143-229 | Whatever the other threads do, and for however long, they change neither the lock's three words nor the holder while it is held. |
| RecursiveLock.Excluded | libs/libthread/src/mutex.c:164-170 | No step of another thread acquires a held lock or changes its words. |
| TicketLock.RunInv | libs/libthread/src/mutex.c:36-51 | Outstanding tickets are consecutive residues from `now_serving`, in every interleaving. |
| TicketLock.TicketOrder | libs/libthread/src/mutex.c:36-51 | With up to 2^32 threads there is one holder at a time and the lock is acquired in the order tickets were taken, also when the counters wrap. |
| TicketLock.Served | libs/libthread/src/mutex.c:42-46 | A waiting thread finds its ticket served exactly when it is the one that has waited longest. |
| TicketLock.Arrives | libs/libthread/src/mutex.c:42-46 | An arriving thread gets the next ticket and is the last to wait. |
| TicketLock.Handover | libs/libthread/src/mutex.c:48-51 | A holder's step leaves it idle and makes the ticket of the thread that has waited longest the one served, so that this thread's next step acquires the lock. |
| TicketLock.WaiterGetsIn | libs/libthread/src/mutex.c:36-51 | From every reachable state there is a way on in which a given waiting thread gets the lock. |
| TicketLock.TooManyThreads | libs/libthread/src/mutex.c:42-46 | The bound is exact: with any larger number of threads some run has two holders. |
| WaitQueue.Queue.Enqueue | libs/libthread/include/atomic_sync/helpers.h:63-73 | The node becomes the last of the queue. |
| WaitQueue.Queue.Dequeue | libs/libthread/include/atomic_sync/helpers.h:75-85 | The first node leaves the queue with no link back into it. |
| WaitQueue.Queue.SignalOnce | libs/libthread/src/conditional.c:115-125 | The first waiter is signalled, if there is one. |
| WaitQueue.Queue.SignalAll | libs/libthread/src/conditional.c:135-142 | The draining loop signals every waiter once, in order, and leaves the queue empty. |
| CondVar.StepInv | libs/libthread/src/conditional.c:87-142 | Every single access of any thread keeps the invariant. |
| CondVar.RunInv | libs/libthread/src/conditional.c:87-142 | So does every interleaving of any number of threads. |
| CondVar.NoLostWakeup | libs/libthread/src/conditional.c:87-107 | A thread past its enqueue is in the queue, in a signaller's hand or notified, and never two of these; any other thread is in none, so no node outlives its call. |
| CondVar.WakesWhenSignalled | libs/libthread/src/conditional.c:98-107 | A sleeping thread gets through exactly when its node has been taken and signalled. |
| CondVar.WakesLongest | libs/libthread/src/conditional.c:115-133 | Threads leave the queue in the order they entered it. |
| CondVar.SignalsSent | libs/libthread/src/conditional.c:126-142 | `cond_broadcast` wakes all it found, in order, and empties the queue; `cond_signal` wakes the first it found and leaves the others. |
| CondVar.SignalAlone | libs/libthread/src/conditional.c:126-133 | By call: with the queue lock free, a thread's own steps of `cond_signal` take the first waiter off the queue and notify it, leave the rest queued, and do nothing if there is none. |
| CondVar.BroadcastAlone | libs/libthread/src/conditional.c:135-142 | By call: its own steps of `cond_broadcast` empty the queue and notify exactly the threads that were in it. |
| CondVar.WaitAlone | libs/libthread/src/conditional.c:87-107 | By call: its own steps of `cond_wait` put it at the end of the queue, give the main lock back and leave it asleep. |
| CondVar.WakeAlone | libs/libthread/src/conditional.c:103-107 | A sleeper that is notified takes the main lock, when it is free, and is outside with the notification used up. |
| CondVar.AcquireAlone | libs/libthread/src/conditional.c:67-69 | Taking the free main lock makes the thread its holder. |
| CondVar.SignalNotAbsorbed | libs/libthread/src/conditional.c:115-125 | A signal never meets a flag already set, so a binary notification loses none. |
| CondVar.EnqueuedBeforeRelease | libs/libthread/src/conditional.c:87-107 | A waiter is queued or already signalled by the time it gives the main lock back. |
| Join.JoinReturnsResult | libs/libthread/src/thread.c:217-238 | For any number of joiners at any time, `thread_join` returns only after the routine has and with its value; a joiner that is woken finds the handle DESTROYED, so `if` is enough. |
| Join.StartAlone | libs/libthread/src/thread.c:129-193 | With the library lock free, the two steps of `thread_start` make an INIT handle RUNNING and set the thread going; on any other handle they leave both as they were. |
| Join.JoinCanReturn | libs/libthread/src/thread.c:217-238 | For any number of joiners, from every reachable state there is a way on in which a given joiner returns, and returns the routine's value. |
| Join.EarlyAndLate | libs/libthread/src/thread.c:217-238 | This covers both kinds of joiner: there are reachable states with one that waits while the routine has not even started, and with one that has not come yet when it has finished. |
| Join.JoinersWoken | libs/libthread/src/thread.c:98-126 | Once the thread has finished every waiting joiner has been notified and none is still queued. |
| Join.AttachedOnce | libs/libthread/include/thread/sync.h:50-55 | The condition variable is attached at most once, and never while a joiner is queued. |
| Join.LibraryExclusive | libs/libthread/src/thread.c:98-126 | At most one of the joiners and the joined thread is inside the library. |
| LockInit.CreatedOnce | libs/libthread/include/thread/sync.h:18-30 | The library lock is created at most once, and no thread gets past the initialisation before it has been. |
| LockInit.CanGoThrough | libs/libthread/include/thread/sync.h:18-30 | From every reachable state there is a way on in which a given thread gets past the initialisation. |
| Lists.List.Prepend | libs/libprocess/include/process/internal.h:14-17 | The node becomes the head of the list. |
| Lists.List.Pop | libs/libprocess/include/process/internal.h:19-22 | The head leaves the list. |
| Grant.Handle.CopyCapNextSlot | libs/libprocess/src/internal.c:65-83 | A copy succeeds exactly if the kernel carries it out, the next slot is free and the CNode is not full; then it takes that slot and moves on by one, and otherwise it changes nothing. |
| Grant.Handle.DeleteCapLastSlot | libs/libprocess/src/internal.c:89-100 | Empties the last slot and moves back by one. |
| Grant.FilledUndo | libs/libprocess/src/internal.c:89-100 | Deleting the last slot undoes the last copy. |
| Grant.GrantOne | libs/libprocess/src/config.c:470-492 | One object: all of its allocations and list entries, or exactly what the label it jumps to expects to find; the status says which of the three requests was refused first, or that the copy was not made. |
| Grant.Rollback | libs/libprocess/src/config.c:494-508 | Entered in the middle of the loop, the rollback restores lists, slots, slot counter and heap. |
| Grant.GiveUntypedResources | libs/libprocess/src/config.c:455-509 | For every number of objects and every failure point: all of them in fresh consecutive slots and at the head of both lists, or nothing changed. It succeeds exactly if three requests an object are granted, the kernel carries out a copy for each, and the slots are there and free. |
| Grant.CopyCaps | libs/libprocess/src/config.c:108-114 | All frame capabilities in consecutive slots, exactly if every copy can be made, or none. |
| Grant.UncopyCaps | libs/libprocess/src/config.c:133-135 | The countdown deletes exactly the slots that were filled. |
| Grant.CopyDevmemToProc | libs/libprocess/src/config.c:84-140 | Device memory is recorded with its slots, if capabilities are given, or slots and lists are as before; it is recorded exactly if the requests for the entry and, with capabilities, for the array of slots are granted and every copy can be made. A failed call leaves the heap as it was if and only if the request for the entry or the one for the name was refused, and else the copied name stays allocated. |
| Grant.CopyIrqToProc | libs/libprocess/src/config.c:52-79 | The same for an interrupt and its endpoint: recorded exactly if the request for the entry is granted and both copies can be made. |
| Grant.LeakingCall | libs/libprocess/src/config.c:52-79 | A call that leaks: everything is granted, the child's CNode has one slot left where two are needed, and one block is left over. |
| Connections.CanBeFreed | libs/libprocess/src/connect.c:197-203 | Where counts are occurrences, a count is zero exactly when no handle's list holds the object. |
| Connections.StepInv | libs/libprocess/src/destroy.c:87-102 | Creating, connecting, destroying and freeing, on any handles and objects, keep every count equal to the object's occurrences in all lists, and no list holds a freed object. |
| Connections.RunInv | libs/libprocess/src/connect.c:494-500 | So does every sequence of calls. |
| Connections.NoUnderflow | libs/libprocess/src/destroy.c:90-96 | No count is smaller than what destroying a handle takes off it. |
| Connections.FreeableAfterDestroy | libs/libprocess/src/destroy.c:87-102 | After a handle is destroyed an object can be freed exactly when no other handle shares it. |
| Connections.SharedTooLate | libs/libprocess/src/connect.c:441-503 | An object that a destroyed handle's list holds keeps a positive count in every later state. |
| Connections.CanStillBeFreed | libs/libprocess/src/destroy.c:28-102 | From any state some run frees an object if and only if no destroyed handle's list holds it. |
| Connections.OnlyConnectPins | libs/libprocess/src/connect.c:441-503 | Whatever the step, an object can be freed in some run after it if and only if it could before and the step does not connect it to a handle that is destroyed, at whose state `process_connect` does not look. |
| Connections.ReachesDestroyed | libs/libprocess/src/connect.c:237-262 | Connecting to a destroyed handle gets past the copy exactly if the object is no shared memory and the parent's slot of the handle's CNode names another child's CNode by now. |
| Connections.FreeableWithoutReuse | libs/libprocess/src/destroy.c:28-120 | As long as no slot has been used for a second CNode, every object can still be freed in some run, whatever was connected, destroyed and freed before and in whatever order. |
| Connections.PinningRun | libs/libprocess/src/connect.c:441-503 | With a slot used again an endpoint or a notification can be kept for ever: from the empty system, create a handle and the object, destroy the handle, create a handle whose CNode gets the slot, connect the object to the first. |
| Connections.InitShmem | libs/libprocess/src/connect.c:55-91 | All frames of a shared memory, exactly if no request is refused, or none, with the reverse clean-up loop. |
| Connections.CreateConnObj | libs/libprocess/src/connect.c:131-158 | An object with count zero that owns what was allocated for it, exactly if no request is refused, or nothing allocated. |
| Connections.CreateProcess | libs/libprocess/src/create.c:74-84 | A new handle shares nothing, and its CNode has a slot that names no other CNode at the time. |
| Connections.Connect | libs/libprocess/src/connect.c:441-503 | With a handle, success adds one list entry and one to the count; failure, and the parent itself, change neither. The record in the child's initial data is there exactly if the requests up to the copy were granted and the copy, which needs a CNode in the handle's slot or an address space, succeeded; so it stays when only the reference is refused. |
| Connections.ReleaseOne | libs/libprocess/src/destroy.c:90-102 | One round of the loop takes one entry off the list and one off its object's count, which was positive, and frees the entry. |
| Connections.Destroy | libs/libprocess/src/destroy.c:28-120 | Destroys once only; the CNode's slot is given up, every entry of the handle is released, and the other handles' are not touched. |
| Connections.FreeConnObj | libs/libprocess/src/connect.c:197-224 | Refused exactly while some list holds the object; otherwise all that creating it took is given back. |

## Left out

- Packing.MessagePack: for messages of less than 2^31 bytes and at most as many members as the slabs hold (`Encoding.MessageOk`), so that the `unsigned` counters do not wrap; the same holds for the other printers and for the theorems about `Encoding.Encode`.
- Concatenation.UnpackConcatLastWins: for schemas in which the order of merging does not matter (`Merging.MergeAssocIff`), and for messages without required fields that have a default, because such a field does not show whether the bytes mention it; `Concatenation.UnpackConcat` has both.
- Decoding.MergeSlot: an unset oneof is a union of zeroes, as the generated initialisers leave it; `message_init_generic` with a default in a oneof would put the default there and is not modelled. The memory of the default values is nowhere shared with a parsed value.
- MergeLoop.MergeInto: what happens after a read outside the descriptor is not modelled; on values, without the heap, which `HeapMerge.MergeInto` has.
- Unpacker.Unpack: for schemas without oneofs, as is `HeapMerge.MergeInto`; `Decoding.Unpack`, `MergeLoop.MergeInto` and the laws about them have them. Nothing is said about the heap after a read or write outside. `size_t` has 64 bits, and inputs are shorter than 2^64 bytes; with 32 bits the size of an array can wrap as well.
- Unpacker.ParseMember: message structs are values that name the blocks they own, so their update in place and pointers between them are not modelled; the element counts that the source keeps in the struct while it scans are a separate sequence (`CLEAR_REMAINING_N_PTRS` is not modelled).
- Streaming.MessageToBuffer: after a refused request nothing is said about the buffer's contents as a whole, only that each chunk is appended or left out (`Streaming.SimpleBuffer.Append`), nor about anything after a read outside a nested buffer.
- RecursiveLock.LockAgain: a call of `sync_atomic_increment_safe` or its counterpart is one atomic step that fails at the bounds; its retries are not modelled. Thread ids are distinct.
- CondVar.NoLostWakeup: the main lock is held once; libthread attaches its re-entrant lock, and a wait while that is held more than once, which does not give it back, is not modelled.
- Join.JoinReturnsResult: the handle is not destroyed by another thread, and the queue operations of the condition variable are single steps under the library lock.
- Join.StartAlone: a kernel that refuses to write the registers is not modelled; the source then leaves the handle RUNNING with nothing that runs.
- Grant.Handle.CopyCapNextSlot: minting with a badge takes the same steps and is not modelled apart.
- Connections.Connect: whether the kernel copies the capability is its own answer, a parameter, where the slot names a CNode; which slots of that CNode are in use is not modelled, nor the child's slot or mapping, which stays too when the reference is refused. Mapping into the address space of a destroyed handle, which is torn down, counts as failing. The three lists of records are one.
- Connections.Destroy: only the state change and the release of references; the child's kernel objects, address space and other lists are not modelled. The records of the child's initial data stay, as in the source.
- Connections.FreeConnObj: the order in which the frames are freed does not show in the heap's set of live blocks.
- `LOCK_NOTIFICATION` and `LOCK_NOTIFICATION_RECURSIVE`: foreign code.
- The memory model: every access is sequentially consistent, as the source asks for throughout.
- Threads that are killed while they hold a lock or are queued; fairness: that there is a way on for a thread is proved, not that the scheduler takes it.
- Big-endian branches, struct offsets and pointer casts, and the meaning of floating-point numbers, which are bit patterns here.
- Services, and searching descriptors by name: they would add easy members only.
- `process_create` and `init_process`: their failure paths and page counts are not usable as a specification.
- `lockvka.c`, `lockvspace.c`, `mmap.c`, `tls.c` and `lookup.c`: wrappers, foreign calls and a plain list search.
- seL4 system calls, capability derivation and rights: a call succeeds or fails, a CNode is a map from slots to capabilities.
