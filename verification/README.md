# nanopb and Alamofire cores, verified

A Dafny model of three pieces of machinery in the MangoPlate clone's dependencies, with proofs of what
each is for. `dafny verify dfyconfig.toml` checks everything.

**The nanopb protobuf codec (`nanopb/`).** Descriptors, message structs and the wire form are datatypes.
`WireEncode` and `WireDecode` define, as functions on byte sequences, what the C encoder and decoder do;
`Encoder`, `Decoder`, `InputStream`, `OutputStream` and `FieldIterator` are the C code's own loops and
in-place updates, as methods and classes, proved equal to those functions: the shift-and-mask varint loops,
the cyclic field iterator with its address arithmetic, substreams, the required-field bitmap, the
fixed-count tracker, the two-pass submessage encoder. The other files prove the properties of the functions,
and so of the loops: the message round trip, forward compatibility, readers with older descriptors, merging,
field order, packed arrays, and that any accepted input yields a well-typed struct. `WireForm`, `DecodedForm`
and `EncodeSucceeds` write down by themselves, in plain numbers, which bytes are sent for what, what is read
and refused, and which messages can be encoded. `PB_SIZE_MAX` is any of its three values. Lengths
and counts are C's; a message whose encoding has 2^64 bytes or more is outside the encoder's contracts.

**Alamofire's `AuthenticationInterceptor` (`alamofire/Auth*.dfy`).** A class whose lock sections update
its fields, and a transition system in which every lock section, every block on the dispatch queue and
every reply of the authenticator is one atomic step, in any interleaving, with any number of callers and
a non-decreasing clock. All theorems are about every run; `AuthSimpleForm` compares the class with a simple
form that is computed from the steps of the run alone.

**Alamofire's serializer pipeline and multipart encoders (`alamofire/RequestPipeline.dfy`,
`Pipeline*.dfy`, `LifeCycle.dfy`, `*Appends*.dfy`, `Multipart*.dfy`).** The pipeline is modelled as the
interceptor is, and proved to refine a simple sequential form. The two multipart encoders are loops over streams that deliver and
accept bytes in pieces of their own choosing, fail, or fill up; they are compared with each other, with
the grammar of section 5.1.1 of RFC 2046, and with a receiver. In the pipeline's transition system lock
sections interleave freely, more freely than the serial queue lets them; theorems about every run hold all the
more, and the witnesses named below use only interleavings that the queue allows.

Some expected properties do not hold of the code as it stands. Each has a lemma with a concrete case and
the exact condition under which it does hold:

- The 32-bit varint decoder does not accept every varint that the 64-bit one reads as a number below
  2^32: it rejects those whose bits above 63 the other drops (`Varint32Succeeds`, `Varint32RejectsDroppedBits`).
- Concatenating two encodings does not always merge them: with exactly one fixed-count field the second
  copy overflows the array (`LastOneWins`, `FixedCountExample`).
- The streaming multipart encoder does not check declared lengths, and the in-memory one does
  (`EncodersAgree`, `LengthUnchecked`).
- A cancelled request can end without its completions, in two ways: it is cancelled between a serializer's
  retry being asked for and its coming due, when `isFinishing` stays set and the retry is dropped
  (`CancelledRetryHangs`); or it is cancelled while its task is live and the task's error is answered with a
  retry, which is dropped as well (`CancelledTaskHangs`). With serializers appended in time there is no
  other way (`QuietOutcome`).
- A serializer is lost if it is appended between the pipeline's last check and its clearing of the lists
  (`LateSerializerLost`, `LateNeverBegun`); and of two appended after the drain the first can be lost
  (`CanBeForgotten`). All earlier appends in time, its completion is sure to be called, in every run that ends
  quiet without a dropped retry and whatever is appended later, if and only if it is appended in time, or to a
  cancelled request while no chain stands between check and clearing (`SureToRunWhen`).
- The completion of a serializer appended after the drain can be called twice, by two chains that a second
  append or a finish call sets going (`CalledTwiceAtRest`, `CalledTwice`). All earlier appends in time, it is
  sure to be called exactly once in every such run if and only if its serializer is appended in time
  (`SureOnceWhen`).
- If all other appends, later ones included, are in time, the two conditions are that no chain stands between
  check and clearing (`SureAmongTimelyWhen`), and that the serializer is appended in time, or to a cancelled
  request for which nothing else is pending (`OnceAmongTimelyWhen`).

## Model

| member | source | states |
|---|---|---|
| `RoundTrip.RoundTrips` | MangoPlateCloneApp/Pods/nanopb/pb_encode.c:528-550 | For every well-formed descriptor tree and every encodable message, decoding the encoding succeeds, consumes it to the last byte and gives an equal message: through nesting, repeated, packed, fixed-count, union and implicit-presence fields; only values of absent optional fields and bytes after a NUL may differ |
| `RoundTrip.EncodingInjective` | MangoPlateCloneApp/Pods/nanopb/pb_encode.c:528-550 | Two encodable messages with the same encoding are equal in that sense |
| `Equality.SameMsgs` | MangoPlateCloneApp/Pods/nanopb/pb_encode.c:528-550 | Messages equal in that sense to the same message are equal to each other, through nesting |
| `Equality.MergeDefaults` | MangoPlateCloneApp/Pods/nanopb/pb_decode.c:917-932 | Merging any encodable message into the defaults of its type always fits and gives that message |
| `Equality.ZeroIsDefault` | MangoPlateCloneApp/Pods/nanopb/pb_encode.c:240-335 | A value that is not sent because it is zero equals the default that the decoder puts there, also for a submessage all of whose fields are defaults |
| `WireForm.MsgHasForm` | MangoPlateCloneApp/Pods/nanopb/pb_encode.c:528-550 | The bytes sent for a message have the wire form, written down by itself: for every field in order nothing if it is silent, and otherwise its records, or for an array of numbers one record that packs them |
| `WireForm.SlotHasForm` | MangoPlateCloneApp/Pods/nanopb/pb_encode.c:341-428 | The same of one field |
| `WireForm.ItemHasForm` | MangoPlateCloneApp/Pods/nanopb/pb_encode.c:769-911 | The same of one item: the shortest varint of the number (two's complement in 64 bits, zigzag, or 0 and 1), the four or eight bytes of a word, or a length and as many bytes; a string ends before its first NUL |
| `WireForm.RecordHasForm` | MangoPlateCloneApp/Pods/nanopb/pb_encode.c:669-707 | A record is the key 8 * tag + wire type, with wire type 0 for varints, 1 for 64-bit, 2 for length-prefixed and 5 for 32-bit items, and the item |
| `WireForm.ItemIsPayload` | MangoPlateCloneApp/Pods/nanopb/pb_encode.c:675-707 | Every item is a well-formed payload of the wire type it is announced with, so a reader that does not know the field skips exactly it |
| `WireForm.SilentSlot` | MangoPlateCloneApp/Pods/nanopb/pb_encode.c:341-428 | Exactly when a field sends nothing: it is absent, empty, another member of its union is set, or its presence is implicit and it is not to be sent as of ZeroIsNotSent; and exactly when the check for defaults passes |
| `WireForm.ZeroIsNotSent` | MangoPlateCloneApp/Pods/nanopb/pb_encode.c:240-335 | An implicit value is not sent if and only if it is 0, false, empty, of no size, or a submessage that itself sends nothing and has no fixed-count arrays |
| `WireForm.EmptyMsg` | MangoPlateCloneApp/Pods/nanopb/pb_encode.c:316-317 | All fields of a message are defaults if and only if it sends nothing and has no fixed-count arrays |
| `EncodeSucceeds.EncodesWhen` | MangoPlateCloneApp/Pods/nanopb/pb_encode.c:528-550 | For any contents at all, encoding succeeds if and only if every item that is to be sent is of its field's kind and within its size, and every array has as many items as it may or must have, down through submessages |
| `MergeRun.MsgRun` | MangoPlateCloneApp/Pods/nanopb/pb_decode.c:934-1082 | Decoding an encoding over any message of the type succeeds if and only if every array of the message, down through submessages and the union members in place, has room for the new items as well, and then gives the merge of the two |
| `MergeRun.RunFrom` | MangoPlateCloneApp/Pods/nanopb/pb_decode.c:952-1030 | The field loop over what the fields from the i-th on emit, from any decoder state between records: the merged message, all required fields seen, the fixed-count tracker at the last fixed-count field; failure exactly when some array has no room or the next fixed-count array is the one just completed |
| `MergeRun.FixedClash` | MangoPlateCloneApp/Pods/nanopb/pb_decode.c:1000-1028 | Any record for a fixed-count array that is already complete makes decoding fail |
| `Concatenation.LastOneWins` | MangoPlateCloneApp/Pods/nanopb/pb_decode.c:934-1030 | For two encodings A and B of one type, pb_decode of A followed by B is the second message merged into the first; it fails if and only if some array of the first, as decoded, has no room for the items of the second, or the type has exactly one (non-empty) fixed-count field |
| `Concatenation.FixedCountExample` | MangoPlateCloneApp/Pods/nanopb/pb_decode.c:1000-1028 | A type with one fixed-count array, and a message of it whose encoding is decoded, while the same encoding twice in a row is an error |
| `Concatenation.ConcatIsMerge` | MangoPlateCloneApp/Pods/nanopb/pb_decode.c:934-1030 | For arbitrary accepted inputs, decoding A followed by B equals decoding B over the result of A, except exactly when A ended with the non-empty fixed-count field that B starts with; then it fails |
| `Concatenation.OneFixedMeets` | MangoPlateCloneApp/Pods/nanopb/pb_decode.c:1000-1019 | The first and the last fixed-count field of a type coincide if and only if there is exactly one |
| `MergeMeaning.MergedFields` | MangoPlateCloneApp/Pods/nanopb/pb_decode.c:406-483 | What the merge means for every field: the last scalar wins, an absent field keeps what was there, arrays append, fixed-count arrays are overwritten, submessages merge as Submessages says; a union takes the new member, merged into the old one if that is the same member and into a fresh one otherwise, and stays as it is if the new message has none |
| `MergeMeaning.RoomForMerge` | MangoPlateCloneApp/Pods/nanopb/pb_decode.c:406-483 | The merge of messages exists if and only if every array that is not fixed-count has room for the items of both, recursively through submessages and union members |
| `MergeMeaning.ItemsWritten` | MangoPlateCloneApp/Pods/nanopb/pb_decode.c:424-464 | Writing items into an array succeeds if and only if they fit, changes only the positions written, and puts each item at its position |
| `Submessages.MergedInto` | MangoPlateCloneApp/Pods/nanopb/pb_decode.c:1525-1547 | A merged submessage is the merge of the new one into the very message that the field held, a union's member included; the old value is named, not computed |
| `Submessages.MergedFresh` | MangoPlateCloneApp/Pods/nanopb/pb_decode.c:466-478 | A union member that replaces another one, or comes into an empty union, is merged into the defaults of its type |
| `Submessages.IntoHeld` | MangoPlateCloneApp/Pods/nanopb/pb_decode.c:1525-1547 | A record of a submessage field with any payload, accepted or not, is decoded over the message that the field holds |
| `Submessages.IntoFresh` | MangoPlateCloneApp/Pods/nanopb/pb_decode.c:466-478 | A record of a union member that the union does not hold is decoded over the defaults |
| `Submessages.IntoArray` | MangoPlateCloneApp/Pods/nanopb/pb_decode.c:450-464 | An item of an array of submessages is decoded over the defaults and appended; it is refused if and only if the array is full or the payload is |
| `Submessages.RecordsJoin` | MangoPlateCloneApp/Pods/nanopb/pb_decode.c:1525-1547 | Two records of a submessage field with the payloads p and q decode as one with p followed by q, whatever comes next, unless q begins with the fixed-count array that p ended with |
| `ScalarRoundTrip.ScalarRun` | MangoPlateCloneApp/Pods/nanopb/pb_decode.c:1334-1523 | Every scalar, bytes or string value that fits its field is encoded, and decoded back with any suffix left unread; no range check fires |
| `ScalarRoundTrip.SignedSurvives` | MangoPlateCloneApp/Pods/nanopb/pb_decode.c:1345-1380 | An 8-, 16-, 32- or 64-bit signed value survives the cast to 64 bits and back, so the clamp check never fires on it |
| `ScalarRoundTrip.UnsignedSurvives` | MangoPlateCloneApp/Pods/nanopb/pb_decode.c:1382-1404 | The same for unsigned values |
| `ScalarRoundTrip.ZigZagSurvives` | MangoPlateCloneApp/Pods/nanopb/pb_decode.c:1285-1297 | The same for zigzag-coded values |
| `ForwardCompat.InsertUnknown` | MangoPlateCloneApp/Pods/nanopb/pb_decode.c:952-995 | A well-formed record with an unknown valid tag, inserted at any record boundary, with anything behind it, changes neither the success nor the result of decoding |
| `ForwardCompat.UnknownStep` | MangoPlateCloneApp/Pods/nanopb/pb_decode.c:966-995 | One turn of the field loop consumes exactly the unknown record and changes no variable |
| `ForwardCompat.SkipExact` | MangoPlateCloneApp/Pods/nanopb/pb_decode.c:321-331 | Skipping consumes exactly one well-formed payload of its wire type, whatever follows |
| `OldReader.OldReaderReads` | MangoPlateCloneApp/Pods/nanopb/pb_decode.c:934-1096 | A reader whose descriptor lacks some of the writer's fields, in submessages too, decodes every encoding to the last byte and gets all it can hold of the message, up to the equality of the round trip |
| `OldReader.MsgOld` | MangoPlateCloneApp/Pods/nanopb/pb_decode.c:934-1082 | Over any struct of the reader's type, what the newer writer sends for a message is decoded, or refused, like what would be sent for the part that the reader can hold |
| `OldReader.MsgKnown` | MangoPlateCloneApp/Pods/nanopb/pb_encode.c:528-550 | That part can be encoded itself, in no more bytes |
| `OldReader.KnownField` | MangoPlateCloneApp/Pods/nanopb/pb_decode.c:966-995 | The reader can hold every value other than submessages of the fields that it has |
| `OldReader.KnownMember` | MangoPlateCloneApp/Pods/nanopb/pb_decode.c:966-995 | Of a union it can hold the member, or none if it lacks that member |
| `OldReader.KnownNested` | MangoPlateCloneApp/Pods/nanopb/pb_decode.c:1525-1547 | Of a submessage it can hold what it can hold of its fields |
| `Locality.StepLocal` | MangoPlateCloneApp/Pods/nanopb/pb_decode.c:952-1030 | A turn of the field loop that succeeds does the same with more bytes behind: it never looks past its record |
| `Locality.LoopConcat` | MangoPlateCloneApp/Pods/nanopb/pb_decode.c:952-1030 | The loop over A followed by B is the loop over A continued with B |
| `FieldOrder.OrderIndependent` | MangoPlateCloneApp/Pods/nanopb/pb_decode.c:952-1030 | Without fixed-count fields, two inputs with the same records in the same order for each storage cell decode alike, error or result, over any message; order between cells and unknown records do not matter |
| `FieldOrder.SameRun` | MangoPlateCloneApp/Pods/nanopb/pb_decode.c:952-1030 | The same for the field loop from any state |
| `EncodedRecords.EncodedAsRecords` | MangoPlateCloneApp/Pods/nanopb/pb_encode.c:528-550 | The encoder output is the concatenation of records, one run per field in descriptor order, each of which has a payload of its own wire type that could also be skipped |
| `EncodedRecords.ReorderedRoundTrip` | MangoPlateCloneApp/Pods/nanopb/pb_decode.c:952-1030 | Any reordering of an encoding that keeps each cell's records in order, with unknown records mixed in, decodes to the original message |
| `PackedArrays.ChunksDecode` | MangoPlateCloneApp/Pods/nanopb/pb_decode.c:424-464 | However the items of a repeated scalar are cut into packed runs, also empty ones, and single tagged items, decoding appends their concatenation, and is accepted if and only if the total fits array_size |
| `PackedArrays.FixedChunksDecode` | MangoPlateCloneApp/Pods/nanopb/pb_decode.c:424-464 | However the items of a fixed-count scalar array are cut, decoding from between arrays writes their concatenation from index 0 on, over what was there, and fails exactly when they are more than array_size |
| `PackedArrays.FixedChunksAccepted` | MangoPlateCloneApp/Pods/nanopb/pb_decode.c:952-1037 | A message that brings only such an array is accepted, where no field is required, if and only if the total equals array_size |
| `PackedArrays.ChunksEncode` | MangoPlateCloneApp/Pods/nanopb/pb_encode.c:147-236 | Every such cutting has an encoding |
| `PackedArrays.MergeItemsAppends` | MangoPlateCloneApp/Pods/nanopb/pb_decode.c:424-464 | Writing at the end of an array appends, and fails exactly when there is no room |
| `DecodeConforms.NoinitConforms` | MangoPlateCloneApp/Pods/nanopb/pb_decode.c:934-1082 | Whatever bytes are accepted, the resulting struct is one of the descriptor's type: counts within arrays, strings terminated inside data_size, integers within their widths, which_ a member tag |
| `DecodeConforms.DecodedConforms` | MangoPlateCloneApp/Pods/nanopb/pb_decode.c:1084-1096 | The same for pb_decode, from any input at all |
| `DecodedForm.UnsignedAccepted` | MangoPlateCloneApp/Pods/nanopb/pb_decode.c:1382-1404 | An unsigned field of 1, 2, 4 or 8 bytes takes the number read if it is below 2^8, 2^16, 2^32 or 2^64, and fails otherwise |
| `DecodedForm.SignedAccepted` | MangoPlateCloneApp/Pods/nanopb/pb_decode.c:1345-1380 | A signed field reads the low 64 bits, or 32 if it is narrower, as a two's complement, takes it if it is in its range and fails otherwise |
| `DecodedForm.ZigZagAccepted` | MangoPlateCloneApp/Pods/nanopb/pb_decode.c:1406-1428 | A zigzag field takes n/2 for even and -(n+1)/2 for odd n if that is in its range, and fails otherwise |
| `DecodedForm.BoolAccepted` | MangoPlateCloneApp/Pods/nanopb/pb_decode.c:1334-1343 | Any 32-bit varint but 0 is true |
| `DecodedForm.FixedAccepted` | MangoPlateCloneApp/Pods/nanopb/pb_decode.c:1299-1330 | Fixed-width fields take the next four or eight bytes, whatever they are, and fail if there are fewer |
| `DecodedForm.BytesAccepted` | MangoPlateCloneApp/Pods/nanopb/pb_decode.c:1447-1485 | A bytes value is taken if and only if all of it is there and fits behind the length member |
| `DecodedForm.TextAccepted` | MangoPlateCloneApp/Pods/nanopb/pb_decode.c:1487-1523 | A string is taken if and only if all of it is there and fits with a terminator, which it gets |
| `DecodedForm.FixedLengthAccepted` | MangoPlateCloneApp/Pods/nanopb/pb_decode.c:1549-1570 | Fixed-length bytes are taken if and only if they have exactly their length or none, which stands for zeros |
| `DecodedForm.LengthMember` | MangoPlateCloneApp/Pods/nanopb/pb.h:270-276 | The length member of a bytes field is exactly as wide as pb_size_t |
| `DecodedForm.UnionMembers` | MangoPlateCloneApp/Pods/nanopb/pb_common.c:53-59 | Two fields share a storage cell if and only if all fields up to the later one are marked as continuing the union |
| `DecodedForm.DefaultIs` | MangoPlateCloneApp/Pods/nanopb/pb_decode.c:885-900 | A field's initial value: its submessage's defaults, its default value, or zeros |
| `DecodedForm.Untouched` | MangoPlateCloneApp/Pods/nanopb/pb_decode.c:952-1030 | A storage cell without a record keeps its contents |
| `DecodedForm.NotReceived` | MangoPlateCloneApp/Pods/nanopb/pb_decode.c:917-932 | After pb_decode a field without a record is absent, empty or at its default |
| `DecodedForm.AcceptedWhen` | MangoPlateCloneApp/Pods/nanopb/pb_decode.c:1032-1079 | Without fixed-count fields, input of which every record can be decoded is accepted if and only if it has a record of every required field before which the descriptor has fewer than 64 required ones |
| `DecodedForm.LeftTooEarly` | MangoPlateCloneApp/Pods/nanopb/pb_decode.c:1000-1019 | A fixed-count array that is left before it is full makes the next record of another one fail |
| `DecodedForm.EndedTooEarly` | MangoPlateCloneApp/Pods/nanopb/pb_decode.c:1032-1037 | And so does the end of the message |
| `DecodedForm.ZeroKeyEnds` | MangoPlateCloneApp/Pods/nanopb/pb_decode.c:957-963 | A zero key at a record boundary ends the message; what follows is left unread |
| `DecodedForm.NoFields` | MangoPlateCloneApp/Pods/nanopb/pb_decode.c:973-995 | A type without fields takes tag 0 for its terminator and reads a varint, whatever the wire type |
| `DecodedForm.SkipAccepts` | MangoPlateCloneApp/Pods/nanopb/pb_decode.c:321-331 | Skipping succeeds if and only if the wire type is 0, 1, 2 or 5 and a whole payload of it is there |
| `DecodedForm.WireTypeIgnored` | MangoPlateCloneApp/Pods/nanopb/pb_decode.c:406-423 | The wire type of a record of a field other than an array does not matter |
| `DecodedForm.WireTypeOfArray` | MangoPlateCloneApp/Pods/nanopb/pb_decode.c:424-464 | For an array it matters only whether it is 2 |
| `Normalising.AcceptedNormalises` | MangoPlateCloneApp/Pods/nanopb/pb_decode.c:1084-1096 | Any input that is accepted: if the fixed-count arrays of the message are full and its payload lengths fit 32 bits, it can be encoded, and decoding that gives an equal message to the last byte |
| `Normalising.ConformingEncodable` | MangoPlateCloneApp/Pods/nanopb/pb_encode.c:528-550 | Any struct of the descriptor's type that meets these two conditions is encodable |
| `Varint.VarintRoundTrip` | MangoPlateCloneApp/Pods/nanopb/pb_decode.c:255-275 | Every uint64 is decoded from its encoding, with any suffix left unread |
| `Varint.VarintLength64` | MangoPlateCloneApp/Pods/nanopb/pb_encode.c:608-628 | The encoding of a uint64 has 1 to 10 bytes |
| `Varint.Dec64Exact` | MangoPlateCloneApp/Pods/nanopb/pb_decode.c:255-275 | What the 64-bit decoder reads from any varint of at most ten bytes, padded ones included: its number modulo 2^64 |
| `Varint.Dec32Exact` | MangoPlateCloneApp/Pods/nanopb/pb_decode.c:187-247 | Exactly which varints of at most ten bytes the 32-bit decoder accepts, and the number modulo 2^32 that it reads |
| `Varint.Varint32Refines` | MangoPlateCloneApp/Pods/nanopb/pb_decode.c:187-247 | When both decoders succeed they consume the same bytes and agree modulo 2^32 |
| `Varint.Varint32Succeeds` | MangoPlateCloneApp/Pods/nanopb/pb_decode.c:187-247 | For a 64-bit reading below 2^32 the 32-bit decoder succeeds if and only if the spelled number is below 2^64, that is, if no bits were dropped |
| `Varint.Varint32RejectsDroppedBits` | MangoPlateCloneApp/Pods/nanopb/pb_decode.c:187-247 | A ten-byte varint that the 64-bit decoder reads as 0 and the 32-bit decoder rejects |
| `Varint.Varint32RoundTrip` | MangoPlateCloneApp/Pods/nanopb/pb_decode.c:187-247 | Below 2^32 the 32-bit decoder inverts the encoder |
| `Varint.Varint32Negative` | MangoPlateCloneApp/Pods/nanopb/pb_decode.c:187-247 | A negative int32 is sent as ten bytes, and the 32-bit decoder reads its two's complement |
| `Varint.ZigZagBijection` | MangoPlateCloneApp/Pods/nanopb/pb_encode.c:630-639 | Zigzag is a bijection between int64 and uint64 |
| `ScalarRoundTrip.WordSurvives` | MangoPlateCloneApp/Pods/nanopb/pb_decode.c:1299-1330 | A little-endian word takes exactly its bytes, whatever follows, and gives back its number |
| `FieldIterator.FieldIter.constructor` | MangoPlateCloneApp/Pods/nanopb/pb_common.c:8-27 | A new iterator stands exactly at the first field |
| `FieldIterator.FieldIter.Begin` | MangoPlateCloneApp/Pods/nanopb/pb_common.c:8-27 | Restarts at the first field; tells whether there is one |
| `FieldIterator.FieldIter.Next` | MangoPlateCloneApp/Pods/nanopb/pb_common.c:29-85 | From any position the iterator moves to the next one, cyclically, and its data address and size address are that field's true ones, unions not advanced, the required index counting the required fields before it |
| `FieldIterator.FieldIter.Find` | MangoPlateCloneApp/Pods/nanopb/pb_common.c:87-104 | Terminates from any position; finds a tag if and only if the descriptor has it, stands there then and otherwise where it stood |
| `FieldIterator.UnionAddress` | MangoPlateCloneApp/Pods/nanopb/pb_common.c:53-59 | Fields that share a storage cell, the members of a union, have the same data address |
| `FieldIterator.FullCycle` | MangoPlateCloneApp/Pods/nanopb/pb_common.c:29-85 | After k of n steps, 0 < k <= n, the iterator is back at its position if and only if k is n |
| `FieldIterator.AllVisited` | MangoPlateCloneApp/Pods/nanopb/pb_common.c:87-104 | From every position every other one is reached within n - 1 steps |
| `RequiredBitmap.BitmapExact` | MangoPlateCloneApp/Pods/nanopb/pb_decode.c:1039-1079 | The two-word test with its partial mask passes if and only if every one of the first 64 required fields was seen |
| `RequiredBitmap.NoteField` | MangoPlateCloneApp/Pods/nanopb/pb_decode.c:1021-1026 | Setting the bit of a field adds that field, and nothing else, to the represented set |
| `RequiredBitmap.MaskTest` | MangoPlateCloneApp/Pods/nanopb/pb_decode.c:1060-1079 | A 32-bit word equals the mask of r ones if and only if its set bits are the r lowest |
| `Decoder.DecodeMessage` | MangoPlateCloneApp/Pods/nanopb/pb_decode.c:1084-1096 | pb_decode by its loops over streams, bitmap and iterator succeeds exactly when, and with the message that, the wire specification says; on success the stream's end has not moved |
| `Decoder.DecodeMerging` | MangoPlateCloneApp/Pods/nanopb/pb_decode.c:934-1082 | The same for pb_decode_noinit over a given message |
| `Decoder.FieldLoop.Run` | MangoPlateCloneApp/Pods/nanopb/pb_decode.c:952-1030 | The field loop terminates, since every turn takes at least one byte, never reads past the end, and leaves the state the specification gives |
| `Decoder.FieldLoop.Turn` | MangoPlateCloneApp/Pods/nanopb/pb_decode.c:952-1030 | One turn: tag, search, bookkeeping, decoding or skipping, with the early stop at a zero key |
| `Decoder.FieldLoop.KnownField` | MangoPlateCloneApp/Pods/nanopb/pb_decode.c:997-1029 | A record of a known field: array tracking, required bit and value |
| `Decoder.FieldLoop.TrackFixed` | MangoPlateCloneApp/Pods/nanopb/pb_decode.c:997-1019 | The bookkeeping for fixed-count arrays; fails when another one is incomplete |
| `Decoder.FieldLoop.NoteRequired` | MangoPlateCloneApp/Pods/nanopb/pb_decode.c:1021-1026 | The bit set for a required field keeps the bitmap equal to the set of required fields seen |
| `Decoder.FieldLoop.CountRequired` | MangoPlateCloneApp/Pods/nanopb/pb_decode.c:1045-1058 | From whatever position the iterator was left at, the number of required fields is found |
| `Decoder.FieldLoop.Check` | MangoPlateCloneApp/Pods/nanopb/pb_decode.c:1032-1079 | The final checks pass if and only if the last fixed-count array is complete and every one of the first 64 required fields was seen |
| `Decoder.DecodeStaticField` | MangoPlateCloneApp/Pods/nanopb/pb_decode.c:406-483 | Each presence kind: value, has_, count or which_ member and array overflow are as specified |
| `Decoder.DecodePacked` | MangoPlateCloneApp/Pods/nanopb/pb_decode.c:424-449 | The packed loop appends items until the chunk or the array ends, and reports failure exactly when items are left over or malformed |
| `Decoder.DecSubmessage` | MangoPlateCloneApp/Pods/nanopb/pb_decode.c:1525-1547 | Inside an array into a fresh message, otherwise over the very message that is there; the parent stream ends up behind the payload, whatever was read inside |
| `Decoder.SetToDefaults` | MangoPlateCloneApp/Pods/nanopb/pb_decode.c:917-932 | By a loop over the iterator, every cell gets its field's default, each union once |
| `Decoder.DecVarint` | MangoPlateCloneApp/Pods/nanopb/pb_decode.c:1345-1380 | Signed fields of every width: the value, or an error when it does not fit |
| `Decoder.DecUVarint` | MangoPlateCloneApp/Pods/nanopb/pb_decode.c:1382-1404 | Unsigned fields of every width, including the 32-bit clamp check |
| `Decoder.DecStringField` | MangoPlateCloneApp/Pods/nanopb/pb_decode.c:1487-1523 | A string is stored with its terminator, and refused exactly when it does not fit with it |
| `Decoder.DecBytesField` | MangoPlateCloneApp/Pods/nanopb/pb_decode.c:1447-1485 | A bytes value is refused exactly when it does not fit behind its length member |
| `InputStream.IStream.DecodeVarint32Eof` | MangoPlateCloneApp/Pods/nanopb/pb_decode.c:187-247 | The shift-and-mask loop reads exactly what the 32-bit specification gives and tells the end of the stream apart |
| `InputStream.IStream.DecodeVarint` | MangoPlateCloneApp/Pods/nanopb/pb_decode.c:255-275 | The same for the 64-bit loop |
| `InputStream.IStream.Read` | MangoPlateCloneApp/Pods/nanopb/pb_decode.c:102-139 | Copies exactly the bytes asked for, or fails without moving; position plus bytes left is unchanged |
| `InputStream.IStream.SkipField` | MangoPlateCloneApp/Pods/nanopb/pb_decode.c:321-331 | Skips one payload of the wire type, or fails; position plus bytes left is unchanged |
| `InputStream.IStream.MakeSubstream` | MangoPlateCloneApp/Pods/nanopb/pb_decode.c:372-385 | The substream has exactly the payload; the parent keeps exactly what follows it |
| `InputStream.IStream.CloseSubstream` | MangoPlateCloneApp/Pods/nanopb/pb_decode.c:387-400 | Whatever was read inside, the parent continues exactly behind the payload |
| `Encoder.Encode` | MangoPlateCloneApp/Pods/nanopb/pb_encode.c:528-550 | pb_encode fails or writes exactly the bytes of the wire specification, if and only if the stream has room for them, and touches nothing else of the buffer |
| `Encoder.EncodeSubmessage` | MangoPlateCloneApp/Pods/nanopb/pb_encode.c:717-765 | The same for a submessage with its length; the two passes agree at every depth, so the error for a changed size is unreachable |
| `Encoder.GetEncodedSize` | MangoPlateCloneApp/Pods/nanopb/pb_encode.c:567-576 | The sizing pass reports exactly the length of the encoding |
| `Encoder.EncodeIntoBuffer` | MangoPlateCloneApp/Pods/nanopb/pb_encode.c:86-100 | With the size that the sizing pass reported: encoding into a buffer succeeds if and only if the buffer has that many bytes, fills exactly these and leaves the others alone |
| `Encoder.EncodeArray` | MangoPlateCloneApp/Pods/nanopb/pb_encode.c:147-236 | Packed or tagged items; too many items are an error |
| `Encoder.PackedSize` | MangoPlateCloneApp/Pods/nanopb/pb_encode.c:168-189 | The computed payload length of a packed array, by multiplication or by a sizing pass, is its true length |
| `Encoder.CheckDefault` | MangoPlateCloneApp/Pods/nanopb/pb_encode.c:240-335 | Tells exactly the fields that are at their defaults, which WireForm.SilentSlot and ZeroIsNotSent describe |
| `Encoder.EncodeBasicField` | MangoPlateCloneApp/Pods/nanopb/pb_encode.c:341-428 | Each presence kind emits the bytes whose form WireForm.SlotHasForm gives, nothing, or an error |
| `OutputStream.OStream.Write` | MangoPlateCloneApp/Pods/nanopb/pb_encode.c:103-130 | All of the data or nothing is written; a sizing stream only counts |
| `OutputStream.OStream.VarintGroups` | MangoPlateCloneApp/Pods/nanopb/pb_encode.c:608-628 | The loop stays inside its ten-byte buffer and produces the specified bytes |
| `OutputStream.OStream.EncodeSVarint` | MangoPlateCloneApp/Pods/nanopb/pb_encode.c:630-639 | The shift and complement compute zigzag |
| `OutputStream.Then` | MangoPlateCloneApp/Pods/nanopb/pb_encode.c:103-130 | Writing one piece after another is writing their concatenation, also when the room ends in between |
| `AuthInvariants.OneRefreshAtATime` | MangoPlateCloneApp/Pods/Alamofire/Source/AuthenticationInterceptor.swift:319-402 | In every run: isRefreshing holds exactly when one refresh is outstanding, never two, and callers wait in a queue only then |
| `AuthInvariants.DeliveredAtMostOnce` | MangoPlateCloneApp/Pods/Alamofire/Source/AuthenticationInterceptor.swift:250-402 | In every run each submitted caller is answered at most once, unsubmitted ones never, each with an answer of its own kind; when no call, block or refresh is pending, every one has been answered, re-adapted ones included |
| `AuthInvariants.StepKeepsCallers` | MangoPlateCloneApp/Pods/Alamofire/Source/AuthenticationInterceptor.swift:250-402 | Every atomic step keeps every submitted caller in exactly one place: running, waiting, in a dispatched block, or answered |
| `AuthInvariants.StepKeepsRefresh` | MangoPlateCloneApp/Pods/Alamofire/Source/AuthenticationInterceptor.swift:330-402 | Every atomic step keeps the outstanding refreshes in line with isRefreshing |
| `AuthInvariants.RefreshRateBounded` | MangoPlateCloneApp/Pods/Alamofire/Source/AuthenticationInterceptor.swift:330-368 | In every run every closed window of the configured length holds at most maximumAttempts refresh starts, though the clock is read twice |
| `AuthInvariants.RateAppend` | MangoPlateCloneApp/Pods/Alamofire/Source/AuthenticationInterceptor.swift:355-368 | A refresh that passes the check at one clock reading and is recorded at a later one breaks no window |
| `AuthInvariants.NobodyStuck` | MangoPlateCloneApp/Pods/Alamofire/Source/AuthenticationInterceptor.swift:250-402 | In every reachable state with an unanswered caller some step other than a new call or a tick is possible |
| `AuthWork.BoundedWork` | MangoPlateCloneApp/Pods/Alamofire/Source/AuthenticationInterceptor.swift:250-402 | In every run with c callers and r refreshes started, at most 8c + r(4c + 9) steps are taken besides submissions, new credentials and ticks: without refreshing again and again, callers cannot keep each other going, so by NobodyStuck everyone is answered |
| `AuthWork.StepWork` | MangoPlateCloneApp/Pods/Alamofire/Source/AuthenticationInterceptor.swift:250-402 | Every such step uses up a measure of the work to come, unless it starts a refresh, which adds at most 4c + 8 |
| `AuthOutcomes.AnswersAreJustified` | MangoPlateCloneApp/Pods/Alamofire/Source/AuthenticationInterceptor.swift:250-402 | In every run each answer has its cause in the caller's own steps: a credential is the one its adapt found, and was given to the interceptor; excessive refresh, the refusal of the refresh that its own step asked for, the window being full at that clock reading; a refresh error, the first reply after it began to wait; a retry, a success as that first reply or a request not authenticated with the credential read; a missing credential, its own step that found none. Each refresh uses a credential that was given |
| `AuthOutcomes.StepJustified` | MangoPlateCloneApp/Pods/Alamofire/Source/AuthenticationInterceptor.swift:250-402 | Every atomic step keeps every answer, dispatched block and running call justified in this sense, and everyone queued waiting since a step of its own without a reply in between |
| `AuthSimpleForm.FollowsSimpleForm` | MangoPlateCloneApp/Pods/Alamofire/Source/AuthenticationInterceptor.swift:250-402 | In every run the fields are those of a simple form, computed from the steps alone, that has no flag, no blocks and no window arithmetic: the credential given last, the times of the refreshes started, the refresh in progress with the callers that wait for it in order of arrival, and everybody released so far, adapts before retries |
| `AuthSimpleForm.RecordsAndWaits` | MangoPlateCloneApp/Pods/Alamofire/Source/AuthenticationInterceptor.swift:250-353 | The recorded times are those of the refreshes that were started, refused ones left out; the waiting lists are in order of arrival; and a refresh is called with the credential that its first caller found, or read, for retry |
| `AuthSimpleForm.StoresLastGiven` | MangoPlateCloneApp/Pods/Alamofire/Source/AuthenticationInterceptor.swift:371 | In every run the stored credential is the one given last, by a reply or by the client |
| `AuthSimpleForm.AuthenticatedWithLast` | MangoPlateCloneApp/Pods/Alamofire/Source/AuthenticationInterceptor.swift:250-286 | A request is authenticated with the credential that was given last when its adapt call took its step |
| `AuthSimpleForm.ExcessiveIs` | MangoPlateCloneApp/Pods/Alamofire/Source/AuthenticationInterceptor.swift:355-368 | A refresh is refused if and only if there is a window and at least maximumAttempts refreshes were recorded from an interval ago until now |
| `AuthSimpleForm.RecentCount` | MangoPlateCloneApp/Pods/Alamofire/Source/AuthenticationInterceptor.swift:355-368 | The number that RefreshRateBounded bounds is the size of that set of recorded refreshes |
| `AuthSimpleForm.FirstComeFirstServed` | MangoPlateCloneApp/Pods/Alamofire/Source/AuthenticationInterceptor.swift:380-402 | Released callers have their turns in the order in which they were released, and all had theirs when the dispatch queue is empty |
| `AuthSimpleForm.OneAtATime` | MangoPlateCloneApp/Pods/Alamofire/Source/AuthenticationInterceptor.swift:380-383 | A caller whose turn it is to adapt again has done so before anybody else has a turn |
| `AuthInterceptor.Interceptor.AdaptSection` | MangoPlateCloneApp/Pods/Alamofire/Source/AuthenticationInterceptor.swift:250-274 | The lock section of adapt changes the fields as the protocol step does |
| `AuthInterceptor.Interceptor.RetrySection` | MangoPlateCloneApp/Pods/Alamofire/Source/AuthenticationInterceptor.swift:319-325 | The last lock section of retry likewise; the credential comes from an earlier section |
| `AuthInterceptor.Interceptor.Refresh` | MangoPlateCloneApp/Pods/Alamofire/Source/AuthenticationInterceptor.swift:330-353 | refresh likewise, with its two clock readings |
| `AuthInterceptor.Interceptor.CheckExcessive` | MangoPlateCloneApp/Pods/Alamofire/Source/AuthenticationInterceptor.swift:355-368 | The loop counts exactly the recorded refreshes inside the window |
| `AuthInterceptor.Interceptor.HandleRefreshSuccess` | MangoPlateCloneApp/Pods/Alamofire/Source/AuthenticationInterceptor.swift:370-386 | The new credential is stored, and all waiting callers move, in order, into one dispatched block; the state after it is that of the protocol step |
| `AuthInterceptor.Interceptor.HandleRefreshFailure` | MangoPlateCloneApp/Pods/Alamofire/Source/AuthenticationInterceptor.swift:388-402 | The credential stays, and all waiting callers move, in order, into one dispatched block with the error; likewise |
| `PipelineInvariants.RefinesSimpleForm` | MangoPlateCloneApp/Pods/Alamofire/Source/Request.swift:479-626 | Every history with serializers appended in time is one of a simple sequential form: one serializer at a time, in append order, in every attempt; a reset only in place of a serializer's completion or before the first; completions only after all serializers |
| `PipelineInvariants.SimpleForm` | MangoPlateCloneApp/Pods/Alamofire/Source/Request.swift:569-605 | In that form the current attempt has run a prefix of the serializers in order, and the completions called are, each once and in order, those of all of them |
| `PipelineOutcomes.QuietOutcome` | MangoPlateCloneApp/Pods/Alamofire/Source/Request.swift:493-626 | With serializers appended in time, when nothing is pending: none of the completions has been called if in some step a serializer's retry came due and found the request cancelled, or a task's retry did after the request had been cancelled while that task was live; otherwise every completion has been called |
| `PipelineOutcomes.FlagsTell` | MangoPlateCloneApp/Pods/Alamofire/Source/Session.swift:1202-1217 | The model's two bookkeeping flags say exactly that: a cancellation with a live task, and such a step, occurred in the run |
| `PipelineOutcomes.DroppedForever` | MangoPlateCloneApp/Pods/Alamofire/Source/Session.swift:1202-1217 | After such a step no continuation, appends in time, ever takes the completions |
| `PipelineOutcomes.CancelledRetryHangs` | MangoPlateCloneApp/Pods/Alamofire/Source/Request.swift:669-688 | A run in which a request, cancelled between a serializer's retry and its coming due, ends quiet without its completion |
| `PipelineOutcomes.CancelledTaskHangs` | MangoPlateCloneApp/Pods/Alamofire/Source/Session.swift:1202-1217 | A run in which a request, cancelled while its task is live and retried for that task's error, ends quiet without even beginning to finish |
| `PipelineOutcomes.LateSerializerLost` | MangoPlateCloneApp/Pods/Alamofire/Source/Request.swift:569-590 | A run in which a serializer appended between the check and the clearing is never begun |
| `LateAppends.LateNeverBegun` | MangoPlateCloneApp/Pods/Alamofire/Source/Request.swift:569-590 | Any serializer appended between the check and the first clearing is never begun and its completion never called, whatever follows |
| `LateAppends.CanBeLost` | MangoPlateCloneApp/Pods/Alamofire/Source/Request.swift:569-590 | From every state with a chain between check and clearing, all earlier appends in time, a continuation that ends quiet, drops no retry and never calls the completion |
| `AnyAppends.InTimeIsOnce` | MangoPlateCloneApp/Pods/Alamofire/Source/Request.swift:533-605 | The completion of a serializer appended in time is called exactly once in every run that ends quiet without a dropped retry, whatever else is appended, earlier or later, in time or not |
| `AnyAppends.SureOnceWhen` | MangoPlateCloneApp/Pods/Alamofire/Source/Request.swift:533-605 | All earlier appends in time: a completion is sure to be called exactly once, whatever else is appended later, if and only if its serializer is appended in time |
| `AnyAppends.SureToRunWhen` | MangoPlateCloneApp/Pods/Alamofire/Source/Request.swift:533-605 | All earlier appends in time: a completion is sure to be called at all, whatever else is appended later, if and only if its serializer is appended in time, or to a cancelled request while no chain stands between check and clearing |
| `AnyAppends.CanBeForgotten` | MangoPlateCloneApp/Pods/Alamofire/Source/Request.swift:533-626 | After the drain of a request that is not cancelled, a continuation with one more append, in which a retry resets the completions between two chains: it ends quiet and never calls the completion |
| `AnyAppends.CalledTwiceAtRest` | MangoPlateCloneApp/Pods/Alamofire/Source/Request.swift:533-605 | After the drain of a cancelled request at rest, a continuation with one more append that ends quiet and calls the completion at least twice |
| `LateAppends.AppendedIsRun` | MangoPlateCloneApp/Pods/Alamofire/Source/Request.swift:533-590 | All other appends in time: a serializer appended while no chain stands between check and clearing, before the completions are taken or after, has its completion called in every run that ends quiet without a dropped retry |
| `LateAppends.SureAmongTimelyWhen` | MangoPlateCloneApp/Pods/Alamofire/Source/Request.swift:533-590 | All other appends in time: a serializer is sure to be run, in every continuation that ends quiet without a dropped retry, if and only if at its append no chain stands between check and clearing |
| `LateAppendsOnce.OnceAmongTimelyWhen` | MangoPlateCloneApp/Pods/Alamofire/Source/Request.swift:533-605 | All other appends in time: a completion is sure to be called exactly once, in every such continuation, if and only if its serializer is appended in time, or after the drain to a cancelled request for which nothing else is pending |
| `LateAppendsOnce.CalledTwice` | MangoPlateCloneApp/Pods/Alamofire/Source/Request.swift:513-605 | From every other state after the drain without a chain between check and clearing, a continuation without appends that ends quiet, drops no retry and calls the completion at least twice, once for the chain that the append sets going and once for one that a finish call does |
| `PipelineProgress.BoundedWork` | MangoPlateCloneApp/Pods/Alamofire/Source/Request.swift:493-731 | In every run with n serializers, appended in time, and r retries the request, its task and its serializers take at most 10n + 12 + (5n + 6)r steps |
| `PipelineProgress.NotStuck` | MangoPlateCloneApp/Pods/Alamofire/Source/Request.swift:493-626 | Unless nothing is pending, one of these steps is possible |
| `PipelineInvariants.StepKeeps` | MangoPlateCloneApp/Pods/Alamofire/Source/Request.swift:513-731 | Every atomic step, appends in time, keeps at most one chain at work before the drain and exactly one thing leading to the end unless a cancellation added one |
| `PipelineInvariants.StatesOverRuns` | MangoPlateCloneApp/Pods/Alamofire/Source/Request.swift:50-63 | In every run, cancelled is never left, initialized never entered again, and finished left only by an append |
| `LifeCycle.LivesAsTold` | MangoPlateCloneApp/Pods/Alamofire/Source/Request.swift:50-731 | In every run, appends at any time: the state, whether the request is finishing, retryCount and the calls of finish still to come are those computed from the steps alone by a table of moves, and the lists are what was appended and completed since they were emptied |
| `LifeCycle.CancelTakesEffect` | MangoPlateCloneApp/Pods/Alamofire/Source/Request.swift:669-688 | After a cancellation in any run the request is cancelled, unless it had finished, and exactly one more finish is to come if it was active and has no live task |
| `LifeCycle.SuspendAndResume` | MangoPlateCloneApp/Pods/Alamofire/Source/Request.swift:691-731 | Suspending and resuming move every request that is neither cancelled nor finished, whatever its state, and no other |
| `LifeCycle.RetriesCounted` | MangoPlateCloneApp/Pods/Alamofire/Source/Request.swift:479-487 | retryCount is the number of retries prepared in the run |
| `RequestPipeline.Request.AppendResponseSerializer` | MangoPlateCloneApp/Pods/Alamofire/Source/Request.swift:533-549 | The new state, and what is to be dispatched |
| `RequestPipeline.Request.ProcessNextResponseSerializer` | MangoPlateCloneApp/Pods/Alamofire/Source/Request.swift:569-605 | Either the next serializer or, when none is left, all completions, cleared from the state |
| `RequestPipeline.Request.AddCompletion` | MangoPlateCloneApp/Pods/Alamofire/Source/Request.swift:607-610 | The completion is added behind the earlier ones of the attempt |
| `RequestPipeline.Request.Finish` | MangoPlateCloneApp/Pods/Alamofire/Source/Request.swift:513-526 | Only the first call starts the pipeline |
| `RequestPipeline.Request.PrepareForRetry` | MangoPlateCloneApp/Pods/Alamofire/Source/Request.swift:479-487 | The attempt's completions are dropped, the serializers stay |
| `RequestPipeline.Request.Cancel` | MangoPlateCloneApp/Pods/Alamofire/Source/Request.swift:669-688 | Any request but a finished one is cancelled; finish is to follow exactly when it was neither cancelled nor finished and there is no live task |
| `Multipart.BodyPart.EncodeBodyStream` | MangoPlateCloneApp/Pods/Alamofire/Source/MultipartFormData.swift:402-431 | Under every chunking of the input stream: all its bytes, or the read error, or the error for a wrong length |
| `Multipart.BodyPart.WriteBodyStream` | MangoPlateCloneApp/Pods/Alamofire/Source/MultipartFormData.swift:452-476 | Under every chunking and every pattern of partial writes the output receives exactly the input's bytes, as far as there is room |
| `Multipart.WriteBuffer` | MangoPlateCloneApp/Pods/Alamofire/Source/MultipartFormData.swift:493-509 | Under every pattern of partial writes the buffer arrives complete and in order, as far as there is room |
| `MultipartEncoders.MultipartFormData.Encode` | MangoPlateCloneApp/Pods/Alamofire/Source/MultipartFormData.swift:322-337 | The result is that of the specification, the first error first |
| `MultipartEncoders.MultipartFormData.WriteEncodedData` | MangoPlateCloneApp/Pods/Alamofire/Source/MultipartFormData.swift:347-371 | The output receives exactly the specified flow up to the first failing stream or the end of the room, and the error says which |
| `MultipartEncoders.MultipartFormData.SetBodyPartError` | MangoPlateCloneApp/Pods/Alamofire/Source/MultipartFormData.swift:539-542 | Only the first error is kept |
| `MultipartEncoders.MultipartFormData.ContentLength` | MangoPlateCloneApp/Pods/Alamofire/Source/MultipartFormData.swift:103 | The sum of the declared lengths |
| `MultipartEncoders.EncodersAgree` | MangoPlateCloneApp/Pods/Alamofire/Source/MultipartFormData.swift:322-509 | The in-memory encoder succeeds if and only if every stream delivers its declared length without failing, and then its result is the streamed bytes |
| `MultipartEncoders.LengthUnchecked` | MangoPlateCloneApp/Pods/Alamofire/Source/MultipartFormData.swift:402-476 | A stream whose length differs from the declared one is an error in memory, and is written out without one |
| `MultipartEncoders.SameOutcome` | MangoPlateCloneApp/Pods/Alamofire/Source/MultipartFormData.swift:322-509 | With room for everything, the two encoders come to the same bytes or the same error if and only if every stream delivers its declared length, or the first that does not fails; both succeed or both fail if and only if all deliver or some stream fails |
| `MultipartEncoders.CutOffSilently` | MangoPlateCloneApp/Pods/Alamofire/Source/MultipartFormData.swift:493-509 | Success is reported for output that was cut off if and only if no stream failed and an output that does not fail was full too early |
| `MultipartEncoders.StreamedEnding` | MangoPlateCloneApp/Pods/Alamofire/Source/MultipartFormData.swift:347-509 | The output holds all bytes, or as many as there is room for; a failing output that is full is the error reported, and otherwise a failing input |
| `MultipartForm.EncodedForm` | MangoPlateCloneApp/Pods/Alamofire/Source/MultipartFormData.swift:64-77 | Both encoders produce, for at least one part, the form that the grammar of multipart-body in section 5.1.1 of RFC 2046 gives, and for none nothing; the streaming one also when declared lengths are wrong. That no part contains the delimiter, which the section also asks for, nothing checks: see ReceivesWhatWasSent |
| `MultipartForm.CutForm` | MangoPlateCloneApp/Pods/Alamofire/Source/MultipartFormData.swift:433-476 | If a stream fails, the bytes sent are those of the form up to the last one that the stream delivered: a delimiter would be next |
| `MultipartForm.EncodedLength` | MangoPlateCloneApp/Pods/Alamofire/Source/MultipartFormData.swift:103 | An encoded form is longer than contentLength by its headers and |boundary| + 6 bytes for each of its delimiters, one more than its parts |
| `MultipartForm.ReceivesWhatWasSent` | MangoPlateCloneApp/Pods/Alamofire/Source/MultipartFormData.swift:322-391 | A receiver that splits at the delimiter gets back exactly the parts, if and only if no part contains the delimiter |
| `MultipartForm.PartsRoundTrip` | MangoPlateCloneApp/Pods/Alamofire/Source/MultipartFormData.swift:375-400 | The receiver also gets back every header and content, when the headers keep to their lines |
| `MultipartForm.ReceivesTexts` | MangoPlateCloneApp/Pods/Alamofire/Source/MultipartFormData.swift:64-77 | The close delimiter ends the body and every other delimiter starts a part |

## Left out

- nanopb callbacks, extensions, pointer fields and `pb_release`, streams with user callbacks, `PB_WITHOUT_64BIT`, `PB_ENCODE_ARRAYS_UNPACKED`, error message texts, the delimited and null-terminated wrappers.
- Struct memory: a message is a value that a decoder returns, not bytes written in place. Offsets appear only where the iterator computes them. A struct left behind by a failed decode is therefore not described; in particular an array's count may exceed its size there, since the code bumps it before it reports the overflow.
- Contents of a fixed-count array before its first record, and of a union before its tag is set, are not modelled: the array starts empty, the union without a member.
- Strings: bytes behind the terminator that was written last are not kept.
- `bool` fields hold 0 or 1, as `safe_read_bool` ensures; floats and doubles are their 32- or 64-bit patterns.
- Varints longer than ten bytes in the 32-bit decoder: `Varint.Dec32Exact` and its consequences are about at most ten bytes; the definition itself wraps the 8-bit shift count as the code does, with `uint_fast8_t` taken as 8 bits wide.
- Wire tag 0 against an empty descriptor matches the terminator, which is decoded as a bool into the struct and noted as a required field; the model consumes the same bytes and drops the store and the bit. Generated descriptors with fields never have tag 0.
- OldReader.OldReaderReads: the fields that the reader has are in the writer's order and have its sizes, array sizes and presence; a reader with smaller buffers or arrays may refuse what it is sent.
- Submessages.RecordsJoin: both payloads are accepted one after the other; if the first lacks a required field that the second has, only the joined record is accepted.
- DecodedForm.AcceptedWhen and DecodedForm.NotReceived: assume no fixed-count fields, as FieldOrder does.
- FieldOrder.OrderIndependent: assumes no fixed-count fields, because the tracker makes the order of their records matter.
- `PB_MAX_REQUIRED_FIELDS` is its default, 64; the required-field check ignores later ones, as the code does.
- Interceptor: which credentials require a refresh, which responses are authentication failures, and which requests were authenticated with a credential are choices of the environment; so are the credentials the authenticator returns, of which nothing is claimed to be the newest. A caller's completion is one step.
- AuthWork.BoundedWork: bounds the steps by the number of refreshes; whether an authenticator's credentials require a refresh at once, and so how many follow, is not the interceptor's choice. `RefreshRateBounded` bounds them per window.
- Pipeline: the `error` property, progress, metrics, validators, event monitors and state-handler notifications. A session being deinitialized, which calls `finish` at any time, is not among the steps. `retryCount` and the reset of `prepareForRetry` are one step.
- AnyAppends.SureOnceWhen and AnyAppends.SureToRunWhen: say what is not sure for an append after appends that were in time; for one after late appends there is `InTimeIsOnce`, which holds after any appends.
- PipelineProgress.BoundedWork: counts retries, which are the retrier's choice.
- Multipart: file checks, MIME lookup and header construction; opening, closing and the failure to open a stream. An output stream that is full has no space or reports an error; one that accepts zero bytes without an error is not modelled. Re-encoding an instance after further appends is covered by the methods' contracts, which take the marks as they are, but not by `MultipartForm.EncodedForm`, which is about fresh parts.
- Strings are their UTF-8 bytes; boundaries are any bytes without CR.
- The rest of the repository: URLSession plumbing, the UI code, SnapKit, RxSwift fragments and the applications themselves, which would only add easy members.
