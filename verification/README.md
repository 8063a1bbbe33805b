# The FlatBuffers and FlexBuffers codec

This project models the message codec that the server and the launcher use as their wire format, the
FlatBuffers 2.0.0 headers checked in with them, and proves that what is built verifies, that what
verifies can be read safely, and that what was put in is what is read.

The code that changes things step by step is modelled by classes and methods with loops
(`VectorDownward`, `FlatBufferBuilder`, `Verifier`, the FlexBuffers `Builder`, the generated `Create`
functions, the UTF-8 and escaping loops). Each method is proved to do what a function on values does, and
the properties are proved about those functions.

| files | what they model |
|---|---|
| Bytes, Padding, StringOrder, Sorting | little-endian scalars, alignment, string orders and strcmp, orders of keys |
| Tables, Objects | the readers, and what it means that a buffer holds an object |
| Builder, TableFields, Adds, Creation, VTables, SharedStrings, Runs, Finishing, Alignments, Layouts, FinishedRuns | the builder: tables and vtables, fields, strings, vectors, sharing, whole runs, Finish and retroactive alignment |
| Verification, VerifierSoundness, Acceptance, BuiltVerifies | the Verifier over a schema of field types; soundness, exactly what is accepted, and completeness |
| BufferStart, SortedVectors | the way back from a root to its buffer; vectors sorted by key |
| LoginLauncher, RealTimeRoundTrip, MessageSizes, MessageLayouts | the generated code of `UserState` and `RealTimeData`; the round trip, how large messages get, and where their parts lie |
| VectorDownward, FlatBufferBuilder, VerifierClass, LoginLauncherClass | the classes and the generated code as they run |
| FlexReading, FlexBuilder, FlexWidths, FlexWriting, FlexVectors, FlexLayouts, FlexRuns, FlexSizes, FlexRoundTrip, FlexBuilderClass | FlexBuffers |
| Utf8, Escaping | UTF-8 after RFC 3629, JSON strings after RFC 8259 |

Conventions. A message is a sequence of bytes with its front first, and a builder's offset counts from the
end, so growth at the front does not change it. A pointer into a buffer is its distance from the start.
The host is little-endian with a 64-bit `size_t`. An assertion of the source is a precondition, or it is
proved to hold. In proofs, `hide` keeps definitions out of sight where only their contracts matter.

Five places where the code does not do what one might expect are stated with their exact condition:
`VerifierSoundness.SizePrefixedComparesInside` (the identifier of a size-prefixed buffer is compared past
the end of a buffer of 8 to 11 bytes), `VerifierSoundness.OddVTable` (vtables of odd size when alignment
checking is off), `MessageSizes.DirectMessageRoundTrip` (ids with a NUL are cut there),
`Escaping.EscapeReversible` (`natural_utf8` copies control characters that RFC 8259, section 7, wants
escaped) and `Utf8.EncodeThenDecode` (the encoder also takes surrogates and numbers above U+10FFFF, which
the decoder rejects).

## Model

| member | source | states |
|---|---|---|
| `MessageSizes.SmallMessageRoundTrip` | GameLauncher/ImportLibrary/Inc/LoginLauncher_generated.h:36-280 | The round trip stated on the contents alone, with ids as strings of a given length, NULs included, created by CreateString(ptr, len) before CreateUserState: every message whose strings and lists are small enough for 2 GB is built, finished, accepted and read back as the same message, with or without forced defaults, sharing of vtables, identifier and size prefix |
| `MessageSizes.DirectMessageRoundTrip` | GameLauncher/ImportLibrary/Inc/LoginLauncher_generated.h:88-97 | The same with CreateUserStateDirect, which takes ids as C strings: what is read back is the message with every id cut at its first NUL, and it is the message given if and only if no id has a NUL |
| `LoginLauncher.DirectMessageCut` | GameLauncher/ImportLibrary/Inc/LoginLauncher_generated.h:88-97 | Building with CreateUserStateDirect gives the same builder state as building the message whose ids are cut at NUL |
| `LoginLauncher.CutSame` | DHNetWork/ImportLibrary/Inc/flatbuffers/flatbuffers.h:1558-1560 | Cutting the ids at NUL changes nothing if and only if no id has one |
| `MessageSizes.MessageSizeBound` | GameLauncher/ImportLibrary/Inc/LoginLauncher_generated.h:270-280 | A message takes at most a constant for each friend and request besides the bytes of its strings |
| `RealTimeRoundTrip.BuildVerifyRead` | GameLauncher/ImportLibrary/Inc/LoginLauncher_generated.h:215-280 | From a new builder, for every message, ids being strings of a given length: build it, finish it with or without identifier and size prefix; the Verifier accepts the buffer and the accessors give back exactly the friends (states that equal the default, ids that are absent) and the requests, absent vectors included |
| `RealTimeRoundTrip.MessageRoundTrip` | GameLauncher/ImportLibrary/Inc/LoginLauncher_generated.h:215-280 | The same for any builder state in which the message object has been created, whatever else the buffer holds |
| `RealTimeRoundTrip.MessageHolds` | GameLauncher/ImportLibrary/Inc/LoginLauncher_generated.h:260-280 | The generated Create functions, called part by part after CreateString(ptr, len) for the ids, leave a RealTimeData table that stands for the message and keep all that was there |
| `RealTimeRoundTrip.DirectHolds` | GameLauncher/ImportLibrary/Inc/LoginLauncher_generated.h:270-280 | CreateRealTimeDataDirect gives the message object for any vectors of offsets that lead to the parts, in whatever order they were created and whatever they share |
| `MessageLayouts.UserStateLaidOut` | GameLauncher/ImportLibrary/Inc/LoginLauncher_generated.h:78-86 | In a user state with an id, the id is the last word of the table and a state that is kept the byte before it |
| `MessageLayouts.RealTimeDataLaidOut` | GameLauncher/ImportLibrary/Inc/LoginLauncher_generated.h:260-268 | The requests are the last word of the table, the friends the word before |
| `MessageLayouts.DirectLaidOut` | GameLauncher/ImportLibrary/Inc/LoginLauncher_generated.h:270-280 | Table, requests and friends follow one another in the buffer, in the reverse order of their creation |
| `RealTimeRoundTrip.MessageExtent` | GameLauncher/ImportLibrary/Inc/LoginLauncher_generated.h:215-236 | A message nests at most two tables deep and visits one table more than it has friends |
| `LoginLauncher.MessageReads` | GameLauncher/ImportLibrary/Inc/LoginLauncher_generated.h:221-226 | A table that stands for a message reads, through the accessors, as that message and no other |
| `LoginLauncher.UserReads` | GameLauncher/ImportLibrary/Inc/LoginLauncher_generated.h:42-47 | The same for UserState: a dropped default state reads as 0, an absent id as absent |
| `LoginLauncher.MessageConforms` | GameLauncher/ImportLibrary/Inc/LoginLauncher_generated.h:227-236 | What the Create functions build conforms to the types that the generated Verify checks |
| `FinishedRuns.FinishedRun` | DHNetWork/ImportLibrary/Inc/flatbuffers/flatbuffers.h:2141-2156 | Any run of creations, finished with any object that conforms to a schema: the buffer verifies, all accesses from the root on stay inside, the root reads as the object created, and every scalar, length, offset and vtable reachable from the root is at a position divisible by its size, with or without identifier and size prefix |
| `FinishedRuns.DedupKeepsMeaning` | DHNetWork/ImportLibrary/Inc/flatbuffers/flatbuffers.h:1481-1494 | The same run with and without sharing of vtables creates objects that read the same |
| `Alignments.FinishedIsAligned` | DHNetWork/ImportLibrary/Inc/flatbuffers/flatbuffers.h:1333-1340 | Retroactive alignment: alignment is kept counted from the end while building, and Finish makes it hold counted from the start, for every part of the object at the root |
| `Alignments.PartsAlign` | DHNetWork/ImportLibrary/Inc/flatbuffers/base.h:432-434 | In a buffer whose size is a multiple of the largest scalar of an object held in it, every string and vector length, table, vtable, scalar and offset of the object is aligned from the start |
| `Adds.ApplyAddsTracks` | DHNetWork/ImportLibrary/Inc/flatbuffers/flatbuffers.h:1333-1340 | Every scalar that was added and kept is no wider than the minimal alignment afterwards, which never goes down |
| `Runs.RunHolds` | DHNetWork/ImportLibrary/Inc/flatbuffers/flatbuffers.h:1435-1625 | Over any sequence of strings, shared strings, vectors and tables, each referring to any earlier objects, every object created so far still reads as what it was created from, none has a scalar wider than the minimal alignment the builder has tracked, and the builder is between tables with valid, different vtables and a valid string pool |
| `BuiltVerifies.FinishedVerifies` | DHNetWork/ImportLibrary/Inc/flatbuffers/flatbuffers.h:2409-2438 | Every finished buffer whose root conforms to its schema and stays within the depth and table limits is accepted, also with size prefix: all range, alignment and terminator checks succeed |
| `BuiltVerifies.FinishedAcceptance` | DHNetWork/ImportLibrary/Inc/flatbuffers/flatbuffers.h:2461-2465 | A finished buffer whose root conforms to its schema is accepted if and only if the nesting and the number of its tables are within max_depth and max_tables: nothing else makes the Verifier reject it |
| `BuiltVerifies.TableNeedsRoom` | DHNetWork/ImportLibrary/Inc/flatbuffers/flatbuffers.h:2461-2465 | A table object that nests too deep, or has too many tables for what the counters leave, fails the checks of its type |
| `BuiltVerifies.TablePasses` | DHNetWork/ImportLibrary/Inc/flatbuffers/flatbuffers.h:2395-2407 | A table object anywhere in an aligned buffer, with room for its nesting and tables, passes the checks of its type, and the counters advance by exactly its extent |
| `VerifierSoundness.SoundBuffer` | DHNetWork/ImportLibrary/Inc/flatbuffers/flatbuffers.h:2427-2432 | For any byte string: if it is accepted, with alignment checking on, every vtable lookup, field read, pointer, vector element and string access over everything reachable from the root is inside the buffer; every table, followed offset, vector length and string length is at a multiple of 4, every vtable at an even place with an even size; and at most max_tables tables are visited |
| `VerifierSoundness.SoundSizePrefixedBuffer` | DHNetWork/ImportLibrary/Inc/flatbuffers/flatbuffers.h:2434-2438 | The same for a size-prefixed buffer, whose prefix is the size of the rest and whose identifier is the one asked for |
| `VerifierSoundness.SoundTable` | DHNetWork/ImportLibrary/Inc/flatbuffers/flatbuffers.h:2395-2407 | One accepted table: all accesses are safe and all parts aligned, each object lies strictly after the table that refers to it, depth is back to its old value and the table counter has advanced by the number of visits, without wrapping when the limit is below 2^32 - 1 |
| `VerifierSoundness.SoundField` | DHNetWork/ImportLibrary/Inc/flatbuffers/flatbuffers.h:2641-2669 | The same for one field of each type: an offset that is followed is aligned, not null, below 2^31, and leads to an aligned object |
| `VerifierSoundness.SoundTables` | DHNetWork/ImportLibrary/Inc/flatbuffers/flatbuffers.h:2386-2393 | The same for a vector of tables |
| `VerifierSoundness.SoundStrings` | DHNetWork/ImportLibrary/Inc/flatbuffers/flatbuffers.h:2376-2383 | An accepted vector of strings has only aligned strings that can be read with their terminators |
| `Acceptance.BufferAccepted` | DHNetWork/ImportLibrary/Inc/flatbuffers/flatbuffers.h:2427-2432 | Exactly which buffers VerifyBuffer accepts, for limits below 2^32 - 1: those with the identifier asked for, a root offset that is aligned, positive and in range, from which on all reads are safe and all parts aligned and of allowed sizes, and whose nesting and number of tables are within the limits. The order of the checks does not matter |
| `Acceptance.SizePrefixedAccepted` | DHNetWork/ImportLibrary/Inc/flatbuffers/flatbuffers.h:2434-2438 | Exactly which buffers VerifySizePrefixedBuffer accepts: besides, the prefix is the size of the rest |
| `Acceptance.TableAccepted` | DHNetWork/ImportLibrary/Inc/flatbuffers/flatbuffers.h:2395-2407 | A table is accepted if and only if it is safe, aligned, and the counters leave room for its nesting and tables; they advance by exactly its tables |
| `Acceptance.StartAccepted` | DHNetWork/ImportLibrary/Inc/flatbuffers/flatbuffers.h:2395-2407 | VerifyTableStart accepts if and only if first word and vtable are aligned, of even size and inside, and the counters leave room |
| `Acceptance.FieldAccepted` | DHNetWork/ImportLibrary/Inc/flatbuffers/flatbuffers.h:2641-2669 | The same iff for one field of each type |
| `Acceptance.TablesAccepted` | DHNetWork/ImportLibrary/Inc/flatbuffers/flatbuffers.h:2386-2393 | And for a vector of tables |
| `Acceptance.StringsAccepted` | DHNetWork/ImportLibrary/Inc/flatbuffers/flatbuffers.h:2376-2383 | A vector of strings is accepted if and only if each is aligned, inside, and terminated |
| `Acceptance.OffsetAccepted` | DHNetWork/ImportLibrary/Inc/flatbuffers/flatbuffers.h:2440-2455 | VerifyOffset accepts if and only if the place is aligned and the offset is not 0, below 2^31 and leads inside |
| `VerifierSoundness.OddVTable` | DHNetWork/ImportLibrary/Inc/flatbuffers/flatbuffers.h:2403-2406 | With alignment checking off a vtable of odd size is accepted; all fields can then be looked up if and only if the size is even, below 4, or the buffer goes on behind the vtable |
| `VerifierSoundness.OddVTableBuffer` | DHNetWork/ImportLibrary/Inc/flatbuffers/flatbuffers.h:2403-2406 | The smallest input for it: nine bytes with a vtable of size 5 at the end are started, and the first field cannot be looked up inside |
| `VerifierSoundness.SizePrefixedComparesInside` | DHNetWork/ImportLibrary/Inc/flatbuffers/flatbuffers.h:2409-2438 | VerifySizePrefixedBuffer compares the identifier with bytes 8 to 11 after asking for eight bytes. It stays inside the buffer if and only if there is no identifier, or the prefix or the size stops it before, or the buffer has twelve bytes, or a character differs or ends both strings before the buffer ends |
| `VerifierSoundness.EightByteBuffer` | DHNetWork/ImportLibrary/Inc/flatbuffers/flatbuffers.h:2409-2438 | The input for it: [4, 0, 0, 0] and four more bytes, with any identifier |
| `VerifierSoundness.BufferComparesInside` | DHNetWork/ImportLibrary/Inc/flatbuffers/flatbuffers.h:2427-2432 | VerifyBuffer, without size prefix, never compares bytes outside the buffer |
| `VerifierSoundness.IdentifierFound` | DHNetWork/ImportLibrary/Inc/flatbuffers/flatbuffers.h:2261-2267 | An identifier of four characters other than NUL is found exactly where its four bytes are |
| `Verification.StartedIsReadable` | DHNetWork/ImportLibrary/Inc/flatbuffers/flatbuffers.h:2563-2571 | Once a table has been started with alignment checking on, every field number can be looked up inside the buffer |
| `Verification.VTableNoWrap` | DHNetWork/ImportLibrary/Inc/flatbuffers/flatbuffers.h:2400-2402 | The vtable position computed in unsigned arithmetic is the one the readers compute with a signed offset |
| `Verification.VerifyOffset` | DHNetWork/ImportLibrary/Inc/flatbuffers/flatbuffers.h:2440-2455 | A non-zero result is the offset stored there and leads to a place inside the buffer |
| `Verification.VerifyVectorOrString` | DHNetWork/ImportLibrary/Inc/flatbuffers/flatbuffers.h:2358-2373 | On success size field and elements lie in the buffer and the result is their end |
| `Adds.BuildTableReads` | DHNetWork/ImportLibrary/Inc/flatbuffers/flatbuffers.h:1372-1395 | Additions to distinct fields in any order, then EndTable: each field reads as what was added, or as absent if it equalled its default or was null; all other fields are absent |
| `Adds.AddedFieldsRead` | DHNetWork/ImportLibrary/Inc/flatbuffers/flatbuffers.h:2573-2586 | GetField with the default used when adding gives back the value added; GetPointer gives the object referred to, and null for a null offset |
| `Adds.ApplyAddsOpens` | DHNetWork/ImportLibrary/Inc/flatbuffers/flatbuffers.h:1380-1395 | While a table is open, the fields recorded are exactly the additions that were kept, each stored aligned where its record says |
| `Adds.PushOffsetEntry` | DHNetWork/ImportLibrary/Inc/flatbuffers/flatbuffers.h:1365-1368 | ReferTo aligns first, so that the distance it computes still holds once the offset has been pushed |
| `TableFields.EndTableReads` | DHNetWork/ImportLibrary/Inc/flatbuffers/flatbuffers.h:1444-1506 | EndTable leaves a table with one slot for every field up to the largest; each slot leads to where that field was stored, others are empty; the vtable tells the table's size, from its first word to where StartTable was called; everything written before is kept |
| `Layouts.BuildTableLaidOut` | DHNetWork/ImportLibrary/Inc/flatbuffers/flatbuffers.h:1357-1463 | A finished table, kept or shared vtable alike, fills exactly the space between what was there before and its first word: the fields kept, in the order of their additions, each at the first place aligned for it; every slot with its width lies inside, and the vtable tells the size |
| `Layouts.BuildTableTracks` | DHNetWork/ImportLibrary/Inc/flatbuffers/flatbuffers.h:1333-1340 | The minimal alignment afterwards is exactly the largest of what it was, 4, and the widths stored |
| `TableFields.PushElementFacts` | DHNetWork/ImportLibrary/Inc/flatbuffers/flatbuffers.h:1357-1363 | A scalar is put behind as few zeros as possible where its end is a multiple of its size, and can be read back |
| `TableFields.MakeVTableReads` | DHNetWork/ImportLibrary/Inc/flatbuffers/flatbuffers.h:1455-1474 | The vtable holds its own size, the size of the table, and for every field the distance recorded for it or 0 |
| `TableFields.SealTableLayout` | DHNetWork/ImportLibrary/Inc/flatbuffers/flatbuffers.h:1475-1502 | Whether the new vtable is kept or a recorded one is shared, the first word of the table leads to a vtable with the bytes computed for it |
| `VTables.SealTableRecords` | DHNetWork/ImportLibrary/Inc/flatbuffers/flatbuffers.h:1493-1494 | vt_use == GetSize() exactly when the new vtable was kept: it is recorded then, and only then |
| `VTables.BuildTableKeepsVTables` | DHNetWork/ImportLibrary/Inc/flatbuffers/flatbuffers.h:1476-1494 | Recorded vtables stay readable, byte for byte as they were and pairwise different; at most one is added, at the front |
| `VTables.KeptIsNew` | DHNetWork/ImportLibrary/Inc/flatbuffers/flatbuffers.h:1481-1492 | A vtable that is kept while sharing is on differs from all recorded ones |
| `VTables.BuildTableShares` | DHNetWork/ImportLibrary/Inc/flatbuffers/flatbuffers.h:1476-1494 | A table shares a recorded vtable if and only if sharing is on and one has the same bytes; otherwise its own is kept in front and recorded |
| `VTables.SharedExactly` | DHNetWork/ImportLibrary/Inc/flatbuffers/flatbuffers.h:1481-1492 | The same for SealTable |
| `VTables.BuildTableFrame` | DHNetWork/ImportLibrary/Inc/flatbuffers/flatbuffers.h:1524-1528 | Building a table leaves the builder between tables, with everything but message, vtables and minimal alignment as before; the minimal alignment covers every scalar that was kept |
| `Creation.BuildTableHolds` | DHNetWork/ImportLibrary/Inc/flatbuffers/flatbuffers.h:1435-1506 | Adding fields that lead to objects builds a table object with those objects |
| `Creation.CreateStringHolds` | DHNetWork/ImportLibrary/Inc/flatbuffers/flatbuffers.h:1546-1553 | CreateString leaves a string with the given bytes, NULs included, terminated and aligned |
| `Layouts.CreateStringLaidOut` | DHNetWork/ImportLibrary/Inc/flatbuffers/flatbuffers.h:1546-1553 | A string takes its length, its bytes, a NUL, and as few zeros behind as put the length at a multiple of 4 |
| `Layouts.CreateVectorLaidOut` | DHNetWork/ImportLibrary/Inc/flatbuffers/flatbuffers.h:1672-1731 | A vector of offsets takes its length and elements, and as few zeros behind as put them at multiples of 4 |
| `Creation.CreateVectorHolds` | DHNetWork/ImportLibrary/Inc/flatbuffers/flatbuffers.h:1727-1731 | CreateVector leaves a vector whose elements, first to last, lead to the objects given |
| `Creation.HoldsAtKept` | DHNetWork/ImportLibrary/Inc/flatbuffers/flatbuffers.h:1003-1028 | An offset counted from the end keeps denoting the same object however much is written in front |
| `SharedStrings.CreateSharedStringHolds` | DHNetWork/ImportLibrary/Inc/flatbuffers/flatbuffers.h:1608-1625 | CreateSharedString gives a string with the requested bytes; when the contents are in the pool the message is as before the call, otherwise the string is new and recorded; pool entries stay different |
| `SharedStrings.SharedAgain` | DHNetWork/ImportLibrary/Inc/flatbuffers/flatbuffers.h:1608-1625 | Asking for the same contents later, whatever was written in between, gives the same offset |
| `SharedStrings.FindStringFinds` | DHNetWork/ImportLibrary/Inc/flatbuffers/flatbuffers.h:2184-2193 | The pool search finds an entry exactly when one has the contents |
| `StringOrder.EquivalentIsEqual` | DHNetWork/ImportLibrary/Inc/flatbuffers/flatbuffers.h:622-626 | StringLessThan is strict and total: only equal strings are equivalent |
| `StringOrder.LessTransitive` | DHNetWork/ImportLibrary/Inc/flatbuffers/flatbuffers.h:622-626 | StringLessThan is transitive |
| `StringOrder.StrCmpOrder` | DHNetWork/ImportLibrary/Inc/flatbuffers/reflection_generated.h:235-240 | On NUL-terminated strings strcmp orders as StringLessThan does, in all three outcomes |
| `StringOrder.StrLen` | DHNetWork/ImportLibrary/Inc/flatbuffers/flatbuffers.h:1558-1560 | strlen: the length of the longest prefix without NUL |
| `Finishing.FinishReads` | DHNetWork/ImportLibrary/Inc/flatbuffers/flatbuffers.h:2141-2156 | After Finish the root offset leads to the root, prefix and identifier are in place, the message is kept and the whole is a multiple of the minimal alignment |
| `Layouts.FinishLaidOut` | DHNetWork/ImportLibrary/Inc/flatbuffers/flatbuffers.h:2141-2156 | Finish adds root offset, identifier and size, and as few zeros as make the whole a multiple of the minimal alignment |
| `Finishing.RetroactiveAlignment` | DHNetWork/ImportLibrary/Inc/flatbuffers/flatbuffers.h:2144-2147 | The arithmetic step: when the buffer's size is a multiple of the minimal alignment, a place aligned from the end, no wider than that, is aligned from the start. That the builder knows the alignment of all it writes is Runs.RunHolds; the conclusion is FinishedRuns.FinishedRun |
| `Padding.PaddingIsLeast` | DHNetWork/ImportLibrary/Inc/flatbuffers/base.h:432-434 | PaddingBytes is the least number of bytes that brings the size to a multiple of a power of two |
| `Padding.AlignedSum` | DHNetWork/ImportLibrary/Inc/flatbuffers/base.h:432-434 | Sums of multiples are multiples, and a difference of multiples too |
| `Bytes.DecodeEncode` | DHNetWork/ImportLibrary/Inc/flatbuffers/base.h:400-422 | A scalar that fits is read back as it was written |
| `Bytes.EncodeDecode` | DHNetWork/ImportLibrary/Inc/flatbuffers/base.h:400-422 | Writing what was read gives the same bytes |
| `Bytes.SignedRoundTrip` | DHNetWork/ImportLibrary/Inc/flatbuffers/base.h:414-418 | A signed 32-bit offset survives its two's complement code |
| `Objects.ShiftObject` | DHNetWork/ImportLibrary/Inc/flatbuffers/flatbuffers.h:1028 | An object moves with its buffer when bytes are put in front of it |
| `BufferStart.FinishedIsFindable` | DHNetWork/ImportLibrary/Inc/flatbuffers/flatbuffers.h:2705-2737 | In every finished buffer whose root was the last object written and whose identifier has no NUL, the backward scan of GetBufferStartFromRootPointer stays in the buffer and in its bound, and the first word that leads to the root is the root offset: no padding or identifier is mistaken for it |
| `BufferStart.BuiltIsLast` | DHNetWork/ImportLibrary/Inc/flatbuffers/flatbuffers.h:1494-1506 | A table just built is the last object written, whether its vtable is new or shared |
| `BufferStart.GetBufferStartFromRootPointer` | DHNetWork/ImportLibrary/Inc/flatbuffers/flatbuffers.h:2705-2737 | The loop returns the true start and never reaches its final assertion |
| `SortedVectors.LookupByKey` | DHNetWork/ImportLibrary/Inc/flatbuffers/flatbuffers.h:360-394 | On a vector of tables sorted by NUL-free keys, the search gives a table with the key exactly when there is one |
| `SortedVectors.KeyComparisonsAgree` | DHNetWork/ImportLibrary/Inc/flatbuffers/reflection_generated.h:235-240 | KeyCompareWithValue, which uses strcmp, agrees with the length-aware order of KeyCompareLessThan |
| `SortedVectors.CreateVectorOfSortedTables` | DHNetWork/ImportLibrary/Inc/flatbuffers/flatbuffers.h:2003-2033 | The caller's array is permuted into key order and written as a vector in that order |
| `Sorting.InsertionSort` | DHNetWork/ImportLibrary/Inc/flatbuffers/flexbuffers.h:1126-1144 | One of the sorts std::sort may be: every number once, in the order of their keys, and whether two keys were found equal |
| `SortedVectors.SortedVectorHolds` | DHNetWork/ImportLibrary/Inc/flatbuffers/flatbuffers.h:2031-2033 | However the sort ordered equal keys, the vector created is sorted and holds the same tables, so a key is found in it exactly when it was among them |
| `VectorDownwards.VectorDownward.constructor` | DHNetWork/ImportLibrary/Inc/flatbuffers/flatbuffers.h:876-887 | Both regions are empty |
| `VectorDownwards.VectorDownward.Reallocate` | DHNetWork/ImportLibrary/Inc/flatbuffers/flatbuffers.h:1094-1109 | The allocation grows by the amount the source chooses, rounded up; neither region changes; the requested gap is free |
| `VectorDownwards.MemcpyDownward` | DHNetWork/ImportLibrary/Inc/flatbuffers/flatbuffers.h:698-704 | Front and end of the old array are copied to front and end of the new one |
| `VectorDownwards.VectorDownward.EnsureSpace` | DHNetWork/ImportLibrary/Inc/flatbuffers/flatbuffers.h:985-992 | Afterwards at least the requested bytes are free and neither region has changed |
| `VectorDownwards.VectorDownward.Push` | DHNetWork/ImportLibrary/Inc/flatbuffers/flatbuffers.h:1030-1038 | The bytes go in front of the message; the scratch pad is untouched |
| `VectorDownwards.VectorDownward.Fill` | DHNetWork/ImportLibrary/Inc/flatbuffers/flatbuffers.h:1048-1051 | Zeros go in front of the message, written by the loop |
| `VectorDownwards.VectorDownward.ScratchPush` | DHNetWork/ImportLibrary/Inc/flatbuffers/flatbuffers.h:1040-1044 | The bytes go behind the scratch pad; the message is untouched |
| `VectorDownwards.VectorDownward.Pop` | DHNetWork/ImportLibrary/Inc/flatbuffers/flatbuffers.h:1059 | The front of the message is given back |
| `VectorDownwards.VectorDownward.ScratchPop` | DHNetWork/ImportLibrary/Inc/flatbuffers/flatbuffers.h:1060 | The end of the scratch pad is given back |
| `VectorDownwards.VectorDownward.ClearScratch` | DHNetWork/ImportLibrary/Inc/flatbuffers/flatbuffers.h:945 | The scratch pad is empty, the message untouched |
| `VectorDownwards.VectorDownward.DataAt` | DHNetWork/ImportLibrary/Inc/flatbuffers/flatbuffers.h:1028 | What lies at an offset from the end is what the message has there |
| `VectorDownwards.VectorDownward.RoundUp` | DHNetWork/ImportLibrary/Inc/flatbuffers/flatbuffers.h:1100 | The least multiple of the buffer's minimal alignment that is large enough |
| `VectorDownwards.CopyInto` | DHNetWork/ImportLibrary/Inc/flatbuffers/flatbuffers.h:695-704 | memcpy: the target changes exactly in the bytes copied |
| `FlatBufferBuilders.FlatBufferBuilder.constructor` | DHNetWork/ImportLibrary/Inc/flatbuffers/flatbuffers.h:1157-1171 | A new builder is the empty state |
| `FlatBufferBuilders.FlatBufferBuilder.Align` | DHNetWork/ImportLibrary/Inc/flatbuffers/flatbuffers.h:1337-1340 | Does to the object's state what Builder.Align does to a value |
| `FlatBufferBuilders.FlatBufferBuilder.PreAlign` | DHNetWork/ImportLibrary/Inc/flatbuffers/flatbuffers.h:1532-1535 | As Builder.PreAlign |
| `FlatBufferBuilders.FlatBufferBuilder.PushElement` | DHNetWork/ImportLibrary/Inc/flatbuffers/flatbuffers.h:1357-1363 | As Builder.PushElement; the size of the message is returned |
| `FlatBufferBuilders.FlatBufferBuilder.ReferTo` | DHNetWork/ImportLibrary/Inc/flatbuffers/flatbuffers.h:1411-1417 | The distance from where the offset will be stored to its object |
| `FlatBufferBuilders.FlatBufferBuilder.PushOffset` | DHNetWork/ImportLibrary/Inc/flatbuffers/flatbuffers.h:1365-1368 | As Builder.PushOffset |
| `FlatBufferBuilders.FlatBufferBuilder.TrackField` | DHNetWork/ImportLibrary/Inc/flatbuffers/flatbuffers.h:1372-1377 | The record goes behind the scratch pad, and the largest field is kept |
| `FlatBufferBuilders.FlatBufferBuilder.AddElement` | DHNetWork/ImportLibrary/Inc/flatbuffers/flatbuffers.h:1380-1385 | As Builder.AddElement: defaults are dropped unless forced |
| `FlatBufferBuilders.FlatBufferBuilder.AddOffset` | DHNetWork/ImportLibrary/Inc/flatbuffers/flatbuffers.h:1392-1395 | As Builder.AddOffset: null is dropped |
| `FlatBufferBuilders.FlatBufferBuilder.StartTable` | DHNetWork/ImportLibrary/Inc/flatbuffers/flatbuffers.h:1435-1439 | As Builder.StartTable |
| `FlatBufferBuilders.FlatBufferBuilder.WriteVTable` | DHNetWork/ImportLibrary/Inc/flatbuffers/flatbuffers.h:1455-1475 | The loop over the records in the scratch pad writes Builder.MakeVTable in front, and clears them |
| `FlatBufferBuilders.FlatBufferBuilder.FindDuplicate` | DHNetWork/ImportLibrary/Inc/flatbuffers/flatbuffers.h:1482-1487 | The loop over the offsets in the scratch pad finds the first recorded vtable with the same bytes |
| `FlatBufferBuilders.FlatBufferBuilder.ShareVTable` | DHNetWork/ImportLibrary/Inc/flatbuffers/flatbuffers.h:1476-1492 | The new vtable is given back exactly when an equal one is recorded |
| `FlatBufferBuilders.FlatBufferBuilder.UseDuplicate` | DHNetWork/ImportLibrary/Inc/flatbuffers/flatbuffers.h:1481-1492 | When an equal vtable is recorded the new one is popped, otherwise it stays |
| `FlatBufferBuilders.FlatBufferBuilder.PopBytes` | DHNetWork/ImportLibrary/Inc/flatbuffers/flatbuffers.h:1349 | The front of the message is given back |
| `FlatBufferBuilders.FlatBufferBuilder.SealTable` | DHNetWork/ImportLibrary/Inc/flatbuffers/flatbuffers.h:1455-1505 | As Builder.SealTable: vtable, sharing, record and signed back-reference |
| `FlatBufferBuilders.FlatBufferBuilder.EndTable` | DHNetWork/ImportLibrary/Inc/flatbuffers/flatbuffers.h:1444-1506 | As Builder.EndTable: the size in the vtable included |
| `FlatBufferBuilders.FlatBufferBuilder.ClearOffsets` | DHNetWork/ImportLibrary/Inc/flatbuffers/flatbuffers.h:1524-1528 | The field records are gone, the vtable offsets below them stay |
| `FlatBufferBuilders.FlatBufferBuilder.CreateString` | DHNetWork/ImportLibrary/Inc/flatbuffers/flatbuffers.h:1546-1553 | As Builder.CreateString |
| `FlatBufferBuilders.FlatBufferBuilder.CreateCString` | DHNetWork/ImportLibrary/Inc/flatbuffers/flatbuffers.h:1558-1560 | The string up to its first NUL, as strlen finds it |
| `FlatBufferBuilders.FlatBufferBuilder.CreateSharedString` | DHNetWork/ImportLibrary/Inc/flatbuffers/flatbuffers.h:1608-1625 | As Builder.CreateSharedString: a hit pops what was serialized for the comparison |
| `FlatBufferBuilders.FlatBufferBuilder.PoolOrPop` | DHNetWork/ImportLibrary/Inc/flatbuffers/flatbuffers.h:1612-1624 | A string already in the pool is taken back from the front and the pooled offset returned; a new one is recorded |
| `FlatBufferBuilders.FlatBufferBuilder.StartVector` | DHNetWork/ImportLibrary/Inc/flatbuffers/flatbuffers.h:1672-1677 | As Builder.StartVector |
| `FlatBufferBuilders.FlatBufferBuilder.EndVector` | DHNetWork/ImportLibrary/Inc/flatbuffers/flatbuffers.h:1666-1670 | As Builder.EndVector |
| `FlatBufferBuilders.FlatBufferBuilder.CreateVector` | DHNetWork/ImportLibrary/Inc/flatbuffers/flatbuffers.h:1727-1731 | The loop pushes the offsets last to first: Builder.CreateVector |
| `FlatBufferBuilders.FlatBufferBuilder.Finish` | DHNetWork/ImportLibrary/Inc/flatbuffers/flatbuffers.h:2141-2156 | As Builder.Finish |
| `Verifiers.Verifier.VerifyComplexity` | DHNetWork/ImportLibrary/Inc/flatbuffers/flatbuffers.h:2461-2465 | Counters and verdict are those of Verification.VerifyComplexity |
| `Verifiers.Verifier.EndTable` | DHNetWork/ImportLibrary/Inc/flatbuffers/flatbuffers.h:2468-2471 | The depth goes back by one |
| `Verifiers.Verifier.VerifyTableStart` | DHNetWork/ImportLibrary/Inc/flatbuffers/flatbuffers.h:2395-2407 | As Verification.VerifyTableStart |
| `Verifiers.Verifier.VerifyVectorOfStrings` | DHNetWork/ImportLibrary/Inc/flatbuffers/flatbuffers.h:2376-2383 | The loop decides Verification.VerifyStrings |
| `Verifiers.Verifier.VerifyVectorOfTables` | DHNetWork/ImportLibrary/Inc/flatbuffers/flatbuffers.h:2386-2393 | The loop decides Verification.VerifyTables and leaves its counters |
| `Verifiers.Verifier.VerifyField` | DHNetWork/ImportLibrary/Inc/flatbuffers/flatbuffers.h:2641-2669 | As Verification.VerifyField |
| `Verifiers.Verifier.VerifyTable` | GameLauncher/ImportLibrary/Inc/LoginLauncher_generated.h:48-54 | The conjunction the generated Verify is: start, fields in order, end |
| `Verifiers.Verifier.VerifyBufferFromStart` | DHNetWork/ImportLibrary/Inc/flatbuffers/flatbuffers.h:2409-2425 | As Verification.VerifyBufferFromStart, the comparison with the identifier included |
| `LoginLauncherBuilders.CreateUserState` | GameLauncher/ImportLibrary/Inc/LoginLauncher_generated.h:78-86 | The calls on the builder do what LoginLauncher.CreateUserState says |
| `LoginLauncherBuilders.CreateUserStateDirect` | GameLauncher/ImportLibrary/Inc/LoginLauncher_generated.h:88-97 | As LoginLauncher.CreateUserStateDirect: the id first, when there is one, up to its first NUL |
| `LoginLauncherBuilders.CreateRealTimeData` | GameLauncher/ImportLibrary/Inc/LoginLauncher_generated.h:260-268 | As LoginLauncher.CreateRealTimeData |
| `LoginLauncherBuilders.CreateRealTimeDataDirect` | GameLauncher/ImportLibrary/Inc/LoginLauncher_generated.h:270-280 | As LoginLauncher.CreateRealTimeDataDirect: each vector only when there is one |
| `LoginLauncherBuilders.TwoAdds` | GameLauncher/ImportLibrary/Inc/LoginLauncher_generated.h:78-86 | With room for one small table no assertion of the builder fails on the way |
| `FlexRoundTrip.TreeRoundTrip` | DHNetWork/ImportLibrary/Inc/flatbuffers/flexbuffers.h:1091-1097 | Every tree of null, bool, 64-bit integers, keys, strings, nested vectors and sorted maps, pushed and finished, is what the root reads as, and nothing else is; no assertion of the builder fails. The run is sure to come to its end when the size of the tree is below 2^56, and above that the statement is about runs that do |
| `FlexRoundTrip.RunRoundTrip` | DHNetWork/ImportLibrary/Inc/flatbuffers/flexbuffers.h:1320-1336 | The same for any run of the builder that leaves one value, with any minimal widths forced on the way: sure to end when its commands bring less than 2^56 bytes. HasDuplicateKeys then tells exactly whether some map within the value has a key twice |
| `FlexSizes.RunDone` | DHNetWork/ImportLibrary/Inc/flatbuffers/flexbuffers.h:941-1154 | A run that breaks no assertion comes to its end when its commands bring less than 2^56 bytes, each command counted with 64 bytes besides its contents |
| `FlexSizes.StepCost` | DHNetWork/ImportLibrary/Inc/flatbuffers/flexbuffers.h:1525-1581 | No command makes buffer and stack, each value counted with what it takes when written, grow by more than its contents and 64 bytes |
| `FlexRoundTrip.MapAgrees` | DHNetWork/ImportLibrary/Inc/flatbuffers/flexbuffers.h:1099-1158 | A map pushed in any order is sorted in the buffer, and HasDuplicateKeys tells exactly whether a key of it, or of a map within, was pushed twice; with distinct keys it makes the finite map of the pairs as they were pushed. Sure to end below 2^56 bytes |
| `FlexRoundTrip.MapGet` | DHNetWork/ImportLibrary/Inc/flatbuffers/flexbuffers.h:843-862 | Map lookup: an absent key gives a reference that reads as null, a key gives a value it was paired with, and with distinct keys the value of the finite map |
| `FlexRoundTrip.VectorGets` | DHNetWork/ImportLibrary/Inc/flatbuffers/flexbuffers.h:815-821 | Vector::operator[] reads as the element, and as null past the end |
| `FlexRoundTrip.FindIndex` | DHNetWork/ImportLibrary/Inc/flatbuffers/flexbuffers.h:851-855 | std::bsearch with strcmp over a sorted vector of keys finds an index exactly when the key is there |
| `FlexRoundTrip.ReadsUnique` | DHNetWork/ImportLibrary/Inc/flatbuffers/flexbuffers.h:423-473 | A reference reads as one tree only |
| `FlexRoundTrip.FinishReads` | DHNetWork/ImportLibrary/Inc/flatbuffers/flexbuffers.h:864-872 | GetRoot, reading backwards, finds what Finish wrote, with type and width |
| `FlexRoundTrip.EntriesReordered` | DHNetWork/ImportLibrary/Inc/flatbuffers/flexbuffers.h:1126-1145 | Sorting the pairs keeps keys distinct or not, and with distinct keys does not change the finite map they make |
| `FlexRuns.RunHolds` | DHNetWork/ImportLibrary/Inc/flatbuffers/flexbuffers.h:941-1154 | Over every run, each value on the stack stands for the tree it should, whatever widths were chosen and whichever keys were shared, no assertion fails, and has_duplicate_keys_ is set exactly when some map on the stack has a key twice |
| `FlexRuns.EndMapKeeps` | DHNetWork/ImportLibrary/Inc/flatbuffers/flexbuffers.h:1099-1154 | EndMap replaces the pairs by a map of the same keys and values in the order of the sort, and notes duplicate keys exactly when there are some |
| `FlexRuns.AnySortIsMeant` | DHNetWork/ImportLibrary/Inc/flatbuffers/flexbuffers.h:1126-1145 | However the sort comes out, also among equal keys, the map closed has sorted keys |
| `FlexRuns.SortsAsMeant` | DHNetWork/ImportLibrary/Inc/flatbuffers/flexbuffers.h:1126-1145 | The results the sort may have in the buffer are exactly the orders that sort the keys |
| `FlexRuns.EndVectorKeeps` | DHNetWork/ImportLibrary/Inc/flatbuffers/flexbuffers.h:1091-1097 | EndVector replaces the values by a vector of them |
| `FlexRuns.PushKeyHolds` | DHNetWork/ImportLibrary/Inc/flatbuffers/flexbuffers.h:1007-1023 | A key written or found in the pool is the key asked for; what was in the buffer stays; the pool stays a pool of different keys |
| `FlexRuns.PushStringHolds` | DHNetWork/ImportLibrary/Inc/flatbuffers/flexbuffers.h:1494-1502 | A string is stored with its length, its bytes and a terminator |
| `FlexRuns.FindKeyFinds` | DHNetWork/ImportLibrary/Inc/flatbuffers/flexbuffers.h:1597-1608 | The search finds the pooled key that is the same if and only if there is one |
| `FlexRuns.PushKeyExact` | DHNetWork/ImportLibrary/Inc/flatbuffers/flexbuffers.h:1007-1023 | With shared keys, a key that is in the pool leaves buffer and pool as they were and its offset is pushed; otherwise the key is written at the end, and recorded when keys are shared |
| `FlexRuns.KeyAgain` | DHNetWork/ImportLibrary/Inc/flatbuffers/flexbuffers.h:1010-1018 | The same key given again after any further commands gets the same offset and writes nothing |
| `FlexVectors.CreateVectorHolds` | DHNetWork/ImportLibrary/Inc/flatbuffers/flexbuffers.h:1525-1581 | Values that stand for trees are written as a vector that reads as those trees |
| `FlexVectors.CreateMapHolds` | DHNetWork/ImportLibrary/Inc/flatbuffers/flexbuffers.h:1535-1562 | Keys written as a typed vector and values written with a reference to it read as the map |
| `FlexVectors.CreateKeysHolds` | DHNetWork/ImportLibrary/Inc/flatbuffers/flexbuffers.h:1148 | The typed vector of keys leads to each key |
| `FlexLayouts.PlainWidthIsLeast` | DHNetWork/ImportLibrary/Inc/flatbuffers/flexbuffers.h:1530-1551 | A vector's width is the least, from the minimal width asked for on, with which its length fits and every element fits its place |
| `FlexLayouts.VectorWidthIsLeast` | DHNetWork/ImportLibrary/Inc/flatbuffers/flexbuffers.h:1530-1551 | For maps and keys the same where the elements are measured, the offset of the keys included |
| `FlexLayouts.ElemWidthIsLeast` | DHNetWork/ImportLibrary/Inc/flatbuffers/flexbuffers.h:1444-1471 | ElemWidth is the least width with which a value fits the place it is measured at |
| `FlexLayouts.ScalarWidthIsLeast` | DHNetWork/ImportLibrary/Inc/flatbuffers/flexbuffers.h:941-972 | A number is pushed with the least width that has it |
| `FlexLayouts.CreateVectorLaidOut` | DHNetWork/ImportLibrary/Inc/flatbuffers/flexbuffers.h:1552-1581 | A vector begins at the first place aligned for its width, behind zeros; header, data and, unless all are keys, a type for every element with the width it is stored with follow, and nothing else |
| `FlexLayouts.EndVectorLaidOut` | DHNetWork/ImportLibrary/Inc/flatbuffers/flexbuffers.h:1091-1097 | EndVector writes one such vector and nothing else |
| `FlexLayouts.EndMapLaidOut` | DHNetWork/ImportLibrary/Inc/flatbuffers/flexbuffers.h:1145-1154 | EndMap writes such a vector of the keys, behind it the map, and nothing else |
| `FlexLayouts.PushStringLaidOut` | DHNetWork/ImportLibrary/Inc/flatbuffers/flexbuffers.h:1494-1502 | A string begins at the first place aligned for the least width that has its length, and ends with a NUL |
| `FlexLayouts.FinishLaidOut` | DHNetWork/ImportLibrary/Inc/flatbuffers/flexbuffers.h:1320-1336 | The root value begins where it is aligned, with the least width with which it fits there; its type and width end the buffer |
| `FlexWidths.TryWidthsFinds` | DHNetWork/ImportLibrary/Inc/flatbuffers/flexbuffers.h:1453-1467 | The search for an offset's width always succeeds: the width returned is exactly the one the offset needs when stored with it, and no smaller one is enough |
| `FlexWidths.ElemWidthExact` | DHNetWork/ImportLibrary/Inc/flatbuffers/flexbuffers.h:1444-1471 | ElemWidth never reaches its final assertion |
| `FlexWidths.WidthSuffices` | DHNetWork/ImportLibrary/Inc/flatbuffers/flexbuffers.h:1375-1379 | The maximum width taken for a vector is enough for every offset stored in it, also where the index it was measured with is too large (maps) |
| `FlexWidths.OffsetLocGrows` | DHNetWork/ImportLibrary/Inc/flatbuffers/flexbuffers.h:1457-1459 | An element's place moves back when the width grows |
| `FlexWidths.OffsetStillFits` | DHNetWork/ImportLibrary/Inc/flatbuffers/flexbuffers.h:1541-1551 | An offset that fits its own width still fits when all elements are stored wider |
| `FlexWidths.WidthIBound` | DHNetWork/ImportLibrary/Inc/flatbuffers/flexbuffers.h:195-198 | WidthI is the least width whose signed range, sign bit included, has the number |
| `FlexWidths.WidthUBound` | DHNetWork/ImportLibrary/Inc/flatbuffers/flexbuffers.h:183-193 | WidthU is the least width that has the number |
| `FlexWriting.ValueReads` | DHNetWork/ImportLibrary/Inc/flatbuffers/flexbuffers.h:1483-1492 | What WriteAny writes where it fits is read back as the value |
| `FlexWriting.SignedTruncated` | DHNetWork/ImportLibrary/Inc/flatbuffers/flexbuffers.h:146-149 | A signed number truncated to a width that has it is read back with its sign |
| `FlexWriting.ElementReadsBack` | DHNetWork/ImportLibrary/Inc/flatbuffers/flexbuffers.h:815-821 | An element with its type byte is read back as its value |
| `FlexReading.LocatedKept` | DHNetWork/ImportLibrary/Inc/flatbuffers/flexbuffers.h:1353-1356 | Appending to the buffer changes nothing that was readable |
| `FlexBuilders.Builder.constructor` | DHNetWork/ImportLibrary/Inc/flatbuffers/flexbuffers.h:899-911 | A new builder is the empty state |
| `FlexBuilders.Builder.ElemWidth` | DHNetWork/ImportLibrary/Inc/flatbuffers/flexbuffers.h:1444-1471 | The loop over the byte widths returns FlexBuilder.ElemWidth and cannot fall through |
| `FlexBuilders.Builder.Key` | DHNetWork/ImportLibrary/Inc/flatbuffers/flexbuffers.h:1007-1023 | As FlexBuilder.PushKey: a key found in the pool is taken back from the buffer, whichever entry it is |
| `FlexBuilders.Builder.String` | DHNetWork/ImportLibrary/Inc/flatbuffers/flexbuffers.h:1494-1502 | As FlexBuilder.PushString |
| `FlexBuilders.Builder.WriteOffset` | DHNetWork/ImportLibrary/Inc/flatbuffers/flexbuffers.h:1375-1379 | Writes the distance back; the range assertion is a precondition that every caller meets |
| `FlexBuilders.Builder.WriteAny` | DHNetWork/ImportLibrary/Inc/flatbuffers/flexbuffers.h:1483-1492 | Writes the low bytes of a number or the distance to an object |
| `FlexBuilders.Builder.VectorBitWidth` | DHNetWork/ImportLibrary/Inc/flatbuffers/flexbuffers.h:1531-1551 | The loop takes FlexBuilder.VectorWidth, the least width that serves |
| `FlexBuilders.Builder.WriteElements` | DHNetWork/ImportLibrary/Inc/flatbuffers/flexbuffers.h:1565-1569 | The loop writes every element where it fits |
| `FlexBuilders.Builder.WriteTypes` | DHNetWork/ImportLibrary/Inc/flatbuffers/flexbuffers.h:1570-1575 | The loop writes one type byte for each element |
| `FlexBuilders.Builder.CreateVector` | DHNetWork/ImportLibrary/Inc/flatbuffers/flexbuffers.h:1525-1581 | As FlexBuilder.CreateVector, on stack entries one or two apart |
| `FlexBuilders.Builder.EndVector` | DHNetWork/ImportLibrary/Inc/flatbuffers/flexbuffers.h:1091-1097 | As FlexBuilder.EndVector |
| `FlexBuilders.Builder.SortPairs` | DHNetWork/ImportLibrary/Inc/flatbuffers/flexbuffers.h:1126-1145 | The pairs on the stack are permuted so that no key compares less than one before it, keys and values together; has_duplicate_keys_ is set exactly when two keys are equal |
| `FlexBuilders.Builder.EndMap` | DHNetWork/ImportLibrary/Inc/flatbuffers/flexbuffers.h:1099-1154 | As FlexBuilder.EndMap for the order the sort chose, with has_duplicate_keys_ |
| `FlexBuilders.Builder.Finish` | DHNetWork/ImportLibrary/Inc/flatbuffers/flexbuffers.h:1320-1336 | As FlexBuilder.Finish |
| `Utf8.FromUTF8` | DHNetWork/ImportLibrary/Inc/flatbuffers/util.h:512-553 | Accepts exactly the sequences of section 4 of RFC 3629, gives their code point and moves past them; -1 for everything else |
| `Utf8.ToUTF8` | DHNetWork/ImportLibrary/Inc/flatbuffers/util.h:484-505 | Appends the encoding of the first of six forms that fits, and returns its length; the final assertion is never reached |
| `Utf8.EncodeThenDecode` | DHNetWork/ImportLibrary/Inc/flatbuffers/util.h:484-553 | For every number the encoder takes: decoding gives it back and uses all its bytes if and only if it is a Unicode scalar value |
| `Utf8.DecodeThenEncode` | DHNetWork/ImportLibrary/Inc/flatbuffers/util.h:512-553 | Whenever the decoder accepts, encoding its result gives exactly the bytes consumed |
| `Utf8.EncodedBytes` | DHNetWork/ImportLibrary/Inc/flatbuffers/util.h:488-500 | The bytes written are those of the table in section 3 of RFC 3629 |
| `Escaping.EscapeReversible` | DHNetWork/ImportLibrary/Inc/flatbuffers/util.h:584-652 | For every valid UTF-8 string escaping succeeds, and a JSON reader written from section 7 of RFC 8259 gets the string back if and only if no control character was left as it is; with natural_utf8 false, always |
| `Escaping.EscapeRejects` | DHNetWork/ImportLibrary/Inc/flatbuffers/util.h:612-629 | Without allow_non_utf8 escaping succeeds if and only if the string is valid UTF-8 |
| `Escaping.EscapeBytesReversible` | DHNetWork/ImportLibrary/Inc/flatbuffers/util.h:604-609 | With allow_non_utf8 escaping succeeds for every byte string. A reader of section 7 of RFC 8259, extended by \\x and two hexadecimal digits for one byte, gets exactly the string back when natural_utf8 is false, and when it is true if and only if no control character was left as it is |
| `Escaping.PlainUnchanged` | DHNetWork/ImportLibrary/Inc/flatbuffers/util.h:590-602 | A string is written unchanged between the quotes if and only if no byte of it needs an escape |
| `Escaping.ShortEscapesWritten` | DHNetWork/ImportLibrary/Inc/flatbuffers/util.h:590-598 | Two-character escapes are written for exactly the bytes for which RFC 8259 has one, other than the solidus |
| `Escaping.EscapedIsAscii` | DHNetWork/ImportLibrary/Inc/flatbuffers/util.h:600-645 | Unless natural_utf8 is asked for, only printable ASCII is written |
| `Escaping.HexIsUpper` | DHNetWork/ImportLibrary/Inc/flatbuffers/util.h:201-214 | Hexadecimal digits are upper-case |
| `Escaping.EscapeString` | DHNetWork/ImportLibrary/Inc/flatbuffers/util.h:584-652 | The loop appends the quoted and escaped string, or reports failure, as Escaping.Escape says |
| `Escaping.CodePointReadBack` | DHNetWork/ImportLibrary/Inc/flatbuffers/util.h:629-642 | A code point escaped as one \\u escape, or as a surrogate pair above U+FFFF, is read back |
| `Escaping.HexReadBack` | DHNetWork/ImportLibrary/Inc/flatbuffers/util.h:201-214 | Four hexadecimal digits written are the number read |
| `FlatBufferBuilders.FlatBufferBuilder.ForceDefaults` | DHNetWork/ImportLibrary/Inc/flatbuffers/flatbuffers.h:1324 | Only the flag changes |
| `FlatBufferBuilders.FlatBufferBuilder.DedupVtables` | DHNetWork/ImportLibrary/Inc/flatbuffers/flatbuffers.h:1328 | Only the flag changes |
| `FlatBufferBuilders.FlatBufferBuilder.GetSize` | DHNetWork/ImportLibrary/Inc/flatbuffers/flatbuffers.h:1245 | The size of the message |
| `FlatBufferBuilders.FlatBufferBuilder.Fill` | DHNetWork/ImportLibrary/Inc/flatbuffers/flatbuffers.h:1331 | Zeros go in front of the message |
| `FlatBufferBuilders.FlatBufferBuilder.TrackMinAlign` | DHNetWork/ImportLibrary/Inc/flatbuffers/flatbuffers.h:1333-1335 | The largest alignment asked for is kept |
| `FlatBufferBuilders.FlatBufferBuilder.PushBytes` | DHNetWork/ImportLibrary/Inc/flatbuffers/flatbuffers.h:1347 | The bytes go in front of the message |
| `FlatBufferBuilders.FlatBufferBuilder.SameAsFront` | DHNetWork/ImportLibrary/Inc/flatbuffers/flatbuffers.h:1485-1487 | Equal sizes and equal bytes, as Builder.SameVTable says |
| `FlatBufferBuilders.FlatBufferBuilder.StartFinish` | DHNetWork/ImportLibrary/Inc/flatbuffers/flatbuffers.h:2143-2152 | Scratch pad cleared, padding and identifier pushed: Builder.StartFinish |
| `VectorDownwards.VectorDownward.Write` | DHNetWork/ImportLibrary/Inc/flatbuffers/base.h:415-418 | The message changes exactly in the bytes written |
| `LoginLauncherBuilders.CreateOptionalVector` | GameLauncher/ImportLibrary/Inc/LoginLauncher_generated.h:274-275 | A vector when there is one to write, otherwise null; the builder is between tables again |
| `FlexBuilders.Builder.Null` | DHNetWork/ImportLibrary/Inc/flatbuffers/flexbuffers.h:941 | As FlexBuilder.PushNull |
| `FlexBuilders.Builder.Int` | DHNetWork/ImportLibrary/Inc/flatbuffers/flexbuffers.h:947 | As FlexBuilder.PushInt |
| `FlexBuilders.Builder.UInt` | DHNetWork/ImportLibrary/Inc/flatbuffers/flexbuffers.h:953 | As FlexBuilder.PushUInt |
| `FlexBuilders.Builder.Bool` | DHNetWork/ImportLibrary/Inc/flatbuffers/flexbuffers.h:971 | As FlexBuilder.PushBool |
| `FlexBuilders.Builder.PoolFind` | DHNetWork/ImportLibrary/Inc/flatbuffers/flexbuffers.h:1011 | The search goes through the whole pool and gives the first key that strcmp takes for equal |
| `FlexBuilders.Builder.WriteVectorHeader` | DHNetWork/ImportLibrary/Inc/flatbuffers/flexbuffers.h:1559-1564 | Keys offset and width for a map, then the size |
| `FlexBuilders.Builder.ForceMinimumBitWidth` | DHNetWork/ImportLibrary/Inc/flatbuffers/flexbuffers.h:1316-1318 | Only the forced width changes |
| `Utf8.LeadingOnes` | DHNetWork/ImportLibrary/Inc/flatbuffers/util.h:515-521 | The loop over the masks counts the leading ones, up to six |
| `Utf8.Gather` | DHNetWork/ImportLibrary/Inc/flatbuffers/util.h:528-533 | The loop gathers the bits exactly when all following bytes are tails |
| `Escaping.EscapeNext` | DHNetWork/ImportLibrary/Inc/flatbuffers/util.h:589-648 | The body of the loop writes what Escaping.EscapeOne says, and tells how far to go on |
| `SortedVectors.SortOrder` | DHNetWork/ImportLibrary/Inc/flatbuffers/flatbuffers.h:2031 | The order found puts the keys in ascending order |
| `RealTimeRoundTrip.CreateUserStateHolds` | GameLauncher/ImportLibrary/Inc/LoginLauncher_generated.h:78-86 | CreateUserState leaves a table that stands for the user state, the default state dropped unless forced |
| `RealTimeRoundTrip.UserStatesHold` | GameLauncher/ImportLibrary/Inc/LoginLauncher_generated.h:78-86 | User states created one after the other, each after the string of its id, all stand for what they were created from |
| `BuiltVerifies.StringPasses` | DHNetWork/ImportLibrary/Inc/flatbuffers/flatbuffers.h:2350-2356 | A string in an aligned buffer passes VerifyString |
| `FlexRuns.StepKeeps` | DHNetWork/ImportLibrary/Inc/flatbuffers/flexbuffers.h:941-1154 | Every command whose arguments are meaningful meets the builder's assertions and keeps what the stack stands for |
| `FlexWidths.OffsetNoWrap` | DHNetWork/ImportLibrary/Inc/flatbuffers/flexbuffers.h:1461 | The 64-bit subtraction does not wrap |
| `FlexWriting.EncodeCongruent` | DHNetWork/ImportLibrary/Inc/flatbuffers/flexbuffers.h:1359-1363 | A store of w bytes drops multiples of 256^w |
| `TableFields.ValidVTablesShift` | DHNetWork/ImportLibrary/Inc/flatbuffers/flatbuffers.h:1482-1486 | Recorded vtables stay where their offsets from the end say |

## Left out

- VectorDownwards.VectorDownward.Reallocate: custom allocators, ownership, moves, swaps and release are not modelled; the null buffer before the first allocation is an empty array.
- RealTimeRoundTrip.BuildVerifyRead: asks for 64 bytes of room below 2 GB, because a vtable is written before it may be given back and the builder asserts the size at that moment.
- MessageSizes.SmallMessageRoundTrip: the size it allows is an upper bound on what the message takes, not the exact size.
- FlexBuilders.Builder.EndMap: asks for room for the keys in a 63-bit address space; the sort is an insertion sort, one of the sorts std::sort may be: any sort compares neighbours of the result, and so meets two equal keys when there are some.
- FlexBuilders.Builder.WriteAny: the floating point case is left out.
- FlexBuilders.Builder.CreateVector: typed vectors are vectors of keys, as EndMap makes them; other typed vectors and fixed-length ones are left out.
- FlexBuilders.Builder.EndVector: the typed and fixed arguments are both false.
- FlexRoundTrip.TreeRoundTrip: that a run comes to its end is proved below 2^56 bytes; beyond, an allocation may fail.
- FlexRoundTrip.MapGet: with duplicate keys it says only that some value paired with the key is found.
- Escaping.EscapeString: the string is shorter than 2^32 (the loop counter has 32 bits) and is followed by a NUL, where the decoder may look.
- SortedVectors.CreateVectorOfSortedTables: the sort is an insertion sort that is written back to the caller's array; vectors of sorted structs are left out.
- VerifierSoundness.SoundBuffer: alignment checking is on; what can be said when it is off is OddVTable.
- Verification.HasIdentifier: where the code's comparison reads past the end of the buffer (behind a size prefix, at 8 to 11 bytes) its answer is undefined; the model says no. VerifierSoundness.SizePrefixedComparesInside says when that is.
- FlatBufferBuilders.FlatBufferBuilder.CreateSharedString: the std::set of offsets is a list in which the first equal string is found; the same holds for the key pool of FlexBuffers.
- 32-bit uoffset_t arithmetic: sizes are kept below 2 GB by preconditions, as the builder's assertions do, so it does not wrap; scalars are given as their unsigned codes.
- Floating point scalars, structs, vectors of scalars, unions, nested flatbuffers, force_align above 16 and required fields.
- Table::SetField, Vector::Mutate and the Mutate functions of FlexBuffers, which overwrite scalars in place.
- FlexBuffers blobs, floats, indirect scalars, typed and fixed-length vectors of scalars, string sharing and ReuseValue; the builder's Clear.
- PushFlatBuffer, Clear, Reset and Release of the FlatBufferBuilder; big-endian hosts.
- The application's own loops around the generated code are in no file of the repository; LoginLauncher.CreateMessage creates one part after the other.
- The other generated schemas, reflection, the schema parser, gRPC glue, the MariaDB and TBB headers and the forwarding classes DHDB and DHNetWorkAPI.
