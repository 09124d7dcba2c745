# sdbusplus: a verified model of the message codec, the async runtime and object paths

sdbusplus wraps libsystemd for C++. This project models the logic that is its own, in three bodies.

**The typed message codec.** `append` turns a C++ value into a sequence of sd-bus calls and announces, at
every container, a signature that the type compiler computes. `read` walks the message and rebuilds a value,
choosing among the alternatives of a variant by wire type, and for enums and strings by content. The types
and values are datatypes (`DbusTypes`, `DbusValues`). The sd-bus message is a class holding a token sequence,
a cursor and a container stack, with one method per sd-bus call (`Wire`). `Append` and `Read` are the
templates as methods on that class; `Codec` holds the functions they are proved against: `Encode`, what is
written; `Parse`, what is read; and `Convey`, the value a reader of one type gets from a writer of another,
with no message in between. The theorems are about these: `Transfer` (parsing what was encoded is
conveying), `Choice` (the alternative a variant takes), `Typing` and `TypeTable` (what is read is well typed, and
what is written fits the D-Bus type table), `Ordering` and `Filling` (what a set, a map or any other destination
holds after reading into it), `Ranks` and
`RoundTrip` (which values come back), `Settling` and `Stability` (what is sent on), `Announce` (the signatures
are right), `MergeVariants` and `Widening` (widening a reader), and `Message` (appending to a message and
reading from it again).

**The async runtime.** The caller/worker handshake and shutdown (`Context`, `ContextProgress`), spawning and the final stop
(`ContextSpawn`), the two-stage lock of the event loop (`EventLoop`), the mutex with direct hand-off
(`AsyncMutex`), the barrier (`Barrier`) and the match (`AsyncMatch`). Each is a transition system whose steps
are the critical sections and the accesses outside them, taken by any number of threads in any order, with an
invariant over every run (`Machines` says what a run is); and a class whose methods perform these steps on mutable fields.

**The object-path segments.** `/=` escapes a byte string into a path component, `filename` decodes it and
`parent_path` drops it (`ObjectPath`).

Where a promise does not hold of the code, the exact condition is proved, and a concrete input or run shows
that it can fail:

- A value read from a variant is sent on as it came exactly when it was preserved
  (`Stability.AlikeIffPreserved`, for every type). A held string may come back as an enum
  (`Stability.StringTakenByEnum`); a nested variant may even change the wire type
  (`Stability.StringTakenByNestedVariant`), and then the value may change again when it is next read
  (`Stability.NestedNotSettled`); a set may lose an element (`Stability.CollidingSet`,
  `Stability.EnumAndNameCollide`).
- A `std::array` is written as an array and read as a struct, so it never comes back
  (`Transfer.StdArrayNeverReadBack`).
- Appending to an empty base gives no path that `filename` can decode, and `parent_path` does not undo an
  append to a base that ends with a slash (`ObjectPath.FilenameOfAppend`, `ObjectPath.ParentOfAppend`).
- `final_stop` is set outside the lock, so the notification can fall between the caller's test and its sleep
  (`Context.StopCanBeLost`). The caller then sleeps for ever exactly when the worker is past staging
  (`Context.LostIffPastStaging`); otherwise `run` returns (`ContextProgress.ReturnsIffNotDoomed`).
- A requested stop can become final, without another call of `run`, exactly when there is a watcher
  (`ContextSpawn.FinalStopIffWatcher`). A stop requested before any task was spawned
  (`ContextSpawn.EarlyStopIsLost`), or after all tasks were done and reported (`ContextSpawn.IdleStopIsLost`),
  finds none. Neither does one after a task was spawned between the firing of the watcher and its continuation
  (`ContextSpawn.SpawnBetweenIsLost`); that is the only step that leaves a task unwatched
  (`ContextSpawn.StepIsSafe`).
- The comment at include/sdbusplus/event.hpp:129-133 says that the recursive mutex allows locking from a
  callback. The stage mutex that comes first is not recursive; the model follows the code. Such a callback
  gets through exactly when the stage is free (`EventLoop.ReentryIffStageFree`), and can deadlock
  (`EventLoop.ReentryCanDeadlock`).
- Two threads in `run_one` can leave a third one waiting for an event (`EventLoop.SecondRunnerCanStall`), in
  exactly one kind of state (`EventLoop.StalledIff`, `EventLoop.WokenIff`).
- A guard that unlocks before its lock sender was awaited breaks the mutex (`AsyncMutex.UnawaitedReleases`),
  and only such a guard does (`AsyncMutex.ReleaseIsSafe`, `AsyncMutex.UnawaitedRelease`).

What is trusted: the contracts of the sd-bus calls in `Wire.SdBusMessage`, and that mutexes, condition
variables, the eventfd counter and `on_empty` behave as the steps of the transition systems say.

## Model

| member | source | states |
|---|---|---|
| DbusTypes.PrefixFree | include/sdbusplus/message/types.hpp:171-272 | the signatures of complete types are a prefix-free code: of two signatures with anything behind them that read the same, the D-Bus shapes and the remainders are the same |
| DbusTypes.PrefixFreeAll | include/sdbusplus/message/types.hpp:282-303 | the concatenated signature of an argument list splits in only one way |
| DbusTypes.SameSigSameShape | include/sdbusplus/message/types.hpp:171-272 | two C++ types share a signature if and only if they have one D-Bus shape: enums and strings are one, and so are all array-like containers |
| DbusTypes.SigNoNul | include/sdbusplus/message/types.hpp:297-303 | a signature has at least one character and no NUL, so its terminated form is read in full |
| DbusTypes.NameRoundTrip | tools/sdbusplus/templates/interface.common.hpp.mako:186-238 | the generated lookups from enum value to name and from name to value are inverse to each other, in both directions |
| TypeTable.CodesAre | include/sdbusplus/message/types.hpp:180-230 | the codes of the twelve basic types, one by one |
| TypeTable.RangeIs | include/sdbusplus/message/types.hpp:180-230 | a number has a C++ type if and only if it is a value of the D-Bus type with its code |
| TypeTable.WidthIs | include/sdbusplus/message/append.hpp:242-262 | the bulk calls serve exactly the fixed-width types that are neither booleans nor descriptors, and the element width is that of their range |
| TypeTable.EncodeFits | include/sdbusplus/message/append.hpp:56-326 | every item that is appended, at any depth, is a value of the D-Bus basic type of its code: numbers in range, a boolean as 0 or 1, texts without NUL |
| TypeTable.ParseTyped | include/sdbusplus/message/read.hpp:60-418 | from any message of such items, written by anybody, and into any destination, what is read is a value of the destination's type |
| TypeTable.BooleanIsNonzero | include/sdbusplus/message/read.hpp:157-173 | a boolean is read as true for every number but zero |
| Ordering.OrderIs | include/sdbusplus/message/read.hpp:247-281 | the key order is the one of C++: numbers by value, texts, sequences and tuples lexicographically, variants by alternative first |
| Ordering.LessTotal | include/sdbusplus/message/read.hpp:247-281 | of two different values of one type one is less than the other, so no two different keys count as equivalent |
| Ordering.KeysDiffer | include/sdbusplus/message/read.hpp:247-281 | a map never holds two entries with the same first member, a set no element twice |
| Ordering.SortedUnique | include/sdbusplus/message/read.hpp:247-281 | a set or map is determined by what it holds, whatever the order of arrival |
| Filling.InsertIs | include/sdbusplus/message/read.hpp:262-267 | `emplace` takes the element if and only if its key is new, and everything else stays |
| Filling.InsertAllIs | include/sdbusplus/message/read.hpp:262-267 | after all elements: what was there, and for every new key the first element sent for it; nothing else, and nothing lost |
| Filling.KeysArrive | include/sdbusplus/message/read.hpp:262-267 | the keys afterwards are exactly the keys before and the keys sent |
| Filling.ElemsInto | include/sdbusplus/message/read.hpp:196-266 | on any message the element loop puts what arrives, in order, into what is there |
| Filling.VectorFills | include/sdbusplus/message/read.hpp:196-243 | on any message, reading into a vector keeps its elements in front of those read, with the same rest or error |
| Filling.ReadFills | include/sdbusplus/message/read.hpp:182-410 | for every type: reading into a destination is reading into an empty one and filling, with arrays filled up, records member by member and all else replaced, and with the same rest or error |
| DbusValues.InsertLast | include/sdbusplus/message/read.hpp:248-266 | emplacing elements that arrive in key order keeps them all, in that order |
| DbusValues.InsertSorted | include/sdbusplus/message/read.hpp:248-266 | emplacing never leaves a set or map out of key order, or with two equivalent keys |
| Wire.SdBusMessage.SkipVariant | include/sdbusplus/message/read.hpp:346-353 | the cursor moves just past the whole variant, however deep, or the call fails |
| Wire.BytesToElements | include/sdbusplus/message/read.hpp:241-243 | the division by the element width gives back the number of elements that were appended in one call |
| Append.AppendSingle | include/sdbusplus/message/append.hpp:56-326 | appends exactly the encoding of the value, restores the container depth, and throws exactly when an enum value without a name (or a monostate) is held |
| Append.AppendElements | include/sdbusplus/message/append.hpp:223-240 | the element loop: one array block holding the encodings of all elements in order |
| Append.AppendBulk | include/sdbusplus/message/append.hpp:251-262 | the one-call form writes what the element loop would have written |
| Append.AppendVariant | include/sdbusplus/message/append.hpp:308-326 | one variant block that announces the held alternative and contains its encoding |
| Append.AppendArgs | include/sdbusplus/message/append.hpp:329-333 | the variadic append writes all arguments in order, and throws exactly when one of them cannot be written |
| Append.BulkIsLoop | include/sdbusplus/message/append.hpp:242-262 | the items of the bulk call are the element-wise encoding |
| Append.ContiguousIs | include/sdbusplus/message/append.hpp:242-262 | the bulk call is used exactly for vectors of the eight fixed-width types that are neither booleans nor descriptors |
| Read.ReadSingle | include/sdbusplus/message/read.hpp:60-418 | on any message and for any type, reads what the parse says, leaves the cursor just past it and the container stack as it was, or throws the parse error |
| Read.ReadElements | include/sdbusplus/message/read.hpp:182-215 | the loop over the elements of an array, for vectors, sets and maps, terminates on any message and agrees with the parse |
| Read.ReadBulk | include/sdbusplus/message/read.hpp:226-245 | the one-call form reads what the element loop would read, after the elements already there, and fails when that loop would |
| Read.ReadRecord | include/sdbusplus/message/read.hpp:284-322 | pairs and tuples: container kind, contents and members agree with the parse |
| Read.ReadVariant | include/sdbusplus/message/read.hpp:325-410 | the search over the alternatives takes the first one with the wire type, or skips |
| Read.ReadAlternative | include/sdbusplus/message/read.hpp:363-402 | the matched alternative: conversion from a string, or direct reading |
| Read.ReadArgs | include/sdbusplus/message/read.hpp:422-426 | the variadic read agrees with the parse of the whole argument list |
| Read.RunIsLoop | include/sdbusplus/message/read.hpp:182-245 | the element loop over items of one fixed-width type reads the whole run and nothing else |
| Codec.ParseShrinks | include/sdbusplus/message/read.hpp:196-201 | every value but a monostate takes at least one token, so element loops end |
| Codec.FirstMatch | include/sdbusplus/message/read.hpp:332-361 | the alternative found has the wire type, and no earlier one has |
| Transfer.ReadIsConvey | include/sdbusplus/message/read.hpp:60-418 | for a reader and a writer of the same D-Bus shape and every value that can be written, reading the written tokens gives exactly the conveyed value with the cursor just past it, or the enum conversion error; never a bus error |
| Transfer.MessageTransfer | include/sdbusplus/message/read.hpp:422-426 | the same for whole messages: it is enough that the two argument lists announce the same signature |
| Transfer.UnmatchedVariant | include/sdbusplus/message/read.hpp:344-361 | a variant whose wire type none of the alternatives has is skipped as one block: the destination becomes the default value, and whatever follows is read as if the variant had matched |
| Transfer.PastEncode | include/sdbusplus/message/append.hpp:223-326 | every written value is one balanced block, so skipping counts over it at any depth |
| Transfer.StdArrayNeverReadBack | include/sdbusplus/message/read.hpp:284-322 | a `std::array`, which is written as an array, is never read back: its reader asks for a struct and gets a bus error, whatever the elements |
| Typing.ConveyTyped | include/sdbusplus/message/read.hpp:182-410 | whatever is read is well typed for the reader: values in range, sets and maps in key order, variants holding one of their alternatives |
| Typing.DefaultIsZero | include/sdbusplus/message/read.hpp:354 | the value-initialised object is the one value that holds only zeros, false, empty texts and containers, and first alternatives |
| Transfer.MatchSameShape | include/sdbusplus/message/read.hpp:332-361 | the first alternative with the wire type has the D-Bus shape of what was written, and there is none only when no alternative has its signature |
| Choice.ProcessIs | include/sdbusplus/message/native_types.hpp:278-314 | enums and nested variants come before strings wherever they stand: the first alternative that converts the string wins, a string alternative takes only what none converts, and otherwise the conversion fails |
| Ranks.RereadSinks | include/sdbusplus/message/read.hpp:324-410 | reading a value back never raises its rank, and leaves it only when the value comes back as it was |
| Ranks.NoCircle | include/sdbusplus/message/read.hpp:324-410 | values that are read as one another in turn never rise in rank, and a series that ends where it began holds one value only |
| Ranks.TakenInOrder | include/sdbusplus/message/read.hpp:247-281 | elements of a set or map cannot change places: if what it took is read, one by one, as what arrived, it was taken in that order |
| RoundTrip.RereadFaithful | include/sdbusplus/message/read.hpp:182-410 | a value is conveyed to itself if and only if it is faithful: held choices are kept and texts hold no NUL |
| RoundTrip.RereadArray | include/sdbusplus/message/read.hpp:247-281 | a container comes back if and only if each of its elements does: no element of a set or map makes up for another |
| RoundTrip.TextVariant | include/sdbusplus/message/read.hpp:371-389 | a held enum or string comes back if and only if no earlier alternative (for a string: no alternative) claims its text |
| RoundTrip.OtherVariant | include/sdbusplus/message/read.hpp:390-395 | any other held value comes back if and only if no earlier alternative has its signature and it comes back itself |
| RoundTrip.RoundTrips | include/sdbusplus/message/read.hpp:182-410 | for every type and every value that can be written: reading what was appended into an empty destination gives it back, with the cursor just past it, if and only if the value is faithful |
| RoundTrip.MessageRoundTrips | include/sdbusplus/message/append.hpp:329-333 | all arguments of a message come back if and only if all are faithful |
| Settling.ConveySettles | include/sdbusplus/message/read.hpp:182-410 | with no variant inside a variant, whatever was read once is well typed, can be written, and is read back unchanged ever after |
| Stability.AlikeIffPreserved | include/sdbusplus/message/read.hpp:182-410 | for any reader and writer types of one shape, nested variants included: the value read can be written and is written exactly like the one that was sent if and only if every set and map received its elements in its own key order, every variant had an alternative for what it was sent, and no nested variant took a string |
| Stability.ClaimAlike | include/sdbusplus/message/native_types.hpp:278-314 | a held string or enum is sent on as it came if and only if the alternative that takes its text is not a nested variant |
| Stability.WireStable | include/sdbusplus/message/read.hpp:371-389 | append, read, append, for every type: the second message is identical to the first if and only if the value was preserved; and the value read comes back unchanged from then on if and only if it is faithful, which it is whenever the messages are identical |
| Stability.SettlesAtOnce | include/sdbusplus/message/read.hpp:371-389 | with no variant inside a variant, the second message always reads back as the value of the first reading |
| Stability.BasicVariantsStable | include/sdbusplus/message/native_types.hpp:266-315 | variants of basic types, strings and enums are always read without an exception, settle at once, and outside of sets and maps are sent on identically |
| Stability.CollidingSet | include/sdbusplus/message/read.hpp:262-267 | a set with two elements that are read as the same value is never sent on as it came |
| Stability.EnumAndNameCollide | include/sdbusplus/message/native_types.hpp:278-314 | an enum value and the string that names it are two such elements |
| Stability.StringTakenByEnum | include/sdbusplus/message/native_types.hpp:287-312 | a string that names an enum value comes back as the enum, even when the string alternative comes first |
| Stability.StringTakenByNestedVariant | include/sdbusplus/message/native_types.hpp:287-312 | with a nested variant the same string is sent on as another wire type |
| Stability.NestedNotSettled | include/sdbusplus/message/native_types.hpp:287-312 | with two nested variants the value read from such a string is not faithful, so it changes again when it is next read |
| Announce.ScanEncode | include/sdbusplus/message/append.hpp:223-326 | scanned without any C++ type, every container of an appended value announces exactly the signatures of the values inside it and is closed again, and the whole has the signature of its type |
| Announce.ScanMessageEncode | include/sdbusplus/message/append.hpp:329-333 | the signature of a whole message, taken from its tokens, is that of its arguments |
| MergeVariants.DedupIs | include/sdbusplus/utility/dedup_variant.hpp:44-50 | the accumulator recursion keeps the first occurrence of every type, in order |
| MergeVariants.MergeIs | include/sdbusplus/utility/merge_variants.hpp:43-48 | merging any number of variants is keeping first occurrences in the concatenation of all their alternatives |
| MergeVariants.MergeExtends | include/sdbusplus/utility/merge_variants.hpp:43-48 | the merged variant begins with the first one, has no duplicates, and has exactly the alternatives of all |
| MergeVariants.WideningKeeps | include/sdbusplus/message/read.hpp:332-403 | widening a reader changes neither alternative, value, cursor nor error for any message whose wire type the first variant accepted and that is not a string, well formed or not |
| MergeVariants.WideningString | include/sdbusplus/message/native_types.hpp:278-314 | for a string the result stays the same if and only if an alternative of the first variant claims it, or none of the merged ones does and no string alternative was added |
| Widening.WideReadsSame | include/sdbusplus/utility/merge_variants.hpp:43-57 | for types that differ in widened variants at any depth, also inside alternatives of other variants: on any message, well formed or not, whose variants the narrow reader accepts, both readers give the same value, cursor or error |
| Widening.WideText | include/sdbusplus/message/native_types.hpp:278-314 | a string is converted to the same value by both if and only if its first claim stays the first, recursively, or nothing claims it and no string alternative was added |
| Widening.MergeWidens | include/sdbusplus/utility/merge_variants.hpp:43-48 | a merged variant is a widening of the first one |
| Message.AppendThenRead | include/sdbusplus/message.hpp:138-156 | on one message: the arguments read are the arguments appended if and only if each of them can be written and is faithful |
| ObjectPath.EscapeRoundTrip | src/message/native_types.cpp:37-73 | the two escape tables are inverse on all 256 bytes |
| ObjectPath.SegmentRoundTrip | src/message/native_types.cpp:75-117 | decoding undoes the plain-or-fully-escaped encoding, for every non-empty byte string |
| ObjectPath.EncodeSegmentShape | src/message/native_types.cpp:160-177 | an encoded segment is a non-empty run of letters, digits and underscores of at most three times the length |
| ObjectPath.AlnumIs | src/message/native_types.cpp:58-66 | the bytes that need no escape are the ASCII letters and digits |
| ObjectPath.HexDigits | src/message/native_types.cpp:37-56 | lower-case digits are written, and digits of both cases are read |
| ObjectPath.AppendedPlain | src/message/native_types.cpp:156-165 | a segment is appended as it is if and only if it is a valid component that does not start with an underscore |
| ObjectPath.EscapedSegment | src/message/native_types.cpp:166-177 | otherwise its first byte is written as an underscore and two digits, and the rest byte by byte |
| ObjectPath.EscapedByte | src/message/native_types.cpp:167-177 | after the first byte, letters and digits stay as they are and every other byte takes an underscore and two digits |
| ObjectPath.FilenameOfAppend | src/message/native_types.cpp:75-117 | `filename` gives back the segment just appended if and only if the base was not empty |
| ObjectPath.ParentOfAppend | src/message/native_types.cpp:119-132 | `parent_path` gives back the base if and only if it is the root, or two or more bytes without a slash at the end |
| ObjectPath.AppendValid | src/message/native_types.cpp:139-179 | the result of `/` is a valid object path if and only if the base is one, up to one slash at its end; its length is within the reserved size |
| ObjectPath.AppendUndone | src/message/native_types.cpp:75-179 | on a valid base both decoders undo the append |
| ObjectPath.AppendAllValid | include/sdbusplus/message/native_types.hpp:104-111 | a whole list of segments can be appended if and only if none is empty, and gives a valid, longer path |
| ObjectPath.UnwindAppendAll | include/sdbusplus/message/native_types.hpp:104-111 | taking `filename` and `parent_path` repeatedly gives the segments back in reverse, and ends at the base |
| ObjectPath.AppendAllInjective | include/sdbusplus/message/native_types.hpp:104-111 | different lists of segments, of any lengths, give different paths |
| ObjectPath.StringPathWrapper.DivideAssign | src/message/native_types.cpp:147-179 | the in-place loops write the separator and the encoded segment; an empty segment throws and changes nothing |
| ObjectPath.StringPathWrapper.Divide | src/message/native_types.cpp:139-145 | the same on a copy; the receiver is unchanged |
| ObjectPath.StringPathWrapper.FromSegments | include/sdbusplus/message/native_types.hpp:104-111 | the constructor folds `/=`, and throws exactly when the fold fails |
| ObjectPath.StringPathWrapper.GetFilename | src/message/native_types.cpp:75-117 | the text after the last slash, decoded only when it was encoded here |
| ObjectPath.StringPathWrapper.UnescapeComponent | src/message/native_types.cpp:94-116 | the decoding loop gives the decoded bytes, or the empty string when an escape is malformed |
| ObjectPath.StringPathWrapper.GetParentPath | src/message/native_types.cpp:119-132 | everything before the last slash, and the root when that is all |
| Context.StepKeepsInv | src/async/context.cpp:94-348 | every step of caller, worker and stopper keeps the handshake invariant, and the final stop is never withdrawn |
| Context.OneOperation | src/async/context.cpp:316-362 | in every interleaving the current operation is in exactly one place: on the worker, staged, pending or in the caller's hands; staging never overwrites another one; and the operations are completed or stopped in order, each exactly once |
| Context.NoLostHandOff | src/async/context.cpp:322-348 | a caller asleep means nothing is staged or pending, and after `spawn_complete` broke the event loop the caller is never blocked in it without a wake-up |
| Context.SpinStep | src/async/context.cpp:263-285 | while the caller spins, its next round ends the spin or the worker can move; each worker step comes closer and nobody else's takes it back |
| Context.JoinStep | src/async/context.cpp:131-140 | while the caller waits for the internal tasks it can go on once the worker has ended, or the worker can move; each worker step comes closer and nobody else's takes it back |
| Context.WaitEnds | src/async/context.cpp:263-285 | the spin, and the wait for the internal tasks after it, each last at most six worker steps, in every interleaving |
| Context.CleanReturn | src/async/context.cpp:121-141 | when `run` returns, nothing is staged or pending, every operation was signalled, at most one was started after the final stop, and nothing is started, staged or signalled later, however often `run` is called again |
| ContextProgress.ReturnsIffNotDoomed | src/async/context.cpp:121-141 | in every reachable state with the final stop set, `run` can return without a spurious wake-up if and only if the caller has not overslept, or is not bound to oversleep, the notification with nothing left to be staged |
| ContextProgress.ReturnIsNear | src/async/context.cpp:225-285 | whatever the interleaving, caller and worker take at most nineteen effective steps from the final stop to the return of `run` |
| ContextProgress.Progress | src/async/context.cpp:225-285 | until then there is always a step that brings them closer |
| ContextProgress.SpuriousSaves | src/async/context.cpp:331-334 | a doomed caller that is asleep returns after a spurious wake-up |
| ContextProgress.RunAgainReturns | src/async/context.cpp:121-141 | a repeated `run` starts at the top and returns again |
| ContextProgress.StartsAfterStop | src/async/context.cpp:94-108 | after the final stop at most one operation is started, and none unless the worker was past its test |
| ContextProgress.NotifiedStaysAwake | src/async/context.cpp:331-334 | a caller that is not about to sleep when the stop is notified never sleeps again |
| ContextProgress.LateStartsCount | src/async/context.cpp:94-108 | the number of late starts is that of the operations started after the final stop |
| ContextProgress.MissedIffAboutToSleep | src/async/context.cpp:173-187 | a notification is recorded as missed if and only if the caller was about to sleep |
| ContextProgress.PendingIsPolled | src/async/context.cpp:343-348 | without a stop, a caller with a pending operation enters the event loop |
| ContextProgress.OperationCompletes | src/async/context.cpp:322-362 | before the final stop a suspended operation can be completed by at most six steps of the caller alone |
| ContextProgress.GoesOn | src/async/context.cpp:94-103 | before the final stop there is always a run to the next operation, with all earlier ones signalled |
| ContextProgress.WokenIffSignalled | src/async/context.cpp:343-348 | a polling caller can be woken if and only if the event loop was signalled since it last woke up |
| ContextProgress.StopIsLast | src/async/context.cpp:263-285 | only the last operation can be stopped rather than completed, and only after the final stop |
| Context.AtMostOneLateStart | src/async/context.cpp:94-108 | the worker starts at most one operation once the final stop is set |
| Context.StopLostOnlyInWindow | src/async/context.cpp:173-187 | a caller that sleeps after the stop was notified was between its test and its sleep at that moment |
| Context.LostIffPastStaging | src/async/context.cpp:316-334 | such a caller stays asleep in every run without a spurious wake-up if and only if the worker will not stage an operation any more; before that there is a run in which the worker wakes it |
| Context.StopCanBeLost | src/async/context.cpp:173-187 | such a run exists: the caller is asleep and the worker gone |
| Context.ContextObject.Stage | src/async/context.cpp:316-319 | the critical section of `start`: nothing was staged or pending before, and exactly this operation is staged after |
| Context.ContextObject.EndLoop | src/async/context.cpp:104-107 | the critical section at the end of the worker's loop |
| Context.ContextObject.TakeStaged | src/async/context.cpp:324-341 | the critical section of `wait_once`: when it goes on without a stop, there is a pending operation and nothing staged |
| Context.ContextObject.DbusEventHandle | src/async/context.cpp:351-362 | the handler takes the pending operation, and there is always one |
| Context.ContextObject.FindWorker | src/async/context.cpp:263-279 | the spin loop terminates whatever `process_discard` returns and however many steps the worker takes in each round, with an operation in hand or the worker stopped |
| Context.ContextObject.WaitForWaitProcessStopped | src/async/context.cpp:263-285 | on return the loop is marked stopped, and nothing is staged or pending |
| ContextSpawn.StepIsSafe | src/async/context.cpp:173-223 | a step keeps the spawn invariant if and only if it does not spawn between the firing of the watcher and its continuation |
| ContextSpawn.TasksAreWatched | src/async/context.cpp:198-223 | in every serialised run, outstanding tasks have exactly one armed watcher; once the final stop is set there are no tasks, and none is ever added |
| ContextSpawn.LastTaskStops | src/async/context.cpp:173-187 | if a stop was requested, the completion of the last task fires the watcher, whose continuation sets the final stop |
| ContextSpawn.FinalStopIffWatcher | src/async/context.cpp:173-223 | in every run, serialised or not, a stop that was requested and is not final can become final without another `run` if and only if a watcher is armed or has fired, which is what `spawn_watcher_running` tells |
| ContextSpawn.RepeatedRunFinalises | src/async/context.cpp:235-260 | another `run` makes every requested stop final: its watch and what follows from it take one step for each task and two more |
| ContextSpawn.EarlyStopIsLost | include/sdbusplus/async/context.hpp:95-98 | a stop requested before any task was spawned is abandoned: it only sets the first stop source, and there is no watcher |
| ContextSpawn.IdleStopIsLost | include/sdbusplus/async/context.hpp:95-98 | so is every stop requested in a serialised run while no watcher is running |
| ContextSpawn.SpawnBetweenIsLost | src/async/context.cpp:198-223 | without serialisation a stop is abandoned even though it was requested while a task was outstanding |
| ContextSpawn.AbandonedForEver | src/async/context.cpp:208-223 | without a watcher a requested stop stays abandoned in every run in which `run` is not called again, with or without tasks |
| ContextSpawn.SpawnObject.SpawnTask | include/sdbusplus/async/context.hpp:60-78 | throws exactly when a stop was requested, and then adds no task; otherwise the task is watched |
| ContextSpawn.SpawnObject.Complete | src/async/context.cpp:173-187 | releases the watcher and sets the final stop only when no task is left |
| EventLoop.StepKeepsInv | src/event.cpp:94-196 | every step of any number of threads keeps both mutexes exclusive, and keeps the eventfd readable while a signaller is blocked behind a polling `run_one` |
| EventLoop.NotOvertaken | src/event.cpp:176-196 | a thread past the stage is not overtaken: it is the next one to obtain the main lock, whatever all the others do |
| EventLoop.SignallerProgress | src/event.cpp:168-196 | a blocked signaller can take the lock, or the owner has an enabled step closer to its release |
| EventLoop.SignallerGetsLock | src/event.cpp:168-196 | unless the owner is in a nested call, at most five steps of owner and signaller lead to the signaller holding the lock |
| EventLoop.NoCycle | src/event.cpp:176-196 | without re-entry no run reaches a wait-for cycle between stage and lock |
| EventLoop.PollerIsWoken | src/event.cpp:94-108 | with one runner, whoever is first in line behind a polling `run_one` has woken it or is about to |
| EventLoop.StalledIff | src/event.cpp:94-108 | with any number of runners, the first in line has woken the poller or is about to, if and only if it is not a second `run_one` in front of an unsignalled eventfd |
| EventLoop.WokenIff | src/event.cpp:94-108 | the poller can return without another event and without `break_run` if and only if it is not so stalled |
| EventLoop.BreakRunWakes | src/event.cpp:105-108 | after `break_run` a polling thread can return, and can still do so whatever the other threads do until it moves |
| EventLoop.ReentryIffStageFree | src/event.cpp:176-196 | a handler that calls `obtain_lock` again can ever get through if and only if nobody holds the stage; otherwise it and the holder wait for each other in every run |
| EventLoop.ReentryCanDeadlock | src/event.cpp:176-196 | with re-entry from a handler a run reaches the cycle |
| EventLoop.CycleIsForEver | src/event.cpp:176-196 | a cycle is never left |
| EventLoop.SecondRunnerCanStall | src/event.cpp:94-103 | with two runners a signaller can wait behind a poll that nobody has woken |
| EventLoop.EventObject.ObtainLock | src/event.cpp:176-196 | under any interference in any number of rounds, resuming wherever it was blocked: it ends with the lock held and the stage free, or is still blocked behind another thread; a blocked signaller has left the eventfd readable |
| EventLoop.EventObject.TryOrSignal | src/event.cpp:182-189 | it holds the lock, or it has signalled |
| EventLoop.EventObject.RunOne | src/event.cpp:94-103 | the lock is released, and a wake-up has taken all signals at once |
| EventLoop.EventObject.BreakPoll | src/event.cpp:105-108 | `break_run` adds one signal and nothing else |
| AsyncMutex.MutualExclusion | src/async/mutex.cpp:8-50 | if senders are awaited before their guards unlock: at most one holder, no termination, grants are unlocks plus one if locked, and grants followed by the queue are the arrivals |
| AsyncMutex.GrantedInTurn | src/async/mutex.cpp:27-31 | the waiter at position k is granted the mutex by the (k+1)-st unlock from now, neither earlier nor later |
| AsyncMutex.ReleaseIsSafe | include/sdbusplus/async/mutex.hpp:145-158 | an unlock keeps the invariant if and only if the guard's sender was awaited and completed |
| AsyncMutex.UnawaitedRelease | include/sdbusplus/async/mutex.hpp:145-158 | otherwise it terminates if and only if the mutex is unlocked; if someone holds it, there are two holders, or one of an unlocked mutex |
| AsyncMutex.UnawaitedReleases | include/sdbusplus/async/mutex.hpp:145-158 | two such misuses: one terminates, one leaves two holders |
| AsyncMutex.MutexObject.Unlock | src/async/mutex.cpp:8-32 | hands the mutex to the first waiter, or unlocks it, or terminates; the grants grow by exactly the task completed |
| AsyncMutex.MutexObject.Start | src/async/mutex.cpp:37-50 | the sender completes at once exactly when the mutex was free |
| AsyncMutex.LockGuard.Lock | include/sdbusplus/async/mutex.hpp:145-149 | marks the guard as owner before its sender has been awaited |
| AsyncMutex.LockGuard.Release | include/sdbusplus/async/mutex.hpp:53-62 | `unlock` and the destructor release exactly what is owned, and never terminate when the sender was awaited |
| Barrier.Generations | src/async/barrier.cpp:8-27 | in every run, with batches draining while tasks arrive again: waiters are arrivals modulo count; arrival n is in batch n / count; it is released at most once and never before its batch is full; a drained barrier has released exactly the full batches |
| Barrier.StepKeepsInv | src/async/barrier.cpp:8-27 | arrivals and completions keep the batches made of consecutive arrivals, each released once |
| Barrier.BarrierObject.Create | include/sdbusplus/async/barrier.hpp:36-43 | throws exactly for a count below one |
| Barrier.BarrierObject.Start | src/async/barrier.cpp:8-23 | every count-th arrival takes out the last count arrivals in order, all others wait |
| Barrier.BarrierObject.CompleteOne | src/async/barrier.cpp:25-26 | the completion loop releases the next task of its batch, which was not released before |
| AsyncMatch.StepKeepsInv | src/async/match.cpp:30-103 | every step keeps messages and awaits paired, and only a second await terminates |
| AsyncMatch.Pairing | src/async/match.cpp:30-103 | in every run message n goes to await n, delivered messages followed by the queue are the received ones, deliveries are the lesser of messages and awaits before destruction, and every await is completed or stopped, once |
| AsyncMatch.MatchObject.HandleCompletion | src/async/match.cpp:80-103 | the pair is taken out under the lock and completed after it was released |
| AsyncMatch.MatchObject.HandleMatch | src/async/match.cpp:71-78 | the step of the transition system for the message, and then the completion of the pair if one was made |
| AsyncMatch.MatchObject.Start | src/async/match.cpp:45-69 | a second await terminates; any other is the step of the transition system, and then the completion of the pair if one was made |
| AsyncMatch.MatchObject.Destruct | src/async/match.cpp:30-43 | the awaiting receiver, if any, is stopped |

## Left out

- libsystemd, stdexec, coroutines, threads and the kernel: each sd-bus, mutex, condition-variable and eventfd call is a step or a method with a contract that is taken for granted.
- The validity checks inside sd-bus (UTF-8, object-path and signature syntax, where a dict entry may stand, nesting depth, message size), and appends that fail: `append` ignores their return codes.
- Wire alignment and byte order: a message is a sequence of tokens, and a bulk array has a fixed element width.
- Floating point: a double is a real number, without NaN and negative zero, so ordered containers of doubles are simpler than in the code. Characters are ordered by their code, as unsigned bytes.
- Unordered containers and containers with a comparator of their own; `std::array` as a type of its own, which would have to be written as one type and read as another; deques, lists and spans.
- `std::string_view` and character pointers as types of their own: they are written and read like strings, but are no alternatives of a variant here. `unix_fd` is a number; its reset after the append is not modelled.
- Monostate is written by no operation: a value that holds it makes the append fail, where the code does not compile.
- The state of a message after an exception: a failed append or read promises nothing about the tokens written or the cursor.
- Settling.ConveySettles: stated for types in which no variant holds a variant; with nested variants it fails (`Stability.NestedNotSettled`), and the exact condition for a value to be settled is that it is faithful (`Stability.WireStable`).
- Stability.SettlesAtOnce: the same restriction.
- Stability.CollidingSet: shown for sets; a map with two keys that are read as one shrinks in the same way.
- Append.AppendSingle: in-place growth of the message is on a field that holds a sequence, not on a buffer.
- Read.ReadSingle: the destination is a value passed in and returned, so what a partly filled destination holds after an exception is not stated.
- Context.NoLostHandOff: a stop notification may still miss the caller; when that is final is `Context.LostIffPastStaging`.
- Context.ContextObject.FindWorker: the worker is taken to be started, `process_discard` to return, and the operating system to run the worker for at least one step while the caller yields.
- Context.CleanReturn: the wait for the internal tasks is taken to end when the wait/process loop has ended; other internal tasks are not modelled.
- ContextSpawn.TasksAreWatched: `spawn` and `spawn_complete` are whole steps, as is each completion of a task; the test for a stop and the start of the task are not interleaved.
- AsyncMutex.MutualExclusion: `lock()` is called only on a guard that is not owned; a second call on an owned guard waits for itself and is not modelled.
- EventLoop.NoCycle: no claim for handlers that call `obtain_lock` again; those are the subject of `EventLoop.ReentryIffStageFree`.
- EventLoop.EventObject.ObtainLock: the number of rounds is a parameter; that some run ends with the lock is `EventLoop.SignallerGetsLock`.
- Moving and destroying event sources and conditions, timers, timeouts, the watchdog and `fdio`.
- `filename` on bytes outside ASCII right after an underscore, where the code indexes its table with a negative number; here bytes are 0 to 255.
- The asio connection and object server, vtables, slots, bus, exceptions and transactions; added and removed signals, property setters and `properties_t::unpack`; the code generator apart from the enum tables.
