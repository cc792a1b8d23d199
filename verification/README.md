# Verification of MassTransit C++

A Dafny 4.11 model of the parts of MassTransit C++ in which several functions have to work together,
with proofs of what they promise. `dafny verify dfyconfig.toml` checks all of it.

- **Frame demultiplexer** (`AmqpFrames`, `AmqpView`, `AmqpOutcome`, `AmqpCalls`, `AmqpChannel`): one connection
  carries the frames of many channels. The object keeps a queue of frames and a list of assembled messages, and
  calls itself again when a frame it queues completes a message. The broker is a stream of frames; the proofs
  compare every method with the projections of that stream to single channels. For every stream, `AmqpOutcome`
  says what a failure was caused by and what it leaves of the channel table; for well-formed ones, `AmqpCalls`
  says what waits and requests owe their client, and that they fail only when nothing was left to give.
  `ChannelTable` is about channel numbers and the consumers that hold them.
- **JSON engine**: values and equality (`Json`), pointers (`JsonPointer`, `JsonNavigate`), diff and patch
  (`JsonPatch`, `JsonDiff`, `DiffContents`), patch against RFC 6902 (`PatchStandard`, `NumericEquality`, `PatchReading`,
  `PatchAgreement`), flatten and unflatten (`JsonFlatten`, `FlatPlaces`), text (`JsonString`, `JsonScan`, `JsonNumber`,
  `JsonLex`, `JsonDump`, `JsonLayout`, `JsonParse`, `JsonParser`, `JsonText`) and the grammar of RFC 7159
  (`NumberGrammar`, `StringGrammar`, `TokenGrammar`, `ValueGrammar`, `TextGrammar`), CBOR and MessagePack (`BinaryHeads`,
  `BinaryItems`, `BinaryIo`) and their encodings (`BinaryForms`, `ItemGrammar`).
  `Keys`, `Numerals`, `Integers`, `Utf8`, `Reversal`, `JsonResult`, `Sequences` and `Wrappers` hold
  what they share.
- **Threads and the in-memory bus** (`TasksQueue`, `WorkerPool`, `InMemoryBus`): the classes, and beside them a
  transition system with one step per mutex section, built from the same functions; its lemmas speak of all schedules.
- **Field tables** (`AmqpTable`): nested maps, wire trees in pool storage, and their copies.

A C++ `std::string` is a `string` whose characters are bytes; a float is its bit pattern; a sorted `std::map` is a
map that is visited in the order of `Keys.Sorted`. An object whose methods change it is a class; its methods are
proved against functions, and the lemmas are about those functions. Exceptions are results. Where a function of that kind
only says what the code does, there is a second definition that does not use it, and a theorem that the two agree: the
grammar of numbers, strings, tokens and values for what parse accepts and returns, the layout of tokens for what dump
writes, the wanted changes for what diff emits, the encodings of a value for the binary formats, what a wire field denotes
for the tables, and RFC 6902 for patch.

## Where the code does not do what is said of it

- **unflatten** (`include/masstransit_cpp/utils/json.hpp:13650-13653`): the documentation promises that everything but empty containers comes back.
  An object with the key `"0"` comes back as an array or not at all, unless one of its other keys is visited
  before `"0"`. `JsonFlatten.Restorable` is the exact condition.
- **diff and patch** (`include/masstransit_cpp/utils/json.hpp:13994-13998`): array positions travel as text and are read by `std::stoi`,
  so differences beyond index INT_MAX cannot be applied. `JsonDiff.Fits` is the exact condition, and
  `JsonDiff.LongArraysAreLost` an input that fails.
- **patch** (`include/masstransit_cpp/utils/json.hpp:13728-13986`): its documentation names RFC 6902. A copy assigns, so in an
  array it overwrites an element instead of making room for it (`PatchAgreement.CopyOverwrites`); an add, and with it
  a move, creates what is missing above its target; adding and removing below a string, number or boolean do nothing and
  succeed (`AddBelowNumber`; in a debug build the add ends the process at an assertion); `std::stoi` reads tokens that are no
  indices (`StrayIndexReplaces`, `LeadingZeroRemoves`); a value can be moved below itself; and a test takes different
  numbers for equal (`SignIsLost`, `RoundedIsEqual`). `PatchAgreement.OpConforms` is the exact condition, over every document
  and every operation.
- **indentation** (`include/masstransit_cpp/utils/json.hpp:6403-6407`): an object doubles `indent_string` once, which is not enough for a
  first step above twice its 512 characters. `JsonDump.IndentationFits` has the exact condition, and
  `JsonLayout.DumpValue` excludes it.
- **field tables** (`src/rabbit_mq/amqp_table.cpp:172-195`): a nested empty table throws, although an empty table at the top does not.
- **consumers** (`src/rabbit_mq/amqp_channel.cpp:513-518`): closing the channel of a consumer leaves the consumer in the map,
  whether the close answers its cancel, ends a wait or a request of the consumer, or is met by another call;
  `ChannelTable.StepValid` and `ChannelTable.ClosedConsumerIsShared` say what follows.

## Model

| member | source | states |
|---|---|---|
| AmqpChannel.AmqpChannelImpl.Serve | src/rabbit_mq/amqp_channel.cpp:353-433 | Over any sequence of waits (on any channels, timed or not) and requests, with any place of each reply and any interleaving of well-formed channel streams: what was returned for a channel, then its delivered list, queued frames and unread stream, is the same sequence of messages as at the start; each call keeps its own contract; the envelopes returned are always a prefix of it; it stops early only at a failed call, which has met the end of the stream, by connection.close or without; the table is untouched; and the broker has been sent exactly the requests, and connection.close-ok exactly after a connection.close |
| AmqpChannel.AmqpChannelImpl.ConsumeMessageOnChannel | src/rabbit_mq/amqp_channel.cpp:380-394 | One wait hands out exactly the next message of one of its channels, and conserves what every channel is still owed; a timeout is possible only when no frame or message of them has been received, and changes nothing for any channel; it fails only at the end of the stream, with ConnectionClosed or LibraryError as the stream has a connection.close or not, and only if nothing is owed to the channels or one of them is in the middle of a message that never ends |
| AmqpChannel.AmqpChannelImpl.ConsumeMessage | src/rabbit_mq/amqp_channel.cpp:1084-1090 | Of one consumer: a closed connection and an unknown tag are refused with nothing changed, and otherwise the next message of the consumer's channel is handed out; an untimed call returns one whenever the channel is owed one; on a well-formed stream no channel and no consumer is lost |
| AmqpChannel.AmqpChannelImpl.ConsumeMessageOnChannelInner | src/rabbit_mq/amqp_channel.cpp:396-433 | When the first message of a channel is complete in the queue, exactly that message is returned, exactly its frames are removed, and the stream is not read; in general the message read is the channel's next one and every other channel is conserved; a failure has one of its causes in queue or stream, and a cancelled consumer leaves the map and gives up its channel |
| AmqpChannel.AmqpChannelImpl.ReadMessage | src/rabbit_mq/amqp_channel.cpp:409-432 | The message behind a delivery that has been read: from the queue when it is complete there, else from queue and stream; it fails only if the stream ends before the message does |
| AmqpChannel.AmqpChannelImpl.ForgetConsumer | src/rabbit_mq/amqp_channel.cpp:407-417 | A cancel of an unknown consumer changes nothing; otherwise the consumer leaves the map and the channel is returned, if there is such a channel |
| AmqpChannel.AmqpChannelImpl.AddToFrameQueue | src/rabbit_mq/amqp_channel.cpp:207-220 | Queueing a frame of a channel nobody waits for, and assembling the message it completes, conserves every channel, reads nothing from the broker and cannot fail on a well-formed stream: the logic_error is unreachable; on any other stream a failure has its cause |
| AmqpChannel.AmqpChannelImpl.CheckForQueuedMessageOnChannel | src/rabbit_mq/amqp_channel.cpp:177-205 | The scan of the queue is the scan of the channel's own frames, with its two protocol errors |
| AmqpFrames.ScanPredicts | src/rabbit_mq/amqp_channel.cpp:177-205 | On well-formed frames the scan answers yes exactly when the reader completes a message on them, and never reports a protocol error |
| AmqpView.DeliverQueuedConserves | src/rabbit_mq/amqp_channel.cpp:207-220 | Moving a complete message from the queue to the delivered list keeps every channel's sequence of messages and leaves other channels' frames alone |
| AmqpChannel.AmqpChannelImpl.GetNextFrameFromBroker | src/rabbit_mq/amqp_channel.cpp:148-175 | Takes the head of the stream; a timed wait may end without a frame, an untimed one only when the stream is over; nothing is read behind a connection.close |
| AmqpChannel.AmqpChannelImpl.GetNextFrameFromBrokerOnChannel | src/rabbit_mq/amqp_channel.cpp:222-266 | Hands over the next frame of the stream on one of the channels; all frames before it are queued or, on channel 0, dropped, with nothing lost or reordered on any other channel; it fails exactly with ConnectionClosed at the connection.close, which is answered and leaves the object unconnected, or untimed at the end of the stream, and then no frame of the channels was left |
| AmqpChannel.AmqpChannelImpl.GetNextFrameOnChannel | src/rabbit_mq/amqp_channel.cpp:268-286 | The first queued frame of the channel is removed and returned; only without one is the stream read; a channel.close among them fails and closes the channel in the table |
| AmqpChannel.AmqpChannelImpl.GetMethodOnChannel | src/rabbit_mq/amqp_channel.cpp:299-351 | An expected method in the queue is taken first; otherwise frames of the channels are queued unscanned until one arrives, and those channels' streams stay in order; a channel.close among them closes its channel in the table and is answered; on a well-formed stream it fails only at the end of it |
| AmqpChannel.AmqpChannelImpl.FinishCloseChannel | src/rabbit_mq/amqp_channel.cpp:513-518 | The channel is closed in the table and channel.close-ok sent; a number without a channel is an error and nothing is sent; the consumers stay as they are |
| AmqpChannel.AmqpChannelImpl.ReadContent | src/rabbit_mq/amqp_channel.cpp:527-561 | The body is the concatenation of the body frames up to the announced size, read from queue and stream in channel order; on a well-formed stream it fails only if the stream ends before the message does |
| AmqpChannel.AmqpChannelImpl.ReadBody | src/rabbit_mq/amqp_channel.cpp:539-558 | The loop over the body frames fills a buffer of the announced size exactly; on well-formed streams no fragment passes its end, and it fails only if the stream ends before the message does |
| AmqpChannel.AmqpChannelImpl.CopyFragment | src/rabbit_mq/amqp_channel.cpp:548-558 | A fragment is copied behind what has been received, which stays as it is |
| AmqpChannel.AmqpChannelImpl.DoRpcOnChannel | src/rabbit_mq/amqp_channel.cpp:353-363 | A request is sent, and when its reply comes between two messages of the channel, anywhere before a connection.close, it is the one that is returned, never a failure, and no channel loses, gains or reorders a message meanwhile |
| AmqpChannel.AmqpChannelImpl.RequestOnChannel | src/rabbit_mq/amqp_channel.cpp:353-372 | The same with the reply at the first possible place: on a well-formed stream the request is answered unless from the earliest place on the stream never stands between two messages of the channel, and then it ends with the stream |
| AmqpOutcome.EndedIsStep | src/rabbit_mq/amqp_channel.cpp:407-417 | On every stream, well-formed or not, a read that fails has changed the channel table by nothing or by exactly one channel.close or basic.cancel that was in queue or stream |
| AmqpCalls.FramedStream | src/rabbit_mq/amqp_channel.cpp:527-561 | A stream whose projection to each channel is the framing of some messages, with any cutting of the bodies, is well-formed, and the object owes each channel exactly those messages |
| AmqpFrames.ReaderInvertsFraming | src/rabbit_mq/amqp_channel.cpp:527-561 | Independent definition: for every list of messages and every cutting of their bodies into frames (content framing, section 4.2.6 of AMQP 0-9-1), the channel's frames are well-formed and the reader recovers exactly those messages |
| AmqpFrames.ReplyIsTransparent | src/rabbit_mq/amqp_channel.cpp:340-340 | A reply between two messages does not change what the reader of the channel sees |
| AmqpFrames.OnDropOn | src/rabbit_mq/amqp_channel.cpp:268-274 | Erasing the first frames of one channel leaves the rest of it in order and every other channel alone |
| AmqpChannel.AmqpChannelImpl.GetNextChannelId | src/rabbit_mq/amqp_channel.cpp:450-466 | The first closed channel, or one more as long as the negotiated maximum allows it |
| AmqpChannel.AmqpChannelImpl.CreateNewChannel | src/rabbit_mq/amqp_channel.cpp:435-448 | A closed or one more channel is opened by channel.open and confirm.select on it, in this order and up to the first failure; on success it is open and every channel is still owed what it was; otherwise it stays closed but for a close or cancel that was met |
| AmqpChannel.AmqpChannelImpl.GetChannel | src/rabbit_mq/amqp_channel.cpp:119-137 | The channel that was used last if it is open, else the first open one, both without a request; else a new one |
| AmqpChannel.AmqpChannelImpl.ReturnChannel | src/rabbit_mq/amqp_channel.cpp:139-143 | The channel becomes open and the last used one |
| AmqpChannel.AmqpChannelImpl.Consume | src/rabbit_mq/amqp_channel.cpp:1009-1045 | On success what the call has sent is exactly channel.open and confirm.select if the channel is new, basic.qos and then basic.consume, all on the channel that is returned; in every outcome, failures included, each confirm.select, basic.qos and basic.consume of the call comes only behind what has to be sent before it on the same channel, so no consumer starts without its prefetch limit. On success the tag is mapped to the channel unless it is mapped already, the table is that of one step, and every channel is still owed what it was; on a failure the consumers stay as they are but for a close or cancel that was met |
| AmqpCalls.NotConsumedIsRun | src/rabbit_mq/amqp_channel.cpp:1009-1045 | A consumer that is not started leaves the channel table of an unanswered request, or that and one step of the broker |
| AmqpCalls.NotConsumedPrepared | src/rabbit_mq/amqp_channel.cpp:1015-1042 | Whatever a failed start has sent, on the way to a new channel or to the consumer, was sent in this order |
| AmqpChannel.AmqpChannelImpl.ConsumeOnNew | src/rabbit_mq/amqp_channel.cpp:1009-1045 | basic.qos and basic.consume on the channel that was got, up to the first failure |
| AmqpChannel.AmqpChannelImpl.CancelConsumer | src/rabbit_mq/amqp_channel.cpp:1063-1082 | basic.cancel is sent on the consumer's channel; when it is answered the consumer leaves the map and its channel becomes the last used open one; a failure keeps the consumer, but for a close or cancel that was met |
| AmqpChannel.AmqpChannelImpl.RequestForConsumer | src/rabbit_mq/amqp_channel.cpp:1047-1061 | qos and recover of a consumer: a closed connection and an unknown tag are refused with nothing sent, otherwise the request goes out on the consumer's channel |
| ChannelTable.AcquireIsFresh | src/rabbit_mq/amqp_channel.cpp:119-137 | A channel that is handed out is not 0, not in use, held by no consumer and within the negotiated maximum, so the 16-bit cast is exact |
| ChannelTable.AcquireRefused | src/rabbit_mq/amqp_channel.cpp:450-460 | The request is refused exactly when every number the broker allows is in use |
| ChannelTable.AcquireChooses | src/rabbit_mq/amqp_channel.cpp:119-137 | Which channel is handed out: the last used one if it is open, else the open one with the lowest number; only if none is open, the lowest closed one or else one more; nothing but its state changes |
| ChannelTable.ConsumerStep | src/rabbit_mq/amqp_channel.cpp:1047-1082 | The table after a request of a consumer, outcome by outcome: an answered cancel opens its channel, makes it the last used one and forgets this consumer alone; a broken one changes nothing; a channel.close closes the channel and forgets nobody |
| ChannelTable.StepValid | src/rabbit_mq/amqp_channel.cpp:450-518 | Consumers keep pairwise distinct channels in use, exactly unless the operation takes a channel from the consumer that holds it: a channel.close of it, as the answer to a request or met in a wait, or a cancel that comes on another consumer's channel |
| ChannelTable.ConsumersKeepDistinctChannels | src/rabbit_mq/amqp_channel.cpp:1009-1082 | Over every run of consume, cancel, qos, recover, waits, other requests, and the broker's cancels and closes, in which no step takes a channel from its consumer, no two consumers share a channel |
| ChannelTable.ClosedConsumerIsShared | src/rabbit_mq/amqp_channel.cpp:513-518 | After such a close, in a cancel, in a wait or request of the consumer, or met by another call, the channel is handed out again and two consumers share it |
| JsonPointer.ReplaceSubstring | include/masstransit_cpp/utils/json.hpp:7365-7374 | The loop terminates and gives the leftmost replacement of all occurrences, for every non-empty pattern |
| JsonPointer.UnescapeInvertsEscape | include/masstransit_cpp/utils/json.hpp:7376-7392 | The two passes of unescape undo the two passes of escape, for every string (section 3 of RFC 6901) |
| JsonPointer.EscapeInvertsUnescape | include/masstransit_cpp/utils/json.hpp:7376-7392 | And the other way round, for every properly escaped token |
| JsonPointer.SplitText | include/masstransit_cpp/utils/json.hpp:7288-7351 | The loop over the slashes splits as specified, with both errors |
| JsonPointer.SplitAccepts | include/masstransit_cpp/utils/json.hpp:7288-7351 | A string is a pointer exactly when it is empty, or begins with a slash and has only proper escapes |
| JsonPointer.SplitInvertsToString | include/masstransit_cpp/utils/json.hpp:7160-7168 | split(to_string(tokens)) == tokens for every list of tokens, empty ones included |
| JsonPointer.ToStringInvertsSplit | include/masstransit_cpp/utils/json.hpp:7160-7168 | to_string(split(s)) == s for every valid pointer s |
| Numerals.StoiReads | include/masstransit_cpp/utils/json.hpp:14361-14361 | std::stoi reads the number that a text begins with, behind white space and an optional sign and up to the first other character, or reports that int does not hold it |
| Numerals.StoiFinds | include/masstransit_cpp/utils/json.hpp:14361-14361 | And it reports that there is no number only where no such number stands |
| JsonNavigate.EditElement | include/masstransit_cpp/utils/json.hpp:13766-13856 | What adding and removing at an array index does, with its errors: indices go through text and std::stoi, so they end at INT_MAX |
| JsonPatch.PatchDocument | include/masstransit_cpp/utils/json.hpp:13728-13986 | The loop over the operations gives the document or the error that the operations give one after the other, for every document and every patch |
| PatchAgreement.OpAgrees | include/masstransit_cpp/utils/json.hpp:13766-13986 | For every document and every operation, the code does what the independently defined operation of section 4 of RFC 6902 does, failing when that fails, exactly when it conforms: for each kind of operation a condition on the document and the pointers |
| PatchAgreement.PatchesAgree | include/masstransit_cpp/utils/json.hpp:13728-13986 | Code and standard agree after every number of operations of a patch exactly when all operations conform, each to the document the ones before it leave |
| PatchAgreement.PatchAgrees | include/masstransit_cpp/utils/json.hpp:13728-13986 | Such a patch gives what RFC 6902 says, or fails when that fails |
| PatchReading.LookupAgrees | include/masstransit_cpp/utils/json.hpp:14325-14380 | at(pointer) finds a value exactly when RFC 6901 does, and the same one, unless at some token the readings part and the one that goes on gets to the end: the code behind a token that is no index but that std::stoi reads as one of an element, the standard behind an index above INT_MAX |
| PatchAgreement.ReplaceAgrees | include/masstransit_cpp/utils/json.hpp:13919-13924 | replace agrees exactly when the pointer is not misread in this sense |
| PatchAgreement.RemoveAgrees | include/masstransit_cpp/utils/json.hpp:13831-13856 | remove agrees exactly when both find the parent, it is an object or array, and std::stoi finds the child exactly when the standard does; or when only one of both finds a parent, and no child in it |
| PatchAgreement.AddAgrees | include/masstransit_cpp/utils/json.hpp:13767-13828 | add agrees exactly when operator[] and the standard find the parent, it is an object or array, and it has a place for the last token in both readings or in neither; or when only one of both gets to a parent, and has no place in it |
| PatchAgreement.AssignAgrees | include/masstransit_cpp/utils/json.hpp:13943-13951 | The assignment of a copy agrees with the add of RFC 6902 exactly when it sets a member, appends one element, replaces the whole document or fails too; it disagrees where it overwrites an element, fills an array up with nulls, makes a container of null or creates what is missing above its target |
| PatchAgreement.CopyAgrees | include/masstransit_cpp/utils/json.hpp:13943-13951 | copy agrees exactly when its assignment does; or when only one of both finds the value, and cannot put it there |
| PatchAgreement.MoveAgrees | include/masstransit_cpp/utils/json.hpp:13926-13941 | move agrees exactly when both take the value away and the add to what is left agrees, or fails where the value would be moved below itself; or when only one of both takes it away, and cannot add it |
| PatchAgreement.TestAgrees | include/masstransit_cpp/utils/json.hpp:13953-13975 | test agrees exactly unless operator== takes the value for equal although numbers in it clash; or when only one of both finds a value, and to that the given one is not equal |
| NumericEquality.EqualUnlessClash | include/masstransit_cpp/utils/json.hpp:12352-12425 | operator== of two values is equality in the sense of section 4.6 of RFC 6902, numbers by their exact value, but for numbers that clash: a signed and an unsigned one with the same 64 bits, or an integer and the different double it is rounded to |
| NumericEquality.IntegerCompared | include/masstransit_cpp/utils/json.hpp:12399-12414 | An integer of 64 bits is worth a double exactly when the cast to double gives that double and the integer has at most 53 significant bits |
| NumericEquality.FloatsCompared | include/masstransit_cpp/utils/json.hpp:12389-12392 | Two doubles are worth the same exactly when they compare equal, for all bit patterns |
| PatchAgreement.CopyOverwrites | include/masstransit_cpp/utils/json.hpp:13943-13951 | [true, false] with a copy of /0 to /1 becomes [true, true], where RFC 6902 has [true, true, false] |
| PatchAgreement.AddBelowNumber | include/masstransit_cpp/utils/json.hpp:13821-13825 | {"a": 5} with an add of /a/b succeeds and stays as it is, where RFC 6902 has an error |
| PatchAgreement.LeadingZeroRemoves | include/masstransit_cpp/utils/json.hpp:13854-13854 | [null, null] with a remove of /01 becomes [null], where RFC 6902 has an error |
| PatchAgreement.StrayIndexReplaces | include/masstransit_cpp/utils/json.hpp:14341-14369 | A replace of /1x in [null, null] replaces the second element, where RFC 6902 has an error |
| PatchAgreement.SignIsLost | include/masstransit_cpp/utils/json.hpp:12415-12422 | A test of 18446744073709551615 for -1 succeeds |
| PatchAgreement.RoundedIsEqual | include/masstransit_cpp/utils/json.hpp:12407-12414 | A test of 9007199254740993 for the double 9007199254740992 succeeds |
| JsonPatch.ReadInvertsWrite | include/masstransit_cpp/utils/json.hpp:13867-13903 | Every operation written as a JSON object is read back as that operation |
| JsonPatch.ApplyUnderAll | include/masstransit_cpp/utils/json.hpp:13766-13856 | Changes below a token act on that child alone and leave the rest of the document as it is |
| JsonDiff.DiffDocument | include/masstransit_cpp/utils/json.hpp:14020-14150 | The loops over elements and members give the specified list of operations at a path |
| DiffContents.DiffValues | include/masstransit_cpp/utils/json.hpp:14020-14150 | What is in the diff of two values, for all of them: an operation is in it exactly when it is wanted. That is a replace of a place that both values have, where they differ and are not both arrays or both objects, by the target's value; a remove of a member or surplus element of the source that the target lacks; and an add of one that the source lacks, with the target's value. No two operations have the same path, and nothing else is in the list |
| DiffContents.DiffIsExact | include/masstransit_cpp/utils/json.hpp:14020-14150 | The same for the specified list, operation by operation |
| DiffContents.DiffPathsDiffer | include/masstransit_cpp/utils/json.hpp:14020-14150 | All of its entries are readable operations, with pairwise different paths |
| JsonDiff.DiffElements | include/masstransit_cpp/utils/json.hpp:14049-14057 | The loop over the common elements, with its recursion |
| JsonDiff.DiffSurplus | include/masstransit_cpp/utils/json.hpp:14059-14074 | Surplus elements are removed from the end on |
| JsonDiff.DiffMembers | include/masstransit_cpp/utils/json.hpp:14093-14114 | The loop over the source's members: a difference, or a removal, under the escaped key |
| JsonDiff.ChangesProper | include/masstransit_cpp/utils/json.hpp:14020-14035 | The diff is empty exactly for equal values |
| JsonDiff.PatchOfDiff | include/masstransit_cpp/utils/json.hpp:13994-13998 | Every operation that diff emits applies without error exactly when the values fit, and the result is the merge of both |
| JsonDiff.PatchInvertsDiff | include/masstransit_cpp/utils/json.hpp:13994-13998 | source.patch(diff(source, target)) == target exactly when the target is free of NaN and no differing or surplus array position lies beyond INT_MAX |
| JsonDiff.SmallArraysFit | include/masstransit_cpp/utils/json.hpp:13994-13998 | For arrays of at most 2^31 elements that holds for all pairs of values |
| JsonDiff.LongArraysAreLost | include/masstransit_cpp/utils/json.hpp:13994-13998 | Arrays of INT_MAX + 1 and INT_MAX + 2 nulls are an input on which the promise fails |
| JsonFlatten.FlattenInto | include/masstransit_cpp/utils/json.hpp:14502-14552 | The recursion with its two loops stores each leaf under its pointer |
| JsonFlatten.UnflattenDocument | include/masstransit_cpp/utils/json.hpp:14554-14583 | The loop in key order, with both type errors and those of get_and_create |
| FlatPlaces.StoresUnlessBlocked | include/masstransit_cpp/utils/json.hpp:14175-14239 | Storing a value at a pointer fails exactly when at some value on the way nothing is created: below a string, number or boolean, or in an array at a token that std::stoi cannot read or that is beyond INT_MAX and the array |
| FlatPlaces.StoredIsFound | include/masstransit_cpp/utils/json.hpp:14579-14579 | What is stored is found at its pointer |
| FlatPlaces.OthersStay | include/masstransit_cpp/utils/json.hpp:14175-14239 | And everything at pointers that part from it stays as it was; nothing else comes but the nulls that fill an array |
| JsonFlatten.FlattenIsFlat | include/masstransit_cpp/utils/json.hpp:14502-14552 | The flattened object holds exactly the leaves, each under the text of its path; empty containers are null |
| JsonFlatten.Rebuild | include/masstransit_cpp/utils/json.hpp:14175-14239 | Storing the leaves in the order of their pointers rebuilds the value, although index 10 comes before index 2, exactly for restorable values |
| JsonFlatten.UnflattenInvertsFlatten | include/masstransit_cpp/utils/json.hpp:13650-13653 | j.flatten().unflatten() == j exactly for NaN-free values without empty containers, arrays of more than 2^31 elements, and objects whose first pointer goes below a key "0"; for those the result is identical |
| JsonFlatten.PlainIsRestorable | include/masstransit_cpp/utils/json.hpp:13650-13653 | Values with no empty container and no key "0" are among them |
| JsonFlatten.ZeroKeyIsLost | include/masstransit_cpp/utils/json.hpp:14186-14196 | An object with the single key "0" and a primitive member does not come back |
| Json.EqReflexive | include/masstransit_cpp/utils/json.hpp:12352-12425 | A value equals itself exactly when it holds no NaN |
| BinaryHeads.ValueOfBytes | include/masstransit_cpp/utils/json.hpp:6316-6330 | The big-endian bytes of a number denote that number |
| BinaryIo.ReverseLittleEndian | include/masstransit_cpp/utils/json.hpp:6322-6326 | Reversing the bytes of a little-endian host gives the big-endian ones |
| BinaryIo.BinaryWriter.WriteNumber | include/masstransit_cpp/utils/json.hpp:6316-6330 | The bytes written are the big-endian ones on either host |
| BinaryIo.BinaryReader.GetNumber | include/masstransit_cpp/utils/json.hpp:5545-5575 | The number read is that of the big-endian bytes on either host, or the end of the input is reported |
| BinaryHeads.CborHeadRead | include/masstransit_cpp/utils/json.hpp:5820-6060 | For every null, boolean, integer, double and length of a string, array or object: the CBOR head that write_cbor chooses is read back as that head, and nothing more is consumed (section 2.1 of RFC 7049) |
| BinaryHeads.MsgPackHeadRead | include/masstransit_cpp/utils/json.hpp:6065-6303 | The same for MessagePack, over fixint, 8 to 64 bits and the fix, 8, 16 and 32 bit lengths, for lengths below 2^32 |
| BinaryForms.ReadsEncodings | include/masstransit_cpp/utils/json.hpp:4689-5501 | For every input: a head is read exactly where one of its encodings stands, as RFC 7049 and the MessagePack specification list them, in any width that holds the number; and exactly that is consumed |
| BinaryForms.WritesShortest | include/masstransit_cpp/utils/json.hpp:5820-6303 | What is written for a head is one of these encodings, and none of them is shorter |
| ItemGrammar.ReadsItems | include/masstransit_cpp/utils/json.hpp:4689-5501 | For every input and both formats: a value is read exactly where one of its encodings stands, a head and its bytes, elements, or keys with their values, nested to any depth; a later member replaces one of the same key |
| ItemGrammar.WritesItems | include/masstransit_cpp/utils/json.hpp:5820-6303 | What is written for a value is the shortest encoding of it with the members in the order of their keys |
| BinaryIo.BinaryWriter.WriteCborHead | include/masstransit_cpp/utils/json.hpp:5820-5960 | The branches of write_cbor write the specified head |
| BinaryIo.BinaryWriter.WriteMsgPackHead | include/masstransit_cpp/utils/json.hpp:6065-6265 | The branches of write_msgpack write the specified head |
| BinaryIo.BinaryWriter.WriteItem | include/masstransit_cpp/utils/json.hpp:5820-6060 | What is written for a value is its specified encoding, appended to the output |
| BinaryIo.BinaryReader.CborHeadHere | include/masstransit_cpp/utils/json.hpp:4689-5089 | The switch of parse_cbor_internal over the initial byte reads the specified head |
| BinaryIo.BinaryReader.MsgPackHeadHere | include/masstransit_cpp/utils/json.hpp:5099-5501 | The switch of parse_msgpack_internal over the initial byte reads the specified head |
| BinaryIo.BinaryReader.GetString | include/masstransit_cpp/utils/json.hpp:5584-5594 | Reads exactly so many bytes, or reports the end of the input |
| BinaryIo.BinaryReader.GetKey | include/masstransit_cpp/utils/json.hpp:5608-5771 | A key has to be a text; every other initial byte is an error |
| BinaryIo.BinaryReader.Parse | include/masstransit_cpp/utils/json.hpp:4689-5089 | The value and the position after reading an item are the specified ones, errors included, for every input |
| BinaryItems.NormEqual | include/masstransit_cpp/utils/json.hpp:12352-12425 | The value that comes back (non-negative signed numbers become unsigned) equals the written one exactly when there is no NaN |
| BinaryItems.RoundTrip | include/masstransit_cpp/utils/json.hpp:4660-4690 | For both formats: the value read equals the one written, and exactly the written bytes are consumed whatever follows, exactly for NaN-free values whose lengths the format can write |
| BinaryItems.CborRoundTrip | include/masstransit_cpp/utils/json.hpp:5820-6060 | For CBOR: every NaN-free value whose sizes fit a std::size_t, and no other |
| BinaryItems.MsgPackRoundTrip | include/masstransit_cpp/utils/json.hpp:6065-6303 | For MessagePack: every NaN-free value whose strings, arrays and objects have fewer than 2^32 elements, and no other |
| BinaryItems.ReadSized | include/masstransit_cpp/utils/json.hpp:4689-5501 | No input yields a value whose sizes the format could not have written |
| Utf8.CharIsEncoded | include/masstransit_cpp/utils/json.hpp:1916-2431 | A byte sequence that the scanner accepts as one character is the UTF-8 encoding of a scalar value (section 4 of RFC 3629) |
| Utf8.EncodedIsChar | include/masstransit_cpp/utils/json.hpp:2050-2076 | And the encoding of every scalar value is such a sequence |
| JsonString.ComputeExtraSpace | include/masstransit_cpp/utils/json.hpp:6598-6690 | The loop computes the extra space of the string |
| JsonString.EscapedLength | include/masstransit_cpp/utils/json.hpp:6598-6690 | The escaped text is longer by exactly extra_space, so the assertion behind the loop holds |
| JsonString.EscapeCodepoint | include/masstransit_cpp/utils/json.hpp:6692-6741 | Writes \\uxxxx or a surrogate pair into the buffer and leaves the backslashes behind it |
| JsonString.DumpEscaped | include/masstransit_cpp/utils/json.hpp:6756-6900 | The buffer is filled exactly, with the escape of the string; a string without escapes is written as it is |
| JsonScan.WellFormedIsComplete | include/masstransit_cpp/utils/json.hpp:6844-6882 | For well-formed UTF-8 none of the serializer's assertions can fail, in both modes |
| JsonScan.Surrogates | include/masstransit_cpp/utils/json.hpp:2010-2022 | The surrogate pair of a code point is in range and denotes it again (section 7 of RFC 7159) |
| JsonScan.ScanInvertsEscape | include/masstransit_cpp/utils/json.hpp:1916-2431 | scan_string gives back every well-formed string that dump_escaped wrote, with and without ensure_ascii, and stops behind the quote |
| JsonScan.ScannedIsWellFormed | include/masstransit_cpp/utils/json.hpp:1916-2431 | Whatever scan_string accepts is well-formed UTF-8, so no other string comes back |
| StringGrammar.StringScanned | include/masstransit_cpp/utils/json.hpp:1916-2431 | Every string of section 7 of RFC 7159, in plain characters, short escapes, four digits of either case and surrogate pairs, is scanned up to its closing quotation mark, to the UTF-8 of the code points it stands for |
| StringGrammar.ScannedIsString | include/masstransit_cpp/utils/json.hpp:1916-2431 | And nothing else is scanned |
| StringGrammar.StringWritten | include/masstransit_cpp/utils/json.hpp:6756-6900 | Every well-formed string is written with these escapes and no others: the short ones where there are any, but for the solidus; four lower-case digits for the other control characters and, with ensure_ascii, for everything from DEL on, in pairs above the basic plane; the rest as it is |
| JsonNumber.ProduceDigits | include/masstransit_cpp/utils/json.hpp:6916-6948 | At most 20 digits are produced, down to INT64_MIN, and reversed they are the decimal numeral |
| JsonNumber.DumpInteger | include/masstransit_cpp/utils/json.hpp:6916-6948 | The text of every 64-bit integer, signed or unsigned |
| JsonNumber.IntegerScanned | include/masstransit_cpp/utils/json.hpp:2499-2834 | scan_number reads such a text back, and gives back the character behind it |
| JsonNumber.DigitsAreUnsigned | include/masstransit_cpp/utils/json.hpp:2499-2834 | A number token that is not a float consists of digits, with at most a minus sign |
| NumberGrammar.ScansNumerals | include/masstransit_cpp/utils/json.hpp:2499-2834 | For every input: a number is scanned exactly where a numeral of section 6 of RFC 7159 stands, a minus sign or none, 0 or digits without a leading zero, a fraction and an exponent or none, and nothing follows that would have to belong to it |
| NumberGrammar.NumeralScanned | include/masstransit_cpp/utils/json.hpp:2499-2834 | The text scanned is that numeral, and it is a float exactly when it has a fraction or an exponent, else signed exactly when it has a minus sign |
| NumberGrammar.ScannedIsNumeral | include/masstransit_cpp/utils/json.hpp:2499-2834 | And whatever is scanned is such a numeral |
| JsonLex.Lexer.GetCodepoint | include/masstransit_cpp/utils/json.hpp:1653-1900 | Four hexadecimal digits, or an error |
| JsonLex.Lexer.ScanStringHere | include/masstransit_cpp/utils/json.hpp:1916-2431 | The loop with its switch yields the specified string token, for every input |
| JsonLex.Lexer.ScanNumberHere | include/masstransit_cpp/utils/json.hpp:2499-2834 | The automaton with its unget yields the specified number token and leaves the rest of the input, for every input; which inputs are numbers is stated by NumberGrammar.ScansNumerals |
| JsonLex.Lexer.ScanLiteralHere | include/masstransit_cpp/utils/json.hpp:2841-2854 | A literal is matched character by character |
| JsonLex.Lexer.ScanToken | include/masstransit_cpp/utils/json.hpp:2972-3035 | Blanks are skipped and the next token is the specified one |
| TokenGrammar.ScansTokens | include/masstransit_cpp/utils/json.hpp:2972-3035 | For every input: a token is found exactly where one of its spellings stands behind blanks (space, tab, line feed, carriage return); integers that fit their 64 bits keep their value, every other number is the float that strtod makes of its text |
| TokenGrammar.SpelledLexes | include/masstransit_cpp/utils/json.hpp:2972-3035 | The lexer finds the tokens that a text spells, whatever is behind them |
| TokenGrammar.LexedSpells | include/masstransit_cpp/utils/json.hpp:2972-3035 | And every text spells the tokens that the lexer finds in it |
| JsonDump.IndentationFits | include/masstransit_cpp/utils/json.hpp:6383-6571 | Every write of indentation stays inside indent_string, exactly unless the root is a non-empty object and the step is above 1024 |
| JsonDump.Serializer.MakeRoom | include/masstransit_cpp/utils/json.hpp:6403-6407 | Objects double the buffer, arrays grow it to what they need |
| JsonDump.Serializer.Dump | include/masstransit_cpp/utils/json.hpp:6383-6571 | Appends the specified text at any indentation; the size of indent_string evolves as specified. Which text that is, is stated by JsonLayout.TextIsLaidOut |
| JsonLayout.DumpValue | include/masstransit_cpp/utils/json.hpp:9117-9133 | The text of dump is the layout of the value's tokens: in compact form nothing stands between them; in pretty form a line break and the indentation stand behind each opening bracket and comma and before each closing bracket of a container that is not empty, a blank behind each colon, and nothing anywhere else; the indentation is the step times the number of brackets that are open (modulo 2^32), in the chosen character up to column 512 and in spaces from there |
| JsonLayout.TextIsLaidOut | include/masstransit_cpp/utils/json.hpp:6383-6571 | The same for the specified text of every value that can be escaped, in every style |
| JsonParse.ValuesAgree | include/masstransit_cpp/utils/json.hpp:3408-3509 | For every token stream, the acceptor says yes exactly where the parser finds a value, at the same place, or an overflowing float before it |
| JsonParse.AcceptIsParse | include/masstransit_cpp/utils/json.hpp:3149-3163 | accept is true exactly when parse does not throw, apart from overflowing floats in the value |
| ValueGrammar.ParsesTrees | include/masstransit_cpp/utils/json.hpp:3172-3395 | For every token stream: a value is parsed exactly from the tokens of the trees that mean it and have no float out of range, elements and members between brackets with commas between them; of two members of one name the later counts |
| ValueGrammar.AcceptsTrees | include/masstransit_cpp/utils/json.hpp:3408-3509 | And accepted exactly from the tokens of a tree, whatever its floats |
| JsonParser.Parser.GetToken | include/masstransit_cpp/utils/json.hpp:3511-3515 | The parser's last token is the lexer's next one |
| JsonParser.Parser.ParseInternal | include/masstransit_cpp/utils/json.hpp:3172-3395 | The recursive descent over the lexer's tokens gives the specified value or error |
| JsonParser.Parser.ParseObject | include/masstransit_cpp/utils/json.hpp:3206-3263 | The loop over the members; a repeated key keeps its last value |
| JsonParser.Parser.AcceptInternal | include/masstransit_cpp/utils/json.hpp:3408-3509 | The separately written recursion gives the specified answer |
| JsonParser.ParseText | include/masstransit_cpp/utils/json.hpp:12885-12891 | parse of a text, for every text: it returns v exactly when the text means v, as JSON text of RFC 7159 (numbers, strings, blanks, values), and throws on every other text; strict or not about what follows the value |
| JsonParser.AcceptText | include/masstransit_cpp/utils/json.hpp:12904-12907 | accept of a text is true exactly when the text spells a value in the grammar of RFC 7159, which is whenever parse does not throw, and only then unless a float overflows |
| TextGrammar.ParsesTexts | include/masstransit_cpp/utils/json.hpp:12885-12891 | The tokens of a text parse to v exactly when the text means v |
| TextGrammar.AcceptsTexts | include/masstransit_cpp/utils/json.hpp:12904-12907 | And are accepted exactly when it spells a value |
| JsonText.TextLexes | include/masstransit_cpp/utils/json.hpp:6383-6571 | However a value is indented, its text lexes to its tokens, with anything behind it that does not continue a number |
| JsonText.TokensParse | include/masstransit_cpp/utils/json.hpp:3172-3395 | The tokens of a value parse to it, whatever follows |
| JsonText.TextRoundTrip | include/masstransit_cpp/utils/json.hpp:3119-3395 | The text of a float-free value parses to an equal value exactly when its strings are well-formed UTF-8: compact or pretty, any step, any blank indent character, both ensure_ascii modes, with or without the check of what follows |
| JsonText.ParseDumped | include/masstransit_cpp/utils/json.hpp:9117-9133 | parse(dump(j)) == j, the serializer and the parser run one after the other: exactly when the strings are well-formed, whenever dump stays inside its buffers |
| TasksQueue.TaskQueue.Enqueue | include/masstransit_cpp/threads/tasks_queue.hpp:22-40 | A stopped queue refuses and does not change; otherwise the new element is last |
| TasksQueue.TaskQueue.GetTask | src/threads/tasks_queue.cpp:7-19 | The first element, also after stop; the end only when stopped and empty |
| TasksQueue.TaskQueue.Drain | src/threads/queue_worker.cpp:7-16 | The worker's loop over a stopped queue runs all that is left, in order |
| TasksQueue.JoinedHasRunAll | src/threads/queue_worker.cpp:7-26 | Any number of worker threads, any schedule: when all threads have ended, everything accepted has run exactly once, in order with one thread |
| TasksQueue.StartedInOrder | src/threads/tasks_queue.cpp:7-19 | In every schedule what has been started is a prefix of what was accepted; one thread also finishes in that order |
| TasksQueue.NothingAfterStop | include/masstransit_cpp/threads/tasks_queue.hpp:32-36 | Nothing is accepted after stop |
| TasksQueue.StoppedQueueGoesOn | src/threads/worker_thread.cpp:12-15 | After stop the join cannot deadlock: some thread can always go on |
| TasksQueue.StoppedQueueDrains | src/threads/thread_pool.cpp:13-16 | And every schedule after stop ends after a fixed number of thread steps, in the joined state |
| WorkerPool.Worker.Enqueue | include/masstransit_cpp/threads/worker.hpp:32-38 | Refused on a stopped and on a busy worker, otherwise the slot is filled |
| WorkerPool.Worker.Take | src/threads/worker.cpp:15-24 | The slot is swapped out and reset |
| WorkerPool.WorkerPool.GetFreeWorker | src/threads/worker_pool.cpp:35-48 | The worker returned last, else a new one below the limit, else the caller has to wait and nothing changes |
| WorkerPool.WorkerPool.ReturnWorker | src/threads/worker_pool.cpp:50-59 | The worker leaves the busy list and becomes the last free one |
| WorkerPool.TryConsume | src/rabbit_mq/receive_endpoint.cpp:33-64 | With no free worker below the limit the call has to wait and nothing changes; without a message the worker goes back to the pool, with one it gets it; a new worker never refuses, and an idle one refuses only if it is stopped or busy |
| WorkerPool.PoolIsSafe | src/threads/worker_pool.cpp:35-74 | In every schedule of any number of callers: free and busy workers are disjoint and listed once, at most max_size in all; every worker with a full slot or at work is busy; a worker that is given out is at rest and given to one caller only |
| WorkerPool.EnqueueAccepted | include/masstransit_cpp/threads/worker.hpp:34-37 | A caller that holds a worker can always enqueue: neither exception can occur |
| WorkerPool.WaitingIsNotDeadlock | src/threads/worker_pool.cpp:44-45 | While a single caller waits some worker thread can take a step |
| WorkerPool.GetFreeWorkerReturns | src/threads/worker_pool.cpp:35-48 | With one caller, a limit of at least 1 and no lost worker, the wait ends after a bounded number of worker steps, whatever their order |
| InMemoryBus.Bus.Start | src/in_memory/in_memory_bus.cpp:17-26 | A new publish queue, and one more endpoint for each factory, each with an empty queue of its own; endpoints of an earlier start stay |
| InMemoryBus.Bus.Publish | src/in_memory/in_memory_bus.cpp:41-62 | The message is queued behind the others for the publish worker |
| InMemoryBus.Bus.FanOut | src/in_memory/in_memory_bus.cpp:43-60 | Every endpoint gets the message once; on a stopped one, exactly those before it have it |
| InMemoryBus.ReceiveEndpoint.Deliver | src/in_memory/receive_endpoint.cpp:16-21 | The message is queued behind the others of this endpoint |
| InMemoryBus.BusIsOrdered | src/in_memory/in_memory_bus.cpp:41-62 | In every schedule up to stop: handled, in hand, queued and still coming messages of each endpoint are the accepted publications, in that order |
| InMemoryBus.SameOrderEverywhere | src/in_memory/in_memory_bus.cpp:46-47 | The histories of any two endpoints are prefixes of one order |
| InMemoryBus.QuietBusHasDelivered | src/threads/queue_worker.cpp:7-16 | When nothing but a publication can happen, every endpoint has handled every accepted message |
| InMemoryBus.BusComesToRest | src/threads/queue_worker.cpp:7-16 | From every state in order, every schedule without further publications is finite: two steps for each queued publication and three for each endpoint it has still to reach, and those that delivered messages have left. Before that many some thread can go on, and after them every endpoint has handled every accepted message |
| AmqpTable.BuildTable | src/rabbit_mq/amqp_table.cpp:172-195 | The loop over the map builds the specified wire tree in pool storage, or throws bad_alloc |
| AmqpTable.Rebuild | src/rabbit_mq/amqp_table.cpp:199-207 | The loop over the entries emplaces, so existing keys stay. For every key the result holds what the first entry of that key denotes: the number of timestamps and 64-bit integers, the content of texts and byte fields, the type and bits of the other scalars, for tables the map of their own first entries, and Void for void, decimals, arrays and unknown kinds alone; it holds no other keys |
| AmqpTable.WireMeans | src/rabbit_mq/amqp_table.cpp:199-239 | The same for every wire table, of the specified map |
| AmqpTable.WrittenMeans | src/rabbit_mq/amqp_table.cpp:128-195 | And what is written for a value denotes it |
| AmqpTable.CopyTable | src/rabbit_mq/amqp_table.cpp:252-273 | The loop over the entries copies keys and values into new blocks, as specified |
| AmqpTable.CopyArray | src/rabbit_mq/amqp_table.cpp:285-291 | The loop over the elements of an array field |
| AmqpTable.CopyValue | src/rabbit_mq/amqp_table.cpp:275-299 | Texts, arrays and tables are copied deeply, other values as they are |
| AmqpTable.ToAmqpOk | src/rabbit_mq/amqp_table.cpp:162-195 | bad_alloc is thrown exactly for an empty key or an empty nested table |
| AmqpTable.TableRoundTrip | src/rabbit_mq/amqp_table.cpp:162-239 | amqp_table(t.to_amqp(pool)) is the identical table, bit for bit in its floats, exactly for tables with no empty key, no empty nested table and at most INT_MAX entries each (section 4.2.5.5 of AMQP 0-9-1) |
| AmqpTable.FirstKept | src/rabbit_mq/amqp_table.cpp:201-206 | Rebuilding from entries with equal keys keeps the first one |
| AmqpTable.CopyFieldCopies | src/rabbit_mq/amqp_table.cpp:275-299 | A copy differs from its original in nothing but the addresses |
| AmqpTable.CopyFieldFresh | src/rabbit_mq/amqp_table.cpp:275-299 | All blocks of a copy are new ones, each used once |
| AmqpTable.ToFieldFresh | src/rabbit_mq/amqp_table.cpp:128-195 | So are those of a tree that was built from a map |
| AmqpTable.CopyIsFaithful | src/rabbit_mq/amqp_table.cpp:241-250 | A copy of a whole table denotes the same map as the original |

## Left out

- AmqpChannel.AmqpChannelImpl.Serve: on streams of content frames, replies and a final connection.close; the broker's own basic.cancel and channel.close are branches of the methods with their effect on the table, but a stream that holds them is not called well-formed, because the frames left behind are purged nowhere.
- AmqpChannel.AmqpChannelImpl.ConsumeMessage: the calls for several tags and for all consumers pass a longer list of channels to the same method.
- AmqpChannel.AmqpChannelImpl.GetNextFrameFromBroker: sockets and clocks are a nondeterministic "no frame now", and a socket error is the end of the stream.
- AmqpChannel.AmqpChannelImpl.ReadBody: a body frame longer than announced would be written past the buffer; here it is an outcome of its own, shown to be unreachable on well-formed streams.
- AmqpChannel.AmqpChannelImpl.DoRpcOnChannel: what is sent is a channel and a method number; arguments, and errors of sending, are not modelled.
- AmqpChannel.AmqpChannelImpl.RequestOnChannel: the broker answers at the first place it can; a channel.close in place of the answer is a branch of GetMethodOnChannel and a step of the channel table.
- AmqpChannel.AmqpChannelImpl.Consume: the tag in the broker's answer is a parameter; the arguments of both requests are not modelled.
- AmqpChannel.AmqpChannelImpl.CancelConsumer: frames of the channel that are still queued stay there, as in the source.
- ChannelTable.ConsumersKeepDistinctChannels: channels that are used again after a cancel are only considered as numbers, not as streams.
- basic.get, publish and its returned messages, the declare, bind, delete and purge requests, login, SSL and buffer release in amqp_channel.cpp.
- JsonText.TextRoundTrip: the text of floats (dump_float, strtof) is a parameter of the model and floats are excluded here; an indent character that is not blank is excluded too.
- JsonLayout.DumpValue: requires strings for which the serializer's own assertions hold, and excludes the overrun named above.
- JsonParse.AcceptIsParse: parser callbacks are not modelled.
- JsonLex.Lexer.ScanNumberHere: strtoull and strtoll are the value of the digits; locales and the growth of yytext are not modelled.
- JsonParser.ParseText: the input adapters are a text; the BOM and streams are not modelled.
- BinaryIo.BinaryReader.Parse: indefinite-length CBOR items and half and single precision floats are one error of the model; the readers of both formats share one recursion over their heads.
- BinaryItems.CborRoundTrip: 64-bit floats are bit patterns, copied as they are.
- JsonPatch.PatchDocument: error messages are not modelled, only which error it is. The assertion of the add below a string, number or boolean is that of a release build, which does not check it. In a copy the right side of the assignment is evaluated first, as C++17 has it, which the build asks for (`CMakeLists.txt:135`); in a test either side of == may come first, which can only decide between two errors.
- JsonString.DumpEscaped: strings on which the source's own assertions fail in ensure_ascii mode are excluded.
- JsonDump.Serializer.Dump: excludes such strings and the overrun named above.
- BinaryIo.BinaryReader.CborHeadHere: indefinite lengths and half and single precision floats are one error of the model.
- BinaryIo.BinaryReader.MsgPackHeadHere: single precision floats are one error of the model.
- BinaryIo.BinaryReader.GetKey: keys of indefinite length are one error of the model.
- Iterators, templates, exception classes and the ordering operators of json.hpp.
- WorkerPool.TryConsume: that a call has to wait is one of its results; the waiting itself is part of the transition system. Reading the message and its JSON is one choice, and an exception on the way is the step that loses the worker.
- WorkerPool.PoolIsSafe: up to the destruction of the pool; a worker after stop may drop its last task and is left out.
- InMemoryBus.BusIsOrdered: from the end of start up to stop, so no queue refuses; the branch that refuses is part of Bus.FanOut.
- Steps are sequentially consistent; unlocked flags and spurious wake-ups are not modelled, and the exceptions of user code stay inside the futures.
- thread_pool and worker_thread as objects: their threads are those of the transition system.
- AmqpTable.CopyTable: wire trees are values with block numbers, so writing through an alias is not modelled; that an allocation of no bytes gives null is a property of rabbitmq-c, which is not part of this model.
- AmqpTable.TableRoundTrip: integers carry the width of their type by construction.
- Configurators, bus_factory, exchange_manager, host_info, dates and the setters of amqp_message: one branch each.
