# Verification of the speech SDK's core

A Dafny model of three parts of the SDK, with proofs about every input, run or interleaving.
`dafny verify dfyconfig.toml` checks all of it.

**The nanopb codec.** `Descriptors` has the descriptor tables and message structs. `EncodeSpec` and `DecodeSpec` say
what encoding and decoding mean for bytes, including every error; `Encoder`, `Decoder`, `OutputStream`, `InputStream`
and `FieldIterator` are the imperative code (streams with positions, loops, the two-pass submessage encoder, the
cyclic iterator, the bitmap) proved equal to them. `Wire`, `Merge`, `RoundTrip`, `Concatenation`, `UnknownFields`,
`PackedFields` and `RequiredBits` prove what the format promises, and `WireFormat` reads what is written with a grammar
that shares nothing with the codec. `NanoPB` has the message objects of the SDK.

**Requests and results.** `StreamQueues` is the flat list with its tag queue and map of iterators, proved to be an
ordered collection of FIFOs (`StreamSpec`), whose output over all runs is a language of blocks. `OpControl` is the
operation list. `Results` states how the response queue and the operation list stay in step. `TtsSystem` and
`SpeechSystem` are transition systems whose steps are the regions that run under the locks; their theorems quantify
over all sequences of steps, that is, all interleavings of user calls and the two threads. `Accounts`, `TtsDelivery`
and `SpeechDelivery` state what is owed to the caller from the events alone, and that it is what `poll` returns.
`VoiceDelivery` follows the voice data from the queue through the sender to the server. `TtsImpls` and `SpeechImpls`
are the classes, each locked region proved to be such a step.

**Audio re-framing.** `OpusFraming` and `VoiceFragments` prove that buffering loops with a carried remainder, and the
cutting of voices, neither lose nor reorder anything, however the caller cuts the input.

Facts of the code that the model keeps, where documentation or expectation could differ: a static scalar is decoded
without looking at its wire type; a zero tag word ends a message and leaves the rest unread; a callback string field
that is sent empty leaves an earlier string in place; `uint_fast8_t` counts modulo 256 in the 32-bit varint loop;
`end` completes even a deleted or failed stream; `erase` keeps 16 bits of the error; `clear` keeps which stream is
polled; a cancelled speech request can get a second operation (`OncePerRequest.TwoResultsForOneRequest`), so one
result per request holds for TTS and, for speech, per operation; `OncePerRequest` says exactly when it holds per
request too. `end_voice` after `cancel` undoes the cancellation of a voice that still waits
(`SpeechDelivery.EndUndoesCancel`).

Assumptions: one session from prepare to release; condition variables wake only when notified, and wait once; ids of
new requests were never used before; `pb_size_t` is one byte and static arrays hold fewer than 256 elements; descriptor
lists are not empty, have distinct tags below 2^29 and no extensions; lengths in messages to be read back stay below
2^32; the codec behind the audio encoder is a deterministic function of the frames it was given.

## Model

| member | source | states |
|---|---|---|
| `Wire.VarintRoundTrip64` | nanopb/pb_decode.c:250-271 | The 64-bit loop reads back every 64-bit value from its encoding and stops right behind it, whatever follows |
| `Wire.EncVarintShortest` | nanopb/pb_encode.c:577-597 | A varint has at most 10 bytes, and no byte string the decoder accepts for the same value is shorter |
| `Wire.VarintRoundTrip32` | nanopb/pb_decode.c:182-242 | The 32-bit loop reads back every 32-bit value |
| `Wire.VarintNegative32` | nanopb/pb_decode.c:182-242 | The 32-bit loop gives the low word of every sign-extended negative 32-bit value |
| `Wire.VarintReadersAgree` | nanopb/pb_decode.c:182-271 | On any input both loops accept within 10 bytes they stop at the same place and agree modulo 2^32 |
| `Wire.ZigZagRoundTrip` | nanopb/pb_decode.c:1245-1257 | The C expressions for zigzag and its inverse undo each other on all 64-bit integers |
| `Wire.FixedRoundTrip` | nanopb/pb_decode.c:1259-1292 | Little-endian fixed-width values read back, whatever follows |
| `OutputStream.OStream.Write` | nanopb/pb_encode.c:101-122 | Writing succeeds iff it fits; then exactly those bytes are in the window, and nothing outside the window changes |
| `OutputStream.OStream.BufWrite` | nanopb/pb_encode.c:72-82 | The byte-by-byte copy puts exactly the bytes at the write position and changes nothing else |
| `Encoder.EncodeVarint` | nanopb/pb_encode.c:577-597 | The group loop in its ten-byte buffer writes the varint of any 64-bit value |
| `Encoder.EncodeArray` | nanopb/pb_encode.c:126-208 | Counted arrays: nothing for none, refused when over the declared size, packed for numbers with the length found first, one record each otherwise |
| `Encoder.EncodeBasicField` | nanopb/pb_encode.c:310-395 | Required fields always, optional ones by their has-flag, arrays by their count |
| `Encoder.EncodeSubmessage` | nanopb/pb_encode.c:685-733 | Two passes: the length found by counting is the length written at every level, so the final size comparison never fails, and the substream stays in its window |
| `Encoder.EncodeMessage` | nanopb/pb_encode.c:497-519 | The iterator loop succeeds iff the message has an encoding and it fits, and writes exactly it |
| `WireFormat.EncodingSays` | nanopb/pb_encode.c:497-733 | Read by a grammar of its own (varint key 8 * tag + wire type 0, 1, 2 or 5 and the payload), an encoding is the records of the fields in descriptor order with their tags, wire types, two's complement, zigzag or little-endian numbers, strings, packed arrays and submessages |
| `WireFormat.EncodesExactlyWhen` | nanopb/pb_encode.c:126-208 | A message has an encoding iff no array is over its declared size and every varint field has 1, 2, 4 or 8 bytes, at every depth |
| `Encoder.GetEncodedSize` | nanopb/pb_encode.c:536-546 | The counting stream gives the exact length of the encoding, and fails iff there is none |
| `FieldIterator.FieldIter.Next` | nanopb/pb_common.c:20-76 | Data position, size position and required-field index are functions of the position alone, also after wrapping round |
| `FieldIterator.FieldIter.Find` | nanopb/pb_common.c:78-95 | One lap at most; true iff a field answers to the tag, at the first such field in cyclic order; otherwise the iterator is where it was |
| `FieldIterator.FieldsDisjoint` | nanopb/pb_common.c:20-76 | Outside unions the places computed for two fields never overlap |
| `InputStream.IStream.Read` | nanopb/pb_decode.c:100-134 | Reading succeeds iff enough input is left and takes exactly the front of it |
| `InputStream.DecodeVarint32Eof` | nanopb/pb_decode.c:182-242 | The in-place 32-bit loop is the specified reader, and reports the end of input exactly on an empty input |
| `InputStream.DecodeVarint` | nanopb/pb_decode.c:250-271 | The in-place 64-bit loop is the specified reader |
| `InputStream.DecodeTag` | nanopb/pb_decode.c:293-314 | Tag, wire type, end of message and malformed input, with what is left unread |
| `InputStream.SkipField` | nanopb/pb_decode.c:316-329 | Skipping takes exactly one value of the wire type or fails |
| `WireFormat.SkipsPayload` | nanopb/pb_decode.c:316-329 | What is skipped is exactly one payload of the grammar: a whole varint, 8 bytes, 4 bytes, or a length and its bytes; any other wire type fails |
| `WireFormat.ReadsKey` | nanopb/pb_decode.c:293-314 | Every key of up to five bytes, padded or not, is read as tag and wire type; zero ends the message |
| `WireFormat.ReadsRaw` | nanopb/pb_decode.c:331-362 | A callback is handed exactly the bytes of the number, and none of a varint over ten bytes |
| `WireFormat.ReadsVarint` | nanopb/pb_decode.c:250-271 | The 64-bit loop computes the base-128 value of every varint of up to ten bytes, padded or not |
| `InputStream.ReadRawValue` | nanopb/pb_decode.c:331-362 | The raw bytes of one scalar, varints of at most ten bytes |
| `InputStream.MakeSubstream` | nanopb/pb_decode.c:367-380 | The substream sees the length-prefixed body; the parent gives up exactly its bytes |
| `InputStream.CloseSubstream` | nanopb/pb_decode.c:382-395 | The parent goes on behind the body whatever the substream left unread |
| `Decoder.DecodeVarintNum` | nanopb/pb_decode.c:1294-1377 | The method widens, stores at the field size, compares and advances as the decoding of one number says |
| `Merge.AcceptsWhatFits` | nanopb/pb_decode.c:1294-1377 | A varint is accepted exactly when its widened value fits the field, and stored as that; a signed field of 4 or 8 bytes takes any, since 4-byte ones are cut to 32 bits first |
| `Decoder.DecodePacked` | nanopb/pb_decode.c:419-446 | The packed loop appends while the array has room; overflow and bad items are errors |
| `Decoder.DecodeStaticField` | nanopb/pb_decode.c:401-478 | Required, optional and repeated fields, packed or not, against the specification of one field |
| `Decoder.DecodeCallbackField` | nanopb/pb_decode.c:658-710 | The do-while over the callback empties the substream once and delivers the last non-empty string; scalars go through the ten-byte buffer |
| `Decoder.DecodeSubmessage` | nanopb/pb_decode.c:1468-1490 | Repeated elements start from defaults, other submessages are merged into; the parent ends behind the body |
| `Decoder.SetToDefaults` | nanopb/pb_decode.c:889-900 | The iterator loop resets every field but callbacks, recursively |
| `Decoder.DecodeFields` | nanopb/pb_decode.c:925-1002 | The field loop with iterator search and bitmap computes what the recursive specification says, success, rest and struct, also on malformed input |
| `Decoder.CheckRequired` | nanopb/pb_decode.c:1012-1051 | Counting from wherever the iterator stands and the word-wise check equal the bitmap check over the whole list |
| `Decoder.DecodeMessageNoInit` | nanopb/pb_decode.c:906-1054 | Field loop and required-field check together are the specified decoding |
| `Decoder.DecodeMessage` | nanopb/pb_decode.c:1056-1068 | Defaults, then the field loop: the specified decoding of any input into any struct |
| `Merge.DecodesMessage` | nanopb/pb_decode.c:906-1054 | Decoding an encoding into any struct with room merges it in: the last singular value, recursive merge, appended arrays, everything consumed |
| `RoundTrip.DecodeInvertsEncode` | nanopb/pb_decode.c:1056-1068 | Decoding from defaults always has the room needed, consumes all bytes and gives the message merged into the defaults |
| `RoundTrip.RoundTrips` | nanopb/pb_encode.c:497-519 | Over every descriptor tree and complete message: same required values, options, elements and strings come back, absent numbers read as their defaults; an empty string that was sent reads as the empty string |
| `Concatenation.ConcatenationMerges` | nanopb/pb_decode.c:906-1054 | Two encodings one after the other decode to the merge of the messages (Last One Wins in the Protocol Buffers encoding specification) |
| `Concatenation.MergesInTurn` | nanopb/pb_decode.c:1468-1490 | Merging one message and then another is merging their combination |
| `UnknownFields.UnknownFieldsAreTransparent` | nanopb/pb_decode.c:939-971 | A well-formed field with an unlisted tag between complete fields changes neither success nor the decoded struct |
| `WireFormat.UnknownRecordsAreTransparent` | nanopb/pb_decode.c:939-971 | The same for every record of the grammar with an unlisted tag |
| `WireFormat.ForeignFieldsAreTransparent` | nanopb/pb_decode.c:939-971 | The whole encoding of any message whose tags are unlisted can stand between complete fields without changing what is decoded |
| `WireFormat.ZeroTagEnds` | nanopb/pb_decode.c:939-947 | A zero byte after complete fields ends the message and leaves the rest unread |
| `UnknownFields.ScanLocal` | nanopb/pb_decode.c:925-1002 | What complete fields decode to does not depend on what follows them |
| `UnknownFields.EncodingIsCompleteFields` | nanopb/pb_encode.c:497-519 | Every encoding that can be decoded is a run of complete fields |
| `PackedFields.PackedAndUnpackedAgree` | nanopb/pb_decode.c:419-459 | Any cutting of an array into packed and single records decodes to the same array, and fails iff the array overflows |
| `RequiredBits.CheckIsSoundAndComplete` | nanopb/pb_decode.c:983-1051 | The bitmap check passes iff each of the first 64 required fields was met |
| `RoundTrip.RequiredAreDemanded` | nanopb/pb_decode.c:1012-1051 | An encoding that lacks the first fields is accepted iff none of them is among the first 64 required ones |
| `RequiredBits.FullIffAllSet` | nanopb/pb_decode.c:1031-1050 | Whole-word and remaining-bit comparisons hold iff all counted bits are set, also for counts divisible by 32 |
| `RequiredBits.MeetMarks` | nanopb/pb_decode.c:990-996 | Setting the bit of a met field keeps bits and met fields in correspondence |
| `NanoPB.ParsingHasNoMemory` | src/common/nanopb_decoder.cc:11-15 | The outcome of parsing depends only on the data and on which callbacks are bound, never on earlier contents, and parsing keeps what is bound |
| `NanoPB.NanoPBDecoder.ParseFromArray` | src/common/nanopb_decoder.cc:11-15 | Return value and struct are those of a new object, after any earlier parses and however they ended |
| `NanoPB.NanoPBDecoder.ReleaseString` | src/common/nanopb_decoder.cc:59-74 | Hands out a string and forgets only it |
| `NanoPB.NanoPBEncoder.SerializeToString` | src/common/nanopb_encoder.cc:31-39 | The exact encoding of the struct, iff there is one and it fits the shared buffer |
| `NanoPB.NanoPBEncoder.SetString` | src/common/nanopb_encoder.cc:45-48 | A setter keeps the value and binds the callback to it |
| `NanoPB.MessageExchange` | src/common/nanopb_encoder.cc:31-59 | What one object serializes another reads back, even one used before |
| `StreamSpec.OutputLanguage` | src/common/pending_queue.h:198-449 | Over every run the pops are one block per successful start, in start order: START DATA* and END, REMOVED or ERROR, or REMOVED or ERROR alone, as its last end or erase says, with the closing item or 16 bits of the error; the data is exactly what was accepted, up to what was taken before an erase |
| `StreamQueues.StreamQueue.Begin` | src/common/pending_queue.h:198-216 | The list, tag queue and map gain one stream iff the id was free |
| `StreamQueues.StreamQueue.Stream` | src/common/pending_queue.h:218-241 | Inserting before the tag appends to that stream and leaves all others alone |
| `StreamQueues.StreamQueue.End` | src/common/pending_queue.h:243-258 | Completes the stream whatever its tag type was |
| `StreamQueues.StreamQueue.Erase` | src/common/pending_queue.h:288-326 | The backward walk removes exactly the data of this stream; 16 bits of the error are kept |
| `StreamQueues.StreamQueue.Clear` | src/common/pending_queue.h:328-360 | Every stream is emptied and marked deleted, polled or not as before; first and last id are reported |
| `StreamQueues.StreamQueue.Available` | src/common/pending_queue.h:368-383 | Whether the next pop returns something |
| `StreamQueues.StreamQueue.Pop` | src/common/pending_queue.h:385-444 | The flat list pops what the ordered collection of FIFOs pops, and is left as that is |
| `OpControl.OperationController.NewOp` | src/common/op_ctl.h:27-36 | Appends an operation; only a starting one becomes current |
| `OpControl.OperationController.SetError` | src/common/op_ctl.h:39-46 | Only the current operation fails, and is let go |
| `OpControl.OperationController.FinishOp` | src/common/op_ctl.h:49-57 | The current operation ends, unless it was cancelled or failed, and is let go |
| `OpControl.OperationController.CancelOp` | src/common/op_ctl.h:68-85 | All in the list, or the first with the id, are cancelled; the current one is let go iff a cancelled one has its id |
| `OpControl.OperationController.RemoveFrontOp` | src/common/op_ctl.h:87-90 | The oldest operation leaves the list |
| `Results.RespondKeeps` | src/speech/speech_impl.cc:793-878 | A response keeps operations and response queue in step in every state that is |
| `Results.PollKeeps` | src/speech/speech_impl.cc:383-481 | Polling keeps them in step and its assertions hold |
| `Results.CancelKeeps` | src/common/op_ctl.h:68-85 | Cancelling one operation or all keeps operations and response queue in step |
| `Results.CancelCurrent` | src/common/op_ctl.h:68-85 | In every state that is in step, a cancellation lets go of the current operation exactly when it hits that operation, although the code compares ids |
| `Results.OneVerdictEach` | src/speech/speech_impl.cc:383-481 | Operations that left the list had one last result each, in creation order |
| `ResultSide.ResultSide.PollOnce` | src/tts/tts_impl.cc:188-253 | One turn of poll on the real queue and controller returns and leaves what the specification says |
| `TtsDelivery.ExactlyOnce` | src/tts/tts_impl.cc:188-293 | Over every interleaving: one last result in speak order for each of the first ids, and it is what ended that request (END, CANCELLED, or ERROR with its code); per id exactly the voices of the responses received while it was in progress, all of them before END and the first of them otherwise; and what poll returns next is the next thing owed for the id being read |
| `TtsDelivery.CancelledIsCancelled` | src/tts/tts_impl.cc:120-142 | A request cancelled before its last result was read ends as CANCELLED in every continuation; one cancelled while it waited is never sent and gets no other result |
| `TtsDelivery.SentInOrder` | src/tts/tts_impl.cc:255-339 | Requests reach the server in speak order, each at most once, and none that was cancelled while it waited |
| `TtsSystem.PollIsSafe` | src/tts/tts_impl.cc:156-253 | The assertions in poll hold and no popped type falls outside the result table |
| `TtsSystem.OneAtATime` | src/tts/tts_impl.cc:255-293 | A new operation never displaces one in progress, and the sender never sleeps on one that is gone |
| `TtsImpls.TtsImpl.CancelReq` | src/tts/tts_impl.cc:120-142 | Requests still waiting are marked; otherwise the operation is cancelled and the sender woken |
| `TtsImpls.TtsImpl.TakeRequest` | src/tts/tts_impl.cc:255-293 | The next request becomes one operation, cancelled or started, in one atomic step |
| `TtsImpls.TtsImpl.GenResultByResp` | src/tts/tts_impl.cc:389-438 | Only responses for the current operation count; they do to queue and controller what the step does |
| `TtsImpls.TtsImpl.Poll` | src/tts/tts_impl.cc:188-253 | Returns the next result of the transition system and takes its step |
| `SpeechSystem.WireOrder` | src/speech/speech_impl.cc:496-596 | What was sent is a sequence of sentences TEXT or START VOICE* [END], each with the one id of its START |
| `SpeechSystem.LoopHead` | src/speech/speech_impl.cc:496-552 | At the loop head a current operation is that of the front voice, already polled |
| `SpeechSystem.NothingInProgress` | src/speech/speech_impl.cc:554-578 | The assertion that nothing is current when an operation starts holds, and still does when the lock was let go in between |
| `SpeechSystem.PollIsSafe` | src/speech/speech_impl.cc:383-481 | Every assertion that popped id and operation id agree holds |
| `SpeechSystem.TagsFollowOperations` | src/speech/speech_impl.cc:793-878 | The response streams are, in order, those of the listed operations that were streamed; the current operation is the last and in START or STREAMING |
| `SpeechDelivery.OneVerdictPerOperation` | src/speech/speech_impl.cc:383-481 | Over every interleaving: one last result for each operation in creation order, and it is what ended that operation (END, CANCELLED, or ERROR with its code); exactly the items of the responses received while it was in progress, all of them before END and the first of them otherwise; and what poll returns next is the next thing owed for the operation being read |
| `SpeechDelivery.CancelledIsCancelled` | src/speech/speech_impl.cc:267-300 | A text or unread voice that is cancelled is never begun on the wire and ends as CANCELLED without any other result, in every continuation; for a voice, one without a later end_voice for it |
| `SpeechDelivery.CancelledUnsent` | src/speech/speech_impl.cc:516-551 | No frame TEXT or START is sent for a request that counts as cancelled while it waited, and such a request has no result but CANCELLED |
| `SpeechDelivery.FrontAsClosed` | src/speech/speech_impl.cc:496-516 | What the sender pops for a voice is what was done to it last: CANCELLED iff that was a cancellation, an error iff it was given up, and an unread voice is begun iff it does not count as cancelled |
| `SpeechDelivery.EndUndoesCancel` | src/speech/speech_impl.cc:255-281 | A run in which end_voice after cancel undoes the cancellation: the cancelled voice is begun on the wire |
| `SpeechDelivery.OperationStaysCancelled` | src/common/op_ctl.h:68-85 | An operation that cancel reaches before its last result was read ends as CANCELLED in every continuation |
| `SpeechDelivery.NothingLost` | src/speech/speech_impl.cc:496-596 | Every id handed out is that of a waiting text or voice, or held by the sender, or that of an operation |
| `SpeechDelivery.SenderTakesText` | src/speech/speech_impl.cc:508-540 | With no voice to read and nothing in progress three steps of the sender take the oldest text, as cancelled iff it was cancelled |
| `SpeechSystem.OnlyTheFirstTalks` | src/speech/speech_impl.cc:588-595 | Of several operations with one id only the first can have more than a lone CANCELLED or ERROR |
| `OncePerRequest.TwoResultsForOneRequest` | src/speech/speech_impl.cc:267-300 | A run in which one request is reported as cancelled twice |
| `OncePerRequest.OncePerRequestExactlyWhen` | src/speech/speech_impl.cc:554-596 | No two operations have one id exactly in the runs where the sender never decides, with nothing seen in progress, on the cancellation of a voice whose START it had popped before |
| `OncePerRequest.OncePerRequestIfNotCancelled` | src/speech/speech_impl.cc:267-300 | A caller who never cancels while the voice at the front is being read, that voice or everything, gets one operation for each request |
| `VoiceDelivery.VoicesDelivered` | src/speech/speech_impl.cc:639-704 | Over every interleaving the frames are sentences, and the data of each is what the queue accepted first for that voice, in order; all of it if the voice was ended by END and never erased or cleared while queued |
| `VoiceDelivery.SentOnce` | src/speech/speech_impl.cc:554-586 | No request is begun twice on the wire: no two TEXT or START frames have one id |
| `VoiceDelivery.CurrentWasSent` | src/speech/speech_impl.cc:539-551 | The server has been sent the TEXT or START of the operation in progress, except while the sender is sending it |
| `SpeechSystem.NoLostWakeup` | src/common/op_ctl.h:60-64 | A waiting sender's operation is still current |
| `SpeechImpls.SpeechImpl.PutVoice` | src/speech/speech_impl.cc:213-253 | The fragment loop terminates for fragments of at least one byte and queues exactly the cut voice |
| `SpeechImpls.SpeechImpl.CancelReq` | src/speech/speech_impl.cc:267-300 | Voice, then text, then the operation later; or everything |
| `SpeechImpls.SpeechImpl.NextRequest` | src/speech/speech_impl.cc:496-532 | The loop head pops the next voice request or goes for a text |
| `SpeechImpls.SpeechImpl.DoCtlChangeOp` | src/speech/speech_impl.cc:554-596 | What happens after the lock was let go, on the operation seen before |
| `SpeechImpls.SpeechImpl.RequestFailed` | src/speech/speech_impl.cc:706-718 | The current operation fails and the request is erased with the time-out error |
| `SpeechImpls.SpeechImpl.GenResultByResp` | src/speech/speech_impl.cc:793-878 | Extra item, body and ending for the current operation only, and what is to be erased then |
| `SpeechImpls.SpeechImpl.Poll` | src/speech/speech_impl.cc:383-481 | Returns the next result of the transition system and takes its step |
| `VoiceFragments.CutKeepsBytes` | src/speech/speech_impl.cc:231-248 | All fragments but the last have voice_fragment bytes, the last 1 to that, and together they are the voice |
| `VoiceFragments.VoiceConserved` | src/speech/speech_impl.cc:213-253 | Over every run, a voice never erased or cleared comes out up to its END as exactly the bytes accepted, for any fragment sizes |
| `OpusFraming.RKOpusEncoder.Encode` | src/codec/rkcodec.cc:108-170 | Frames, saved samples, buffer and size after a call, also when the codec fails in the middle |
| `OpusFraming.EncodeChunks` | src/codec/rkcodec.cc:108-170 | Calls on a new encoder object, one for each chunk, save, feed to the codec and return what the session over those chunks says |
| `OpusFraming.ChunkingIrrelevant` | src/codec/rkcodec.cc:108-170 | Over any calls the codec gets the frames of all samples together, less than a frame is saved, and the output is the packets of those frames |
| `OpusFraming.SmallCallsFit` | src/codec/rkcodec.cc:108-170 | With packets of at most 255 bytes, calls of up to 64 frames of samples never fill the buffer |
| `OpusFraming.LargeCallsOverflow` | src/codec/rkcodec.cc:108-170 | With packets of 255 bytes the 16 KiB buffer holds 64 frames and no more |
| `OpusFraming.OutputReadsBack` | src/codec/rkcodec.cc:150-157 | The concatenated output parses back to one packet per frame, for any chunking |
| `OpusFraming.PackedReadsBack` | src/codec/rkcodec.cc:150-157 | Length-prefixed packets parse in one way only |

## Left out

- Static byte arrays, static strings, fixed-length bytes, oneof, pointer fields with malloc, proto3 singular fields, fixed-count arrays and extensions in the codec: the SDK's messages do not use them; the iterator model does cover unions and pointers. The bookkeeping for fixed-count arrays and extensions in `pb_decode_noinit` is a no-op on the descriptors covered.
- RoundTrip.RoundTrips: the encoding is shorter than 2^32 bytes, because the decoder reads length prefixes as 32-bit varints, and no string callback lies inside a repeated submessage, where nobody binds it; `RoundTrip.DecodeInvertsEncode` says what is decoded there too.
- Encoder.EncodeArray: no pointer arrays and no static string or bytes elements, see the first line.
- Encoder.EncodeBasicField: no oneof, pointer, fixed-count or proto3 singular fields, see the first line.
- Encoder.EncodeMessage: descriptor lists are not empty and have no extension placeholder; every SDK message has fields and no extensions.
- Decoder.DecodeStaticField: no oneof, static string or bytes, or fixed-count fields, see the first line.
- Decoder.DecodeFields: lists are not empty and have no extension, oneof, fixed-count or static string fields, see the first line.
- Decoder.DecodeMessageNoInit: the same lists as for `Decoder.DecodeFields`.
- Decoder.DecodeMessage: the same lists; and the struct is passed and returned by value, so aliasing between a struct and its strings is not captured.
- Decoder.DecodeCallbackField: the callback is the SDK's string callback, which never fails; other callbacks are not modelled.
- NanoPB.NanoPBEncoder.SetString: the string member and the callback argument that points to it are one slot; that the pointer stays valid inside the object is not expressed.
- Decoder.DecodeSubmessage: a repeated submessage cell starts with null callbacks; callbacks that an earlier use left in the cell's memory are not modelled.
- Custom stream callbacks, `PB_WITHOUT_64BIT`, delimited and null-terminated variants: build options and thin wrappers around what is modelled.
- Wrap-around of `size_t` in stream positions: sizes are unbounded; the checks against it in the source have no counterpart.
- `data_count`, `set_arg` and `get_arg` of the stream queue: a logged counter and a payload that is only passed through.
- Time: a time-out may strike whenever an operation is current; `refresh_op_time` and `op_timeout` have no other effect.
- SpeechConnection, authentication, keep-alive, trace and statistics: sending and receiving are events with an outcome.
- The contents of requests (options, text) and of results beyond their order and payload: they are copied.
- Release, a second prepare, and thread joins: the invariants are not meant to hold across them.
- Liveness: that a started request is eventually answered.
- SpeechImpls.SpeechImpl.PutVoice: `voice_fragment` must be at least 1, because with 0 the loop does not end; re-encoding to Opus before queueing is modelled separately.
- OpusFraming.RKOpusEncoder.Encode: calls before `init`, which return NULL, are not modelled; the encoder exists once constructed.
- PendingQueue and PendingStreamQueue, the Opus decoder, JNI, demos and configuration: wrappers and I/O.
