# Verification of light-discord

A Dafny model of the voice path, the server's shared state and the in-memory storage of
light-discord, with proofs of the properties those parts are built to have. `dafny verify
dfyconfig.toml` checks the whole project.

Objects that the program updates in place are classes here (`JitterBuffer`, `VoiceWorker`,
`NoiseGate`, `CaptureBuffer`, `InnerState`, `MemoryStorage`), and loops that build a result are
methods with loops. Each is proved to take exactly the steps of functions on values, and the
properties over whole runs are lemmas about those functions. Most of these objects carry their
history, every operation they have been through, and `Valid` ties their fields to it, so that the
run theorems hold of the object. Queues, datagrams and the interleaving of tasks are step systems.

The methods of `InnerState` and `MemoryStorage` that only set or read one map entry
(`RegisterConnection`, `RememberVoiceAddr`, `InsertShare`, `RemoveShare`, `CreateInvite`,
`RegisterEphemeralUser`, `CreateSession`, `ValidateSession`, `SaveMessage`,
`FindUserByDisplayName`) are proved to take the step of the function of that name and have no row
of their own below; what they add up to is in the rows on runs.

| file | contents |
|---|---|
| `Prelude.dfy`, `OrderedMaps.dfy`, `StableSort.dfy`, `Text.dfy` | integer widths, ordered maps, the stable sort, trimming and ASCII case |
| `JitterModel.dfy`, `JitterRuns.dfy`, `JitterReadiness.dfy`, `JitterBuffer.dfy` | the reorder and loss buffer, its whole-run theorems, when it holds back, the class |
| `Utf8.dfy`, `VoicePackets.dfy`, `VoicePacketCodec.dfy`, `VoicePacketBytes.dfy` | UTF-8, the packet layout as a list of fields, the encoder and decoder with buffer and cursor, the packet byte by byte |
| `VoiceClient.dfy`, `VoiceWorker.dfy`, `VoiceRelay.dfy`, `VoiceProtocol.dfy`, `VoiceDelivery.dfy`, `VoiceConfinement.dfy`, `VoiceLoss.dfy` | the client's voice worker, the relay, the two over a lossy network, how voice reaches its room and stays inside it, and why frames are reported lost |
| `Resampler.dfy`, `NoiseGate.dfy`, `AudioFrames.dfy`, `Devices.dfy`, `ScreenFit.dfy` | signal processing and device lists |
| `ServerTables.dfy`, `InnerState.dfy`, `ScreenShare.dfy` | the server's tables, its critical sections, share negotiation |
| `ServerSystem.dfy`, `ServerInvariant.dfy`, `ServerRuns.dfy` | the server's tasks as a step system, what each step keeps, and what holds in every reachable state |
| `FrameOrigins.dfy` | what share frames carry, where they come from and whom they reach |
| `ShareOverlaps.dfy`, `SecondLogins.dfy` | what a user with several connections can break, and exactly when ending a share is safe |
| `StorageModel.dfy`, `StorageRuns.dfy`, `StorageHistory.dfy`, `MemoryStorage.dfy` | accounts, invites, sessions, messages and audit log, over whole runs and in terms of the requests alone |

## How the program is read

- Sequence numbers are 64-bit and wrap. The jitter buffer stays sound across the wrap, because by
  then nothing is pending. Packets already reported are dropped if they come again if and only if
  the cursor has not wrapped (`ReportedIsStaleIff`); hence the end-to-end result is for fewer than
  2^64 frames in a session.
- A Rust `String` is a sequence of Unicode scalar values; its bytes are their UTF-8 encoding and
  the decoder's check is well-formedness by section 4 of RFC 3629.
- An i32 operation that overflows wraps around, as in a release build. A debug build would stop
  there. The one place where this happens is the resampler's product.
- The comment on `JitterPop::Lost` calls `next_payload` the following packet. The code offers the
  smallest pending one, which is the adjacent packet only at the end of a gap; `LossReport` says
  exactly when.
- `handle_client` returns without `disconnect_user` when reading a line fails
  (`crates/light-discord-server/src/main.rs:861`). The step `DropLine` models this: no table changes
  (`DropLineLeavesUser`), and the connection a user is registered with has ended if and only if it
  ended this way (`EndedIffLost`), however many connections it has had.
- Nothing keeps a user from logging in twice. That each user is in at most one room is proved for
  all runs. That members and sharers are registered is false with two logins (`SecondLogins.dfy`);
  `RegisteredThroughoutIff` says exactly when it holds.
- The results on queues are for all runs, with any number of connections per user, in which the
  share operations of one user do not overlap: it does not start or stop its share, or hang up
  while sharing, while another of its connections is sending something about the share, and sends
  no frame while another is announcing a start or a stop (`NoOverlap`). Frames may overlap frames.
  Stopping is safe if and only if it does not overlap (`EndingShareIsSafeIff`), and every other
  overlap that is ruled out has a continuation that breaks a queue, given a frame or a listener
  that shows it (`ShareOverlaps.dfy`). With one open connection per user nothing overlaps.
- A user that connects while a share runs receives its frames without having seen a start.
  `ReachableQueues` therefore speaks of the last announcement a queue holds, if it holds one, and
  `QueuedFramesFitLatestStart` of what the sender shared when the frame was put there.
- The relay takes the lock twice for one datagram, and other tasks may come in between. An address
  is remembered for whoever a datagram claims to be from, so voice is confined to the addresses
  known for the members of a room.
- The clock, freshly drawn identifiers, the Opus codec and the order in which a hash map yields
  its entries are parameters or free choices.

## Model

| member | source | states |
|---|---|---|
| JitterModel.StepKeepsInv | crates/light-discord-platform/src/voice.rs:254-305 | after every push and pop the buffer is within its cap and no pending sequence lies below the cursor; the cursor wraps only when nothing is left pending |
| JitterModel.RunKeepsInv | crates/light-discord-platform/src/voice.rs:233-306 | the same after any run of pushes and pops |
| JitterRuns.EmissionsAreContiguous | crates/light-discord-platform/src/voice.rs:234-305 | over any run of a new buffer the reported sequences, packets and losses together, are consecutive modulo 2^64, and the cursor is one past the last |
| JitterRuns.ReportedIsStaleIff | crates/light-discord-platform/src/voice.rs:252-259 | over any run of a new buffer, everything reported so far would be dropped as stale if it came again, if and only if the cursor has not wrapped |
| JitterRuns.WrapForgetsThePast | crates/light-discord-platform/src/voice.rs:254-259 | right after the last sequence number has been reported nothing is pending and the next push is accepted, however old |
| JitterRuns.LossReport | crates/light-discord-platform/src/voice.rs:218-304 | a sequence reported lost is not pending; the payload offered with it is that of the smallest pending sequence, which is larger, and the next report is that very packet if and only if the gap ends there |
| JitterRuns.DrainIsExact | crates/light-discord-platform/src/voice.rs:271-305 | draining a ready buffer ends after (largest pending - cursor + 1) reports, one for each sequence in between, a packet exactly at the pending ones, and leaves the buffer empty; draining one that is not ready reports nothing |
| JitterRuns.PopShrinksGap | crates/light-discord-client/src/voice.rs:391-407 | every report shortens the distance from the cursor to the largest pending sequence by one, the measure under which the drain loop ends |
| JitterRuns.PushAllKeepsLargest | crates/light-discord-platform/src/voice.rs:254-267 | evicting after every push of a burst keeps what one would get by merging the whole burst and keeping the `max_depth` largest sequences, each with its last payload |
| JitterRuns.BurstKeepsNewest | crates/light-discord-platform/src/voice.rs:254-267 | after a burst the pending sequences are the `max_depth` largest of those pending before and those that arrived in time |
| JitterRuns.ArrivalOrderIsIrrelevant | crates/light-discord-platform/src/voice.rs:254-267 | permuting or duplicating a burst changes neither the buffer nor anything it later reports, even across evictions |
| JitterRuns.PacketsAreConserved | crates/light-discord-platform/src/voice.rs:254-305 | every packet pushed is accounted for exactly once as stale, overwritten, evicted, reported or still pending |
| JitterRuns.LossHasACause | crates/light-discord-platform/src/voice.rs:293-304 | before the wrap, a sequence is reported lost only if it had not arrived or the cap had evicted it |
| JitterReadiness.PopReportsIff | crates/light-discord-platform/src/voice.rs:271-291 | over any run of a new buffer a pop reports something if and only if something is pending and the pre-roll (at least one packet) is filled now, or was at some pop since a pop last found nothing; a forced pop does not wait; draining reports in the same states |
| JitterReadiness.PushKeepsLargest | crates/light-discord-platform/src/voice.rs:234-267 | over any run a packet is refused if and only if the reports have got past its sequence; of what is pending and the packet the largest sequences are kept, up to the cap, which is no less than the pre-roll |
| OrderedMaps.KeepLargestAbsorbs | crates/light-discord-platform/src/voice.rs:261-266 | evicting before and after an insertion keeps the same entries as evicting once afterwards |
| OrderedMaps.KeepLargestIsLargestPart | crates/light-discord-platform/src/voice.rs:261-266 | removing smallest keys down to a cap leaves exactly the largest keys with their values |
| JitterBuffers.JitterBuffer.constructor | crates/light-discord-platform/src/voice.rs:234-242 | a new buffer has a target of at least one, a cap no smaller than the target, and nothing else |
| JitterBuffers.JitterBuffer.Push | crates/light-discord-platform/src/voice.rs:254-267 | the object after a push, including the eviction loop, is the model's push of the object before; its whole history replays to its fields |
| JitterBuffers.JitterBuffer.Pop | crates/light-discord-platform/src/voice.rs:271-305 | result and object after a pop are those of the model |
| JitterBuffers.JitterBuffer.ReportsAreContiguous | crates/light-discord-platform/src/voice.rs:203-216 | everything an object has reported in its life is consecutive up to its cursor |
| JitterBuffers.JitterBuffer.PopReportsIff | crates/light-discord-platform/src/voice.rs:271-291 | the same on the history of an object: when its next pop reports something |
| JitterBuffers.JitterBuffer.ReportedIsIgnored | crates/light-discord-platform/src/voice.rs:252-259 | an object that has not reported the last sequence number ignores a push of anything it has reported |
| JitterBuffers.JitterBuffer.Len | crates/light-discord-platform/src/voice.rs:244-246 | the number of pending packets, never above the cap |
| Utf8.DecodeEncode | crates/light-discord-core/src/protocol.rs:463-465 | every string survives being written as bytes and checked back |
| Utf8.EncodeDecode | crates/light-discord-core/src/protocol.rs:463-465 | bytes that pass the check are the encoding of the string they give |
| Utf8.WellFormedIffEncoding | crates/light-discord-core/src/protocol.rs:473-475 | the bytes accepted are exactly the encodings of strings of scalar values |
| Utf8.ScalarFollowsTable | crates/light-discord-core/src/protocol.rs:463-465 | lengths, marks and number bits of every character as in the table of section 3 of RFC 3629 |
| VoicePackets.DecodeEncode | crates/light-discord-core/src/protocol.rs:372-431 | the encoder accepts exactly the packets whose fields fit and whose codec is known, and decoding returns the packet |
| VoicePackets.EncodeDecode | crates/light-discord-core/src/protocol.rs:434-530 | every byte string the decoder accepts is the encoding of the packet it decodes to, so only canonical forms are accepted |
| VoicePackets.EncodeIsInjective | crates/light-discord-core/src/protocol.rs:372-431 | two packets never share an encoding |
| VoicePackets.StrictPrefixIsTruncated | crates/light-discord-core/src/protocol.rs:437-443 | an encoded packet cut anywhere decodes to `Truncated` |
| VoicePackets.TrailingDataIffExtendsPacket | crates/light-discord-core/src/protocol.rs:516-518 | `TrailingData` is the answer if and only if some strict prefix is a whole packet |
| VoicePackets.LayoutReadsBack | crates/light-discord-core/src/protocol.rs:314-331 | for any list of fields, reading after writing gives the values back and stops where the writing ended |
| VoicePackets.LayoutIsCanonical | crates/light-discord-core/src/protocol.rs:314-331 | for any list of fields, what was read is what would be written |
| VoicePacketCodec.EncodeVoicePacket | crates/light-discord-core/src/protocol.rs:372-431 | the encoder that appends to a buffer produces the layout, with the same errors in the same order |
| VoicePacketCodec.WireLayout | crates/light-discord-core/src/protocol.rs:372-431 | the exact bytes written: magic, version, the two texts behind two-byte lengths, sequence, rate, channels, codec byte and frame size each little-endian at its width, then the payload behind a four-byte length |
| VoicePacketCodec.DecodeVoicePacket | crates/light-discord-core/src/protocol.rs:434-530 | the decoder that advances a cursor reads the layout, every index in bounds, with the same error for the same bytes |
| VoicePacketBytes.WireBytes | crates/light-discord-core/src/protocol.rs:312-331 | every byte of an encoded packet: "LDVP", version 1, texts behind two-byte lengths, the numbers digit by digit with the low byte first, 1 for opus and 0 for PCM, the payload behind four bytes |
| VoicePacketBytes.EncodeErrors | crates/light-discord-core/src/protocol.rs:372-398 | which error the encoder gives, in which order |
| VoicePacketBytes.FirstErrorDecides | crates/light-discord-core/src/protocol.rs:434-514 | the first field that cannot be read decides the answer, for any layout and whatever follows |
| VoicePacketBytes.HeaderErrors | crates/light-discord-core/src/protocol.rs:445-456 | another magic or version is named as such |
| VoicePacketBytes.TextErrors | crates/light-discord-core/src/protocol.rs:458-476 | a text that is not UTF-8 is named by its field |
| VoicePacketBytes.CodecError | crates/light-discord-core/src/protocol.rs:496-501 | an unknown codec byte is named |
| VoicePacketCodec.TakeText | crates/light-discord-core/src/protocol.rs:458-466 | a text field at the cursor: its length, its bytes and its check, or the error |
| VoicePacketCodec.TakeNumbers | crates/light-discord-core/src/protocol.rs:478-506 | the fixed-width fields, or the first error among them |
| VoicePacketCodec.TakeBlob | crates/light-discord-core/src/protocol.rs:508-514 | the payload at the cursor, or that it is cut short |
| VoiceClient.ReceiveTouchesOneBuffer | crates/light-discord-client/src/voice.rs:354-385 | a datagram changes nothing unless it is another user's audio in the common codec while not deafened, and then it is one push into that user's buffer |
| VoiceDelivery.AudioIsPushed | crates/light-discord-client/src/voice.rs:354-385 | another user's opus audio is pushed into that user's buffer, a new one with pre-roll 3 and cap 20 if need be, whenever the listener is not deafened and knows the user or has a decoder; anything else changes nothing |
| VoiceClient.DrainPeerStep | crates/light-discord-client/src/voice.rs:391-407 | draining a peer is popping it again and again: one more pop extends what was drained by its report |
| VoiceWorkers.VoiceWorker.Transmit | crates/light-discord-client/src/voice.rs:313-327 | a frame uses up its sequence number whether or not its packet could be encoded |
| VoiceWorkers.VoiceWorker.Heartbeat | crates/light-discord-client/src/voice.rs:334-349 | an empty packet with the current sequence; the worker is unchanged |
| VoiceWorkers.VoiceWorker.Receive | crates/light-discord-client/src/voice.rs:355-375 | the worker with its map of buffer objects takes the model's receive step; no buffer is shared between users |
| VoiceWorkers.VoiceWorker.PushPeer | crates/light-discord-client/src/voice.rs:461-475 | a push into one user's buffer leaves the buffers of the others alone |
| VoiceWorkers.VoiceWorker.AddPeer | crates/light-discord-client/src/voice.rs:178-186 | a user heard for the first time gets an empty buffer of its own with depth 3 and cap 20 |
| VoiceWorkers.VoiceWorker.PopPeer | crates/light-discord-client/src/voice.rs:477-514 | one pop of one user's buffer, appended to what it has reported |
| VoiceWorkers.VoiceWorker.DrainPeer | crates/light-discord-client/src/voice.rs:392-406 | the loop ends; it yields a prefix of the exact drain, cut only at a report the decoder refused, and all of it if none was |
| VoiceWorkers.VoiceWorker.DrainAll | crates/light-discord-client/src/voice.rs:388-419 | the loop over all peers drains each buffer once, in any order, none of them disturbing another, and none at all while deafened |
| VoiceRelay.RelayDatagram | crates/light-discord-server/src/main.rs:1154-1169 | if no other task comes in between: the sender's address is remembered and the unchanged bytes go to exactly the known addresses of the other members of the packet's room; what does not decode is dropped |
| VoiceRelay.HearDatagram | crates/light-discord-server/src/main.rs:1157-1163 | the first critical section: what decodes has its sender's address remembered, anything else changes nothing |
| VoiceRelay.ForwardTargets | crates/light-discord-server/src/main.rs:1164-1167 | the second critical section, on whatever the tables are by then: exactly the other members' known addresses, and the bytes unchanged |
| VoiceProtocol.PlayedFramesWereSent | crates/light-discord-client/src/voice.rs:276-475 | over any run of a network that drops, duplicates and reorders, with any foreign datagrams and any changes of rooms: what a receiver reports for a sender of fewer than 2^64 frames is strictly increasing without gaps, was sent, and carries exactly the payload encoded for its sequence; heartbeats are never played and nobody plays itself |
| VoiceProtocol.RunKeepsInv | crates/light-discord-client/src/voice.rs:253-422 | in every reachable state every datagram that claims to be from a session is a heartbeat or one of its frames |
| VoiceDelivery.SenderFollowsSends | crates/light-discord-client/src/voice.rs:253-349 | over any run a session keeps its user, room and socket, and its sequence is the number of frames sent, modulo 2^64 |
| VoiceDelivery.AudioReachesRoom | crates/light-discord-client/src/voice.rs:313-327 | in every reachable state a frame goes out with the sender's id and room, the number of frames sent before, 48 kHz, one channel, opus, 960 samples and exactly the payload, and the relay sends these bytes to every other member of that room whose address is known |
| VoiceDelivery.HeartbeatReachesRoom | crates/light-discord-client/src/voice.rs:334-349 | the same for a heartbeat, with the current number, no samples and no payload |
| VoiceProtocol.StepKeepsInv | crates/light-discord-client/src/voice.rs:276-475 | every step of a sender, the relay, the network or a receiver keeps that |
| VoiceConfinement.ReportsStayInTheRoom | crates/light-discord-server/src/main.rs:1154-1169 | over any run of the network every packet a receiver reports was forwarded to its socket at a moment when a member of the room named in the packet, other than its sender, was known there; if nobody else was known there, the receiver itself was a member then |
| VoiceLoss.RemoteIsRun | crates/light-discord-client/src/voice.rs:354-407 | over any run of the network the buffer kept for a peer, and all it has reported, are those of a new buffer after the packets accepted from that peer and the pops, in order |
| VoiceLoss.LostFramesHaveACause | crates/light-discord-client/src/voice.rs:354-407 | over any run of the network, a frame a receiver reports lost was sent, and by then no datagram with it had been heard from that sender, or twenty with larger sequences had been |
| VoiceLoss.PushedIffHeard | crates/light-discord-client/src/voice.rs:354-385 | over any run the sequences pushed into a buffer are exactly those of the datagrams heard |
| Resampler.IndexInRange | crates/light-discord-platform/src/voice.rs:46-50 | every source index is inside the input and position = index times rate + remainder |
| Resampler.PositionsFit | crates/light-discord-platform/src/voice.rs:38-50 | for fewer than 2^32 samples the 64-bit positions do not overflow |
| Resampler.ResampleLinearMono | crates/light-discord-platform/src/voice.rs:31-62 | the loop yields, at every output position, the interpolation of the two samples around it, in the program's integer widths |
| Resampler.ExactWhenProductFits | crates/light-discord-platform/src/voice.rs:58-59 | if the product fits an i32 the sample is the exact interpolation, lies between its neighbours, and the clamp does nothing |
| Resampler.ExactIffProductFits | crates/light-discord-platform/src/voice.rs:58-59 | at every target rate below 2^31 Hz the sample is the exact interpolation if and only if the product fits: a wrapped step differs and the clamp cannot hide it |
| Resampler.ResampleExactIff | crates/light-discord-platform/src/voice.rs:31-62 | the samples a call returns are exact everywhere if and only if no product overflows, and then every one lies between its neighbours |
| Resampler.ProductsFitWhen | crates/light-discord-platform/src/voice.rs:58 | at any target rate no product overflows if adjacent samples differ by at most (2^31 - 1) / (rate - 1), which is any samples up to 32769 Hz and 44740 at 48 kHz; one more overflows at the largest remainder |
| Resampler.FullScaleStepOverflows | crates/light-discord-platform/src/voice.rs:58 | a full-scale step captured at 44.1 kHz comes out at the negative rail instead of at 27442 |
| Resampler.AroundIsNeighbours | crates/light-discord-platform/src/voice.rs:46-56 | each output sample lies between the input sample before its position and the one after, or at the end the last one |
| Resampler.ExactIsOnTheLine | crates/light-discord-platform/src/voice.rs:57-58 | the exact interpolation is the straight line between the two, rounded toward the left one |
| Resampler.UpThenDown | crates/light-discord-platform/src/voice.rs:31-62 | upsampling by any whole factor and back returns the original samples, for every input and rate |
| NoiseGates.GateFollowsHistory | crates/light-discord-platform/src/voice.rs:138-157 | after any frames the gate is open if and only if some frame was loud and no run of hangover + 1 quiet frames has come since; while open, what remains of the hangover is the hangover less the quiet frames at the end |
| NoiseGates.NoiseGate.ProcessFrame | crates/light-discord-platform/src/voice.rs:138-157 | the gate object follows the automaton on the level of each frame |
| NoiseGates.NoiseGate.OpenIffHistory | crates/light-discord-platform/src/voice.rs:159-161 | the state of a gate object is a fact about all frames it has seen |
| NoiseGates.FrameEnergy | crates/light-discord-platform/src/voice.rs:165-175 | the accumulated sum of squares |
| NoiseGates.EnergyAddsUp | crates/light-discord-platform/src/voice.rs:165-175 | the energy of a frame is the sum of its parts' |
| NoiseGates.RmsOfSwing | crates/light-discord-platform/src/voice.rs:165-175 | the root mean square of a signal swinging between a and -a is a |
| NoiseGates.LevelOfSwing | crates/light-discord-platform/src/voice.rs:138-157 | such a frame is loud from the opening threshold on and quiet below both thresholds |
| AudioFrames.CaptureBuffer.DrainFrames | crates/light-discord-platform/src/voice.rs:311-321 | the whole frames taken off the buffer, and the rest left in it |
| AudioFrames.CaptureBuffer.Capture | crates/light-discord-client/src/voice.rs:258-277 | appending all chunks that have come and framing once gives the frames of old rest and chunks together |
| AudioFrames.FramesPartition | crates/light-discord-platform/src/voice.rs:311-321 | frames and rest together are the buffer, every frame is full and the rest is shorter than one; frame size zero takes nothing |
| AudioFrames.ChunksDoNotMatter | crates/light-discord-platform/src/voice.rs:308-321 | framing after each captured chunk gives the frames of the whole capture |
| AudioFrames.AdaptChannels | crates/light-discord-platform/src/audio.rs:557-602 | repeating mono, averaging down, or copying the common channels over silence, frame by frame |
| AudioFrames.SumFits | crates/light-discord-platform/src/audio.rs:581-585 | the i32 accumulator cannot overflow for any channel count and the average is an i16 |
| AudioFrames.MonoRoundTrip | crates/light-discord-platform/src/audio.rs:569-588 | expanding mono to any number of channels and averaging back changes nothing |
| AudioFrames.WidenAndNarrow | crates/light-discord-platform/src/audio.rs:590-602 | widening a stream of two or more channels adds silent channels, and narrowing back returns it unchanged |
| AudioFrames.ChannelsAreCopied | crates/light-discord-platform/src/audio.rs:590-602 | between layouts of two or more channels the common channels are copied in place and the others are silent |
| AudioFrames.MonoIsMean | crates/light-discord-platform/src/audio.rs:578-588 | down to mono every sample is the mean of its frame's channels, rounded toward zero |
| AudioFrames.PlaybackSamples | crates/light-discord-platform/src/audio.rs:505-525 | every device channel plays the input mixed down first and resampled then |
| AudioFrames.PlaybackLength | crates/light-discord-platform/src/audio.rs:505-525 | the device gets every channel of exactly the resampled frames; its own format passes through |
| Devices.GroupDevices | crates/light-discord-platform/src/audio.rs:131-162 | the loop with its index of positions computes the fold of the devices |
| Devices.DeduplicateDevices | crates/light-discord-platform/src/audio.rs:126-167 | system defaults first, then the concrete devices grouped by id and by name |
| Devices.GroupIsGrouping | crates/light-discord-platform/src/audio.rs:117-125 | the incremental grouping is the one that is meant: one entry per key in first-seen order, with the group's total count, a default if it has one, and the id of its first default or else of its first device |
| Devices.DeduplicateKeeps | crates/light-discord-platform/src/audio.rs:117-167 | counts add up to the input's, system defaults pass through, concrete ids and names are distinct, and there is a default if and only if there was |
| Devices.FirstSeenOrder | crates/light-discord-platform/src/audio.rs:125 | the concrete entries of the final list come in the order their names are first seen, going by the first device of each id |
| Devices.AliasesPassThrough | crates/light-discord-platform/src/audio.rs:119-129 | the two system aliases pass through unchanged, as often as they were there, and no concrete entry takes their ids |
| Devices.DeduplicateIsIdempotent | crates/light-discord-platform/src/audio.rs:126-167 | deduplicating twice is deduplicating once |
| ScreenFit.FitIsTight | crates/light-discord-platform/src/screen.rs:57-82 | the result never exceeds the frame; it is within the limits unless frame or limits are empty, is the frame exactly if that fits or one of them is empty, and otherwise reaches a limit; fitting again changes nothing |
| ScreenFit.FitKeepsShape | crates/light-discord-platform/src/screen.rs:67-81 | a frame that is scaled keeps its shape: one side reaches its limit and the other is its share of that, rounded down, at least one |
| ServerTables.JoinVoiceMoves | crates/light-discord-server/src/main.rs:384-395 | joining puts the user into exactly that room and moves nobody else |
| ServerTables.OneRoomAlways | crates/light-discord-server/src/main.rs:93-410 | after any critical sections in any order nobody is in two rooms |
| ServerTables.TablesFollowHistory | crates/light-discord-server/src/main.rs:93-444 | after any critical sections each user has its latest connection, is in the room it joined last and no other, is known at the address last heard from and has the share started last, unless it has disconnected, left or stopped since |
| ServerTables.GoneAfter | crates/light-discord-server/src/main.rs:111-126 | leaving empties the set of rooms a user is in, disconnecting leaves no trace in any table, and nobody else is touched by either |
| ServerTables.TargetsAreOtherMembers | crates/light-discord-server/src/main.rs:446-457 | the targets are exactly the other members of the room with a known address: a client is one for the room it joined last and no other, for none once it has left or disconnected, and whatever others do to addresses |
| InnerStates.InnerState.DisconnectUser | crates/light-discord-server/src/main.rs:111-126 | the user is gone from users, addresses, shares and every room; the rooms left and whether it shared are reported |
| InnerStates.InnerState.RemoveFromRooms | crates/light-discord-server/src/main.rs:119-124 | the loop removes the user from every room, nobody else from any, and reports exactly the rooms it was in |
| InnerStates.InnerState.JoinVoice | crates/light-discord-server/src/main.rs:384-395 | the user is in this room and no other |
| InnerStates.InnerState.LeaveVoice | crates/light-discord-server/src/main.rs:400-410 | the user is in no room; the rooms left are reported |
| InnerStates.InnerState.VoiceTargets | crates/light-discord-server/src/main.rs:446-457 | the addresses of the other members, each member once |
| InnerStates.InnerState.OneRoomEachAlways | crates/light-discord-server/src/main.rs:56-61 | whatever critical sections this object has been through, nobody is in two rooms |
| InnerStates.InnerState.UserFollowsHistory | crates/light-discord-server/src/main.rs:56-61 | the same for an object and its history |
| ScreenShare.NormalizeRequestedCodecs | crates/light-discord-server/src/main.rs:1194-1213 | the loop keeps each normalised codec once, in order, and falls back to the default list |
| ScreenShare.NegotiateCodec | crates/light-discord-server/src/main.rs:1215-1222 | jpeg if and only if it is offered |
| ScreenShare.NormalizeTwice | crates/light-discord-server/src/main.rs:1190-1192 | normalising a codec twice is normalising it once |
| ScreenShare.DistinctCodecsContents | crates/light-discord-server/src/main.rs:1194-1202 | the list has no repetitions and exactly the non-empty codecs named |
| ScreenShare.DistinctCodecsInOrder | crates/light-discord-server/src/main.rs:1194-1213 | codecs are listed in the order first named; a request that names none stands for av1, vp9 and jpeg |
| ScreenShare.NegotiationSucceedsIff | crates/light-discord-server/src/main.rs:1194-1222 | a request is met if and only if it names jpeg in any case and spacing, or names nothing |
| ScreenShare.StartAcceptedIff | crates/light-discord-server/src/main.rs:471-529 | exactly which start requests are accepted, and that what is announced is well formed |
| ScreenShare.AdmitIff | crates/light-discord-server/src/main.rs:593-747 | exactly which frames are relayed, and that a relayed frame has the share's codec, mode and rate and at most its size |
| ScreenShare.FrameOfAcceptedStartIff | crates/light-discord-server/src/main.rs:459-747 | from the start request to the frames: for the share of an accepted request a frame is relayed exactly when it says jpeg twice, names the transport, carries data and is no larger than requested |
| ScreenShare.StartErrors | crates/light-discord-server/src/main.rs:471-529 | which of its errors a start request gets |
| ScreenShare.FrameErrors | crates/light-discord-server/src/main.rs:593-724 | which of its errors a frame gets |
| FrameOrigins.StartAnnouncesRequest | crates/light-discord-server/src/main.rs:531-573 | an accepted share has the size, mode, resolution and rate requested, the source without surrounding space, and jpeg over the one transport; text runs at 1 to 15 frames a second, game at 30 or 60 |
| FrameOrigins.AdmitCarriesPayload | crates/light-discord-server/src/main.rs:726-745 | a relayed frame has exactly the size, format, data, sequence and time offered |
| ServerInvariant.StepKeepsInv | crates/light-discord-server/src/main.rs:93-748 | with any number of connections per user, a step that does not overlap another share operation of its user keeps queues, tasks and the table of active shares in agreement |
| ServerInvariant.StepKeepsUsers | crates/light-discord-server/src/main.rs:93-126 | every step, overlapping or not, keeps each user registered with a connection of its own that has not begun to hang up |
| ServerRuns.TablesAreSerial | crates/light-discord-server/src/main.rs:93-589 | however the tasks are interleaved, the tables are those of an `InnerState` object that went through the same critical sections in the order they were entered |
| ServerRuns.ReachableRooms | crates/light-discord-server/src/main.rs:384-410 | in every reachable interleaving, with any number of connections per user, each user is in at most one room |
| ServerRuns.ReachableTables | crates/light-discord-server/src/main.rs:384-457 | in every reachable interleaving in which nobody has two open connections all members and sharers are registered |
| ServerRuns.ReachableQueues | crates/light-discord-server/src/main.rs:459-747 | in every reachable state without overlaps no frame on any queue follows its sender's stop without a start in between, and every frame fits the last start before it |
| ServerRuns.AloneRunsDoNotOverlap | crates/light-discord-server/src/main.rs:93-139 | while nobody has two open connections nothing overlaps and nobody enters a room or a share unregistered |
| ServerRuns.AnnouncementsAreTrueAtRest | crates/light-discord-server/src/main.rs:459-589 | in such a state, once everything about a user's share is sent, the last announcement on the queue of any other registered user is a start with exactly its latest accepted start, or a stop if it shares nothing |
| ServerRuns.QueuedFramesFitLatestStart | crates/light-discord-server/src/main.rs:593-747 | in every reachable state without overlaps every frame on every queue, whether or not the queue holds a start of its sender, was put there while its sender shared, and has at most the size and exactly the codec, mode and rate of the latest accepted start |
| FrameOrigins.QueuedFramesHaveOrigin | crates/light-discord-server/src/main.rs:459-747 | in every reachable state, with any number of connections, every frame on a queue was offered by its sender, registered then, with exactly this payload, every start was requested by its sender with these parameters, and every stop goes back to a stop or a hang-up |
| FrameOrigins.AcceptedFrameReachesOthers | crates/light-discord-server/src/main.rs:726-747 | an accepted frame can be sent out from any reachable state: it is then last on the queue of every other registered user, as offered, and on no other queue |
| ServerRuns.ShareIsLatestStart | crates/light-discord-server/src/main.rs:540-589 | over any run the table holds for each user its latest accepted start, or nothing if it has stopped or hung up since |
| ServerRuns.DropLineLeavesUser | crates/light-discord-server/src/main.rs:861 | a connection that is lost changes no table: its user stays as it was, registered with this very connection if it had no other |
| ServerRuns.EndedIffLost | crates/light-discord-server/src/main.rs:861 | with any number of connections per user, the connection a user is registered with has ended if and only if it was lost; one that hung up is nobody's |
| ServerRuns.StatusMeaning | crates/light-discord-server/src/main.rs:557-589 | the recursive reading of a queue agrees with positions: which announcement of a user is its last |
| SecondLogins.SecondConnectionBreaksTables | crates/light-discord-server/src/main.rs:111-139 | a run from the start: a user logs in twice, hangs up once and joins a room on the other connection, unregistered |
| SecondLogins.SecondConnectionBreaksQueues | crates/light-discord-server/src/main.rs:573-747 | a run from the start, for every accepted share and every frame admitted to it: a user logs in twice, stops the share on one connection while the other still delivers the frame, and the frame follows the stop |
| ShareOverlaps.EndingShareIsSafeIff | crates/light-discord-server/src/main.rs:111-139 | stopping a share or hanging up while sharing keeps queues in order and true, however the run goes on, if and only if no other connection of the user is about to send something about the share |
| ShareOverlaps.StopOverFrame | crates/light-discord-server/src/main.rs:573-589 | a stop or hang-up while another connection is about to send a frame: sending both puts the frame behind the stop |
| ShareOverlaps.StopOverStart | crates/light-discord-server/src/main.rs:573-589 | a stop or hang-up while another connection is about to announce the start: in the end the share seems to run and does not |
| ShareOverlaps.StartOverFrame | crates/light-discord-server/src/main.rs:540-573 | a start while another connection is about to send a frame that does not fit it: the frame ends up behind the start |
| ShareOverlaps.StartOverAnnouncement | crates/light-discord-server/src/main.rs:540-573 | a start while another connection is about to announce an earlier stop or start: the old announcement overtakes the new one and the next frame is out of order |
| ShareOverlaps.FrameOverStart | crates/light-discord-server/src/main.rs:593-747 | a frame offered before a listener has heard of the start it fits: it is sent behind the stop or start heard last |
| ServerRuns.StepKeepsRegisteredIff | crates/light-discord-server/src/main.rs:93-555 | one step keeps members and sharers registered if and only if it does not enter a room or a share for an unregistered user |
| ServerRuns.RegisteredThroughoutIff | crates/light-discord-server/src/main.rs:93-555 | members and sharers are registered at every moment of a run, with any number of connections, if and only if nobody ever enters a room or a share while unregistered |
| StorageModel.CutoffIsWindow | crates/light-discord-storage/src/lib.rs:1112-1114 | a time is at or after the cutoff if and only if it is at most that many days ago; neither saturation shows |
| StorageModel.QueryGivesHistory | crates/light-discord-storage/src/lib.rs:527-545 | in whatever order the messages are found, the answer is ascending, has min(limit, count) of the visible messages and omits none newer than one it has |
| StorageModel.HistoryIsPossible | crates/light-discord-storage/src/lib.rs:530-538 | conversely every such list is the answer for some order, so these are exactly the possible answers |
| StorageHistory.VisibleIff | crates/light-discord-storage/src/lib.rs:527-536 | over any run a history query chooses from exactly the messages that were saved in the channel, have not been deleted and are at most the visible days old |
| StorageHistory.SavedIffAmong | crates/light-discord-storage/src/lib.rs:514-525 | with fresh identifiers the message last saved under an id is the one saved |
| StorageRuns.ReachableAccounts | crates/light-discord-storage/src/lib.rs:328-512 | in every reachable store no two names share a user, lookups find exactly the indexed names and the stored name matches, and sessions validate exactly when their token is known |
| StorageRuns.StepKeepsAccounts | crates/light-discord-storage/src/lib.rs:328-496 | every operation keeps index, sessions and consumed invites pointing at existing users with the right name |
| StorageRuns.CreatedAccountIsFound | crates/light-discord-storage/src/lib.rs:417-512 | an account is created if and only if its name is free, is then found under every spelling, and its session validates to it |
| StorageHistory.SameNameIff | crates/light-discord-storage/src/lib.rs:1100-1102 | two names are one if and only if they agree up to surrounding space and the case of A to Z |
| Text.TrimTakesSpaceAway | crates/light-discord-storage/src/lib.rs:1100-1102 | trimming gives the core of a text, whatever white space surrounds it |
| StorageHistory.RedeemAnswer | crates/light-discord-storage/src/lib.rs:376-415 | which answer a request with an invite gets in any reachable state: whether the code has been issued and not used since, and whether the name is claimed; the new account is an ordinary one with the name and password given |
| StorageHistory.NewUserAnswer | crates/light-discord-storage/src/lib.rs:417-446 | the same without an invite, with the rights given |
| StorageHistory.SessionOfEphemeralUser | crates/light-discord-storage/src/lib.rs:468-512 | a user registered without an account has no password and no rights, and its session says so |
| StorageHistory.SessionAnswer | crates/light-discord-storage/src/lib.rs:481-496 | a session is created exactly for a user that exists, and nothing else changes |
| StorageRuns.BootstrapAdminIsFound | crates/light-discord-storage/src/lib.rs:328-358 | the administrator is found under the name, spelled as given, with the given password, an existing account keeps its id, and no other name is affected |
| StorageRuns.EphemeralUserIsUnnamed | crates/light-discord-storage/src/lib.rs:468-479 | no name leads to a user registered without an account, and no lookup changes |
| StorageRuns.InviteYieldsOneAccount | crates/light-discord-storage/src/lib.rs:376-415 | with fresh codes an invite has yielded one account if it is consumed and none otherwise |
| StorageRuns.InviteYieldsOneAccountIff | crates/light-discord-storage/src/lib.rs:366-415 | in any run, with any identifiers, an invite accounts for exactly the account it has yielded at every moment if and only if its code is never issued again once used |
| StorageRuns.ReissueYieldsSecondAccount | crates/light-discord-storage/src/lib.rs:366-415 | a used code that is issued again yields a second account under any free name |
| StorageRuns.ReissuedInviteIsRedeemable | crates/light-discord-storage/src/lib.rs:366-372 | issuing a consumed code again makes it redeemable, so codes must be fresh |
| StorageRuns.DeleteOutcome | crates/light-discord-storage/src/lib.rs:547-588 | which of the three answers a delete request gets, that a second one finds nothing, and that no other message changes |
| StorageHistory.DeleteAnswer | crates/light-discord-storage/src/lib.rs:547-588 | which of the three answers a delete request gets in any reachable state, in terms of what was saved, purged and deleted before and of who asks |
| StorageHistory.MessagesFollowRequests | crates/light-discord-storage/src/lib.rs:514-601 | over any run what is stored under an id, and whether it is marked as deleted, are what the requests say |
| StorageRuns.DeletedOnceAndForAll | crates/light-discord-storage/src/lib.rs:514-588 | over any run with fresh message ids a message is deleted at most once and is in no history afterwards |
| StorageRuns.AuditLogIsDeletions | crates/light-discord-storage/src/lib.rs:547-601 | the audit log is exactly the successful deletions not older than the last purge's cutoff, in order, each with the saved body, author and channel and the actor |
| StorageHistory.AuditLogIsRecords | crates/light-discord-storage/src/lib.rs:547-601 | the log is the record of each successful deletion, with actor, author, channel and body by name, that was at most the audit days old at the last purge |
| StorageRuns.AuditQueryIsTail | crates/light-discord-storage/src/lib.rs:603-612 | an audit query returns the last entries written, in the order they were written |
| StorageRuns.PurgeIsInvisible | crates/light-discord-storage/src/lib.rs:590-601 | a purge inserted at any earlier time changes no later history query |
| StorageRuns.PurgeKeepsWindow | crates/light-discord-storage/src/lib.rs:590-601 | a purge keeps exactly the messages and audit entries whose age is within their window, unchanged |
| MemoryStorages.MemoryStorage.EnsureBootstrapAdmin | crates/light-discord-storage/src/lib.rs:328-358 | the name's user, or a new one, is an administrator with this password |
| MemoryStorages.MemoryStorage.CreateUserWithInvite | crates/light-discord-storage/src/lib.rs:376-415 | the invite is checked before the name, and both are used up together or not at all |
| MemoryStorages.MemoryStorage.CreateUserWithPasswordHash | crates/light-discord-storage/src/lib.rs:417-446 | the account is created unless its name is taken |
| MemoryStorages.MemoryStorage.SoftDeleteMessage | crates/light-discord-storage/src/lib.rs:547-588 | result and storage are those of the model's deletion |
| MemoryStorages.MemoryStorage.PurgeExpired | crates/light-discord-storage/src/lib.rs:590-601 | what remains are the messages and audit entries at or after their cutoffs |
| MemoryStorages.MemoryStorage.RecentMessages | crates/light-discord-storage/src/lib.rs:527-545 | the answer is a history of the visible messages, whatever order the map yields |
| MemoryStorages.MemoryStorage.AuditLog | crates/light-discord-storage/src/lib.rs:603-612 | the newest entries, oldest first |
| MemoryStorages.MemoryStorage.AccountsAreSound | crates/light-discord-storage/src/lib.rs:328-512 | whatever an object has been through, no two names lead to one user, and lookups and sessions succeed exactly for indexed names and known tokens |
| MemoryStorages.MemoryStorage.QueriesChooseFrom | crates/light-discord-storage/src/lib.rs:527-545 | what the history queries of an object choose from, in terms of everything it has been through |
| MemoryStorages.MemoryStorage.InvitesYieldOneAccount | crates/light-discord-storage/src/lib.rs:360-415 | the same if-and-only-if on whatever an object has been through |
| MemoryStorages.MemoryStorage.LogIsDeletions | crates/light-discord-storage/src/lib.rs:514-601 | whatever an object has been through, its log is exactly the deletions from the last cutoff on, no message was deleted twice and none deleted is seen again |

## Left out

- Sockets, threads, the JSON framing, egui, cpal, screen capture, font discovery and the session-token file: plumbing around the parts modelled.
- Opus, Argon2, SHA-256, JPEG, base64 and UUIDs: foreign code; their results are parameters.
- The high-pass filter, mic ducking, active-speaker times and RMS smoothing: floating point, or presentation only.
- The legacy PCM path of the client (`crates/light-discord-client/src/voice.rs:519-550`): it bypasses the buffers, which is all that is said of it.
- `PostgresStorage`: SQL behaviour is not visible; nothing is claimed about it, and its history query takes the oldest rows where the one modelled takes the newest.
- Contents of chat, presence and voice-state frames: on the queues they are all one `Other` frame; a client is not told that somebody left a room by joining another.
- NoiseGates.NoiseGate.ProcessFrame: compares exact sums of squares with real thresholds, where the program takes an f32 square root.
- Resampler.ExactIffProductFits: target rates from 2^31 Hz on, whose cast to i32 is negative so that the program divides by one, are computed but nothing is claimed of them.
- Resampler.ResampleLinearMono: positions are unbounded integers; `Resampler.PositionsFit` bounds the inputs for which the 64-bit ones agree.
- VoiceProtocol.PlayedFramesWereSent: one session per user; a sender that restarts at sequence 0 is not covered, and whether frames are dropped as muted or refused by the encoder is left to the choice of steps.
- ServerRuns.ReachableTables: for runs in which a user connects again only after its previous handler has returned; `ServerRuns.RegisteredThroughoutIff` covers all others.
- ServerRuns.ReachableQueues: for runs in which share operations of one user do not overlap; `ShareOverlaps.dfy` covers the overlaps.
- StorageRuns.AuditLogIsDeletions: assumes that clock readings do not decrease and message ids are fresh; purges read the clock before taking the lock, and here the two are one step.
