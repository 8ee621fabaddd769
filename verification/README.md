# aes67-srt verification

A model in Dafny 4.11 of the audio path of aes67-srt, and proofs about it. `dafny verify dfyconfig.toml`
checks the whole project.

A device period is cut into blocks of eight channels, framed, checksummed and cut into messages for a link
that keeps order and may lose messages. The receiver joins messages into frames, reads and unpacks them,
holds periods by sample position, and plays them through a resampler whose ratio a control loop steers, and
a delay line. Worker threads share the encoding, and two rings join the engine to device callbacks.

Code that works by changing fields and buffers is modelled as classes and methods with loops; each is proved
against a function of its old state, and the results below are proved about those functions. Concurrent code
is modelled as steps that interleave.

| file | models |
|---|---|
| Arithmetic, Bytes | products and quotients; octets and fixed-width integers |
| Crc32 | the check of IEEE Std 802.3-2018 section 3.2.9 as long division, and the table-driven form |
| WireFrame, FrameLength | the frame, `encode` and `decode`; `frame_length` on prefixes |
| Layout | the frame octet by octet, and what each refusal says of the frame or octets refused |
| Straddle | damage across the boundary between a frame's body and its check |
| Fragments | fragmenting, the `Reassembler`, and what a lossy in-order link delivers |
| Patchwork | frames joined from messages of several, and which of them the decoder reads |
| BlockMap | the audio, block-count and block checks of `Config::validate`, and `fill_default_blocks` |
| Packing | `pack_period` and `unpack_frame` as functions, what each accepts, and when they are inverse |
| Transport, Engine, EndToEnd | the transmit step and the receive turn, the engine's steps in place, and the end-to-end results |
| Turns | how far a receiving turn gets, and what it counts |
| SenderRuns, FailedSteps, Lifetime, Oversize | runs of transmit steps, and those that fail part way; whole runs of sender, link, receiver and device; frames too large to send |
| Playout, PlayoutBuffer | the playout buffer as a map from position to period, and as the ring of slots it is |
| ParallelFor | the worker pool, a step at a time |
| RingIndex, FloatRing, SharedRing | ring storage and the two single-producer, single-consumer rings |
| Samples, Delay, DelayLine | sample codes and blends, the delay over an unbounded history, the delay line |
| Resampler | the carry between playout buffer and converter |
| RatioControl | the control loop over the real numbers |

## Where the code does less than its comments say

Each is proved: the exact condition under which the promise holds, and that the failing side is reached.

- A pool call may have at most one job more than the last call that used the workers. With two more, a worker
  that wakes late runs an index twice (`ParallelFor.SafeIffNoGrowthByTwo`). The engine never varies the count.
- A push one period past a full window, with the head at a hole and the next period held, moves the head onto
  a held period and does not extend the run; the next take plays silence over audio that is held and no
  counter records it (`Playout.PushStaysMaximal`, `Playout.SlideLosesHeldAudio`, `Playout.SlideHappens`).
- A frame larger than 255 messages carry is encoded, becomes no message at all, and is counted as sent
  (`Oversize.TooLargeIsSilent`, `Engine.Engine.TransmitFrame`). Validation admits a map of six blocks, one of them Opus, whose every frame is
  such (`Oversize.MixedEngineIsSilent`); without Opus every validated engine's frames fit (`EndToEnd.ReadyFits`).
- The round trip of a period is the identity only for block lists in index order; validation accepts any
  order, two swapped blocks among them (`Packing.RoundTripIffInIndexOrder`, `Packing.SwappedMapMisplaces`).
- Losses can make the reassembler deliver a frame that did not arrive whole exactly when two of the run have the
  same sequence and the same number of messages, two or more (`Fragments.SafeIffNoTwins`). A transmit step that
  fails part way leaves its sequence to the next, and does make such a pair. What is joined carries the check of
  the frame it ends like, so the decoder refuses it unless two different starts leave the check's register the
  same (`FailedSteps.FailedStepSplices`); every frame has such another (`Patchwork.HeadsDoMeet`). But for that, all
  that is handed over after any run of steps was captured at its position (`FailedSteps.HandedWasCaptured`).
- Damage inside thirty-two consecutive bits of the body is always seen, and inside four consecutive octets
  anywhere, but for one pattern across the boundary between body and check: 0x61 and 0xD8 flipped in the last two octets of the body and a matching change to the first two of
  the check (`Straddle.StraddleIsRefused`, `Straddle.StraddleIsRead`).
- Ring indices that run on past two to the sixty-fourth find their slots only if the capacity divides it
  (`RingIndex.SlotsSurviveWrapIff`); the shared ring's 4096 does.
- The shared ring's drop counter counts some lost frames again when a write starts lapped
  (`SharedRing.DroppedExactlyIff`); three writes in a row do it (`SharedRing.ThreeWritesRecount`).
- A read the producer overruns can return the newest frame where the oldest was (`SharedRing.OverrunTears`,
  `SharedRing.OverrunHappens`).
- The position a resampler pull reports falls behind the sender's by exactly the frames missing in the holes crossed
  (`Resampler.Resampler.ReportedPositionIsTrueIff`, `Resampler.HoleIsCounted`).
- In `SharedRing::read` the branch that moves the index with nothing to take (src/audio/shared_ring.cpp:116-119)
  cannot be reached.

## Model

| member | source | states |
|---|---|---|
| Crc32.PolynomialIsTheGenerator | src/wire/frame.cpp:103-113 | The constant in the code, read low bit first, is the generator polynomial of IEEE Std 802.3-2018 section 3.2.9 without its leading term |
| Crc32.RegisterIsLongDivision | src/wire/frame.cpp:106-116 | Shifting the register through a message leaves the remainder of dividing the message by the generator |
| Crc32.CrcIsTheStandardsFrameCheck | src/wire/frame.cpp:103-124 | On every octet string the checksum is the frame check sequence of section 3.2.9: first 32 bits complemented, divided, remainder complemented, sent high bit first |
| Crc32.TableTurn | src/wire/frame.cpp:118-122 | One table lookup does to the register what eight single-bit steps with that octet do |
| Crc32.BuildTable | src/wire/frame.cpp:104-116 | The table the code fills holds, at every octet, that octet shifted through eight times |
| Crc32.Checksum | src/wire/frame.cpp:103-124 | The table-driven loop returns the bit-by-bit check value on every octet string |
| Crc32.StepIsInjective | src/wire/frame.cpp:112 | A step of the register loses nothing: equal registers come from equal registers |
| Crc32.FeedKeepsRegistersApart | src/wire/frame.cpp:119-122 | Two different registers fed the same octets stay different |
| Crc32.ShortBurstIsSeen | src/wire/frame.cpp:119-122 | Two different runs of up to thirty-two bits leave one register in different states |
| Crc32.BitBurstChangesCrc | src/wire/frame.cpp:119-123 | Two strings of one length that differ, and only within thirty-two consecutive bits as transmitted, at any bit, have different checksums |
| Crc32.BurstChangesCrc | src/wire/frame.cpp:119-123 | So do two that differ only within four consecutive octets |
| Bytes.ReadBackBigEndian | src/wire/frame.cpp:9-43 | A number written in network order reads back as itself |
| Bytes.WriteBackBigEndian | src/wire/frame.cpp:27-43 | Octets read in network order write back as themselves |
| Bytes.NetworkOrder | src/wire/frame.cpp:9-43 | Network order is the most significant octet first, spelled out for two and four octets |
| Bytes.BigEndianAt | src/wire/frame.cpp:9-43 | Octet k from the end counts 256 to the power k, for any length |
| Bytes.ReverseOrder | src/wire/frame.cpp:196-199 | The fragment header's sequence has its least significant octet first |
| WireFrame.RefusedExactly | src/wire/frame.cpp:367-408 | The encoder refuses a frame exactly when the layout cannot carry it, whatever the order of its checks |
| WireFrame.CheckBlocks | src/wire/frame.cpp:367-408 | The loop over the blocks finds the first defect in the order the encoder looks, and none when there is none |
| WireFrame.Encode | src/wire/frame.cpp:359-449 | Writes exactly the frame laid out by the format with the check of its body, or names the first defect and writes nothing |
| WireFrame.Decode | src/wire/frame.cpp:451-572 | Returns exactly what the format says of the octets, every refusal included, whatever the octets are |
| WireFrame.ReadBlocks | src/wire/frame.cpp:496-568 | The cursor loop with its seen flags parses the block list and stops at the first defect |
| WireFrame.WrittenFrameParses | src/wire/frame.cpp:359-572 | decode(encode(f)) is f for every frame the encoder accepts |
| WireFrame.ParsedFrameWrites | src/wire/frame.cpp:451-572 | Octets the decoder accepts are the encoding of what it returns, and that frame is encodable |
| WireFrame.ParseExactly | src/wire/frame.cpp:451-572 | Octets decode to a frame if and only if the frame is encodable and the octets are its encoding: one representation per frame |
| WireFrame.BurstIsRefused | src/wire/frame.cpp:476-483 | Octets that differ from an encoded frame of their length only within thirty-two consecutive bits before the check, at any bit, are refused |
| WireFrame.DamageIsRefused | src/wire/frame.cpp:476-483 | Octets that differ from an encoded frame of their length only within four consecutive octets before the check, or only in the check, are refused |
| Layout.WrittenFrameLies | src/wire/frame.cpp:410-449 | A written frame octet by octet: `A67S`, version 1, no flags, link, block count, a zero, sequence and position in eight octets each; then each block where the last ended, with its index, payload code, eight-octet header and octets; then the check of all that |
| Layout.NotWrittenFor | src/wire/frame.cpp:367-408 | An encoder's refusal names a defect the frame has |
| Layout.NotReadFor | src/wire/frame.cpp:451-572 | A decoder's refusal names a defect the octets have, found by walking the lengths they state |
| Layout.MeasuredExactly | src/wire/frame.cpp:134-191 | For any octets: each verdict of `frame_length` if and only if its own condition on them holds, the ceiling of 262144 octets included, and the total when known |
| Straddle.UnseenExactly | src/wire/frame.cpp:103-124 | Of all changes to the last one, two or three octets fed, none but one pattern of two leaves as many low octets of the register alone |
| Straddle.ChecksAgreeIff | src/wire/frame.cpp:103-124 | Two messages that differ in their last one, two or three octets have checks agreeing in as many last octets if and only if they differ by that pattern |
| Straddle.StraddleIsRefused | src/wire/frame.cpp:476-483 | Octets that differ from an encoded frame only within four consecutive octets across the start of the check are refused, but for that pattern |
| Straddle.StraddleIsRead | src/wire/frame.cpp:476-483 | And for every encodable frame whose last block has two octets that pattern is read, as another frame |
| FrameLength.FrameLengthOf | src/wire/frame.cpp:134-191 | The header walk returns the verdict and total of the format on every prefix |
| FrameLength.VerdictIsStable | src/wire/frame.cpp:134-191 | Once a prefix of any octets is known or invalid, every longer prefix has the same verdict and total |
| FrameLength.WrittenPrefixMeasures | src/wire/frame.cpp:134-191 | On a prefix of an encoded frame within the ceiling the verdict is the encoded size exactly from the last block header on, incomplete before, and never invalid |
| Fragments.HeaderReadsBack | src/wire/frame.cpp:193-222 | A fragment header reads back from a message that starts with it |
| Fragments.HeaderLies | src/wire/frame.cpp:193-202 | A fragment header octet by octet: `AF`, the sequence least octet first, index, count |
| Fragments.HeaderIsRead | src/wire/frame.cpp:204-222 | Octets are a fragment if and only if there are eight, they start with `AF` and the index is below the count; the fields are read from their places |
| Fragments.FragmentCount | src/wire/frame.cpp:224-231 | No more than 255 messages, and none exactly for an empty frame or one too large for 255 |
| Fragments.MessagesFill | src/wire/frame.cpp:233-258 | Every message but the last is 1316 octets and carries the next 1308 of the frame, the last the rest, each under its header; no more messages than that takes |
| Fragments.SentIff | src/wire/frame.cpp:224-258 | A frame becomes messages if and only if it has octets and at most 333540 |
| Fragments.NextFragment | src/wire/frame.cpp:233-258 | Called from offset zero on, returns the messages of the frame one by one and then stops |
| Fragments.Reassembler.Feed | src/wire/frame.cpp:268-325 | Feeding one message changes every field as the reassembly rules say, for any octets |
| Fragments.RefusedExactly | src/wire/frame.cpp:268-309 | A message is refused if and only if it has octets and is no fragment, or its count contradicts the frame it goes on with; what was joined is then gone and nothing counted; a message without octets changes nothing |
| Fragments.Reassembler.TakeFrame | src/wire/frame.cpp:343-357 | Hands over the frame if one is complete and resets everything but the drop count |
| Fragments.Reassembler.Abandon | src/wire/frame.cpp:260-266 | Forgets the frame under way and keeps the drop count |
| Fragments.RestOfFrame | src/wire/frame.cpp:268-325 | From any point of a frame on track it is delivered whole if and only if the rest arrives, and is counted among the undelivered otherwise |
| Fragments.OneFrame | src/wire/frame.cpp:268-325 | One frame, into any receiver that a run of messages can leave with no such frame open: delivered unchanged if and only if all its messages arrive |
| Fragments.DeliveredExactly | src/wire/frame.cpp:260-357 | Under any losses of an in-order link, frames no two of which share sequence and message count are delivered exactly when whole, once, in order, unchanged; with distinct sequences, frames started are delivered, counted dropped, or the one still open |
| Fragments.WholeFrameIsDelivered | src/wire/frame.cpp:260-357 | Whatever messages came before, of whatever origin, a frame all of whose messages arrive in a row is delivered unchanged |
| Fragments.TwinsSplice | src/wire/frame.cpp:280-303 | For any two frames of a list that share sequence and message count, and any cut between messages, some losses deliver the start of one joined to the rest of the other and nothing else, though neither arrived whole |
| Fragments.SafeIffNoTwins | src/wire/frame.cpp:260-357 | For every list of sendable frames: under all losses exactly the whole frames are delivered if and only if no two share sequence and message count of two or more |
| Patchwork.DeliveredArePatched | src/wire/frame.cpp:268-325 | Whatever messages of some frames arrive, lost, repeated or out of order: each piece of a delivered frame is that piece of some frame of one sequence and message count |
| Patchwork.ReadPatchIsSent | src/wire/frame.cpp:451-483 | Such a frame that the decoder reads is one of those sent, unless its head and the head of the one it ends like differ and leave one register |
| Patchwork.JoinedIsReadIff | src/wire/frame.cpp:451-572 | The start of one frame joined to the rest of another under the same header is read if and only if the two starts leave one register, and then as the frame of both blocks' octets |
| Patchwork.HeadsDoMeet | src/wire/frame.cpp:103-124 | Every encodable frame whose first block has five octets has another under the same header, different there, whose starts leave the same register |
| BlockMap.Validate | src/config.cpp:371-560 | Accepts a configuration if and only if rate, channels, format, period and block count are sound and its blocks claim every index and channel at most once and in range; an error names a defect that is there |
| BlockMap.ValidatePeriod | src/config.cpp:391-417 | One millisecond without Opus, one of the six Opus frames with it, and the refusal that fits otherwise |
| BlockMap.ValidateBlock | src/config.cpp:503-539 | One turn of the loop over blocks, with its two arrays of seen flags, accepts the block exactly when the blocks so far stay sound |
| BlockMap.ValidateChannels | src/config.cpp:514-530 | The inner loop accepts a block's channels exactly when all are in range and carried by nothing before |
| BlockMap.Pigeonhole | src/config.cpp:503-539 | As many distinct numbers below n as n are all of them |
| BlockMap.EveryChannelIsCarried | src/config.cpp:503-539 | A validated map carries every device channel, at some block and slot |
| BlockMap.CarriedOnce | src/config.cpp:522-530 | And carries none twice: with the last, the block lists partition the channels |
| BlockMap.EveryIndexIsListed | src/config.cpp:505-513 | Every block index below the count belongs to a listed block |
| BlockMap.FillDefaultBlocks | src/config.cpp:290-300 | The default map is in index order, carries channel k at place k, plain 24-bit at no gain, and validates for every block count the validator admits |
| Packing.AtIsInjective | src/engine.cpp:290-298 | Two samples of a period are at one place only if they are the same frame and channel |
| Packing.FlattenSlice | src/engine.cpp:296-314 | The octets of sample k of a block lie at k times the sample width |
| Packing.Placing | src/engine.cpp:412-438 | The placing loop puts, for any number of channels a block states, the sample of each frame and slot on the slot's channel, and touches no other channel |
| Packing.PacksExactly | src/engine.cpp:252-352 | A period packs if and only if each listed block has eight channels of the device and none is Opus; then each is carried in its place with its index, width and samples, under our link and position; a refusal names a defect the map has |
| Packing.UnpacksExactly | src/engine.cpp:354-442 | A frame unpacks if and only if it is of our link, has as many blocks as are listed, each index once and listed, each of the device's width, and each long enough for its channels |
| Packing.RefusedFor | src/engine.cpp:354-442 | A refusal to unpack names a defect the frame, or the map, has |
| Packing.UnpackedLands | src/engine.cpp:370-438 | With a validated map, whatever frame unpacks, the samples of each of its blocks are on the channels its index names |
| Packing.UnpackOfPack | src/engine.cpp:252-442 | A packed period always unpacks, the samples of each listed block at the channels of the block its index names |
| Packing.InOrderIsIdentity | src/engine.cpp:252-442 | When the list is in index order, what comes out is the period that went in |
| Packing.RoundTripIffInIndexOrder | src/engine.cpp:275-416 | For every validated map: unpack of pack is the identity on every period if and only if the block list is in index order |
| Packing.MisplacedSample | src/engine.cpp:275-416 | Any validated list out of order has a period that comes back changed |
| Packing.SwappedMapMisplaces | src/engine.cpp:275-416 | A validated map of two swapped blocks has a period that comes back changed |
| Engine.PackOne | src/engine.cpp:277-318 | The gathering loops over frames and slots produce the wire block, or the first refusal |
| Engine.PackPeriod | src/engine.cpp:252-352 | Produces the packed frame for every map, valid or not, with the same refusals in the same order |
| Engine.UnpackFrame | src/engine.cpp:354-442 | Fills the device period in place exactly as unpacking says, if and only if the frame is of our link and fits; otherwise names a defect it has |
| Transport.TurnHearsAPrefix | src/engine.cpp:528-608 | However the budgets of 8 frames and 24 messages cut what waits, a turn does what hearing a prefix of it message by message does, leaves the rest, and leaves no complete frame behind |
| Transport.DryIff | src/engine.cpp:538-546 | A drain asks the link for more than there is exactly when all of it was fed, within the budget, and completed no frame |
| Transport.ReadsWholePeriods | src/engine.cpp:572-582 | Whatever a received frame holds, what is handed to the buffer is one whole period |
| Transport.ReadsExactly | src/engine.cpp:566-582 | Octets ask for a push if and only if they decode and unpack; the frame is then of our link, and the push is for its position and its samples |
| Turns.TurnStopsFirst | src/engine.cpp:528-608 | A turn's nested loops come to one rule: it hears message by message until all are heard, eight frames are complete, twenty-four messages in a row have completed none, or a complete frame is empty, whichever is first; a failed link fails it exactly when all is heard and none of the others is so |
| Turns.WholeFrameInATurn | src/engine.cpp:528-608 | Whatever the receiver is in the middle of and whatever waits behind: a turn whose inbox starts with all messages of a sent frame pushes that frame's period at its position, and hears on |
| Turns.HeardIsBooked | src/engine.cpp:549-604 | Over any messages: every frame completed with octets is received or refused, every message not ours refused, and the frames received are exactly what the buffer took in |
| Engine.Engine.SendFrame | src/engine.cpp:463-472 | Hands the link the frame's messages in order, all of them or as many as it accepts |
| Engine.Engine.TransmitFrame | src/engine.cpp:460-477 | Encodes and sends one packed frame as specified; a frame too large for any messages is counted as sent with nothing on the link |
| Engine.Engine.StepTransmit | src/engine.cpp:444-478 | Puts on the link what the specified step puts there and counts it; sequence and position advance together, and a failure at any point leaves both where they were |
| Engine.Engine.TransmitLoop | src/engine.cpp:860-881 | The loop over steps, going on after failures, leaves the link and the sender as the run of specified steps does |
| Engine.Engine.DrainMessages | src/engine.cpp:534-564 | Feeds waiting messages until a frame is complete or the budget is spent, counting foreign ones; fails exactly if it comes to ask a link that has failed |
| Engine.Engine.HandleFrame | src/engine.cpp:566-604 | Decodes, unpacks and holds a complete frame, counting it received or refused |
| Engine.Engine.ReceiveIntoBuffer | src/engine.cpp:528-608 | One receive turn over the whole engine state is the turn of the specification, a link that fails outright included |
| EndToEnd.FramedPeriod | src/engine.cpp:252-461 | Every period of a prepared engine makes an encodable frame of one fixed size that unpacks to that period |
| EndToEnd.ReadyFits | src/config.cpp:391-417 | Every frame of a validated engine without Opus fits in 255 messages |
| EndToEnd.AfterAdvances | src/engine.cpp:474-476 | Counting steps, wrapped at 64 bits, is taking them one by one |
| EndToEnd.AfterWraps | src/engine.cpp:474-476 | Sequence and position wrap at two to the sixty-fourth |
| EndToEnd.SequencesApart | src/engine.cpp:466-474 | Consecutive 64-bit sequences stay distinct in their low 32 bits for two to the thirty-second frames |
| EndToEnd.SentFramesApart | src/engine.cpp:444-478 | The frames of a run of up to two to the thirty-second steps carry pairwise different sequences in their fragment headers |
| EndToEnd.HeardIsLive | src/engine.cpp:528-608 | What hearing messages does to the playout buffer is one push for each frame read, and nothing else |
| EndToEnd.HandedExactly | src/engine.cpp:444-608 | End to end, for any losses: the buffer is handed exactly the periods all of whose messages arrived, once, in order, octet for octet, each at its position, positions increasing |
| EndToEnd.PlayedAsCaptured | src/engine.cpp:444-608 | And whatever is played, takes and discards anywhere among the arrivals, is the period captured at that position, in increasing order of position |
| SenderRuns.TransmittedIsOnWire | src/engine.cpp:444-478 | Over a link that accepts everything, the steps of a run put exactly the messages of its frames on the link |
| SenderRuns.EveryLossIsMasked | src/wire/frame.cpp:224-258 | Every in-order subsequence of what a run put on the link is some losses frame by frame |
| SenderRuns.SeveralMessagesIff | src/wire/frame.cpp:224-231 | Frames need several messages, and so can be cut, exactly in engines of two blocks or more |
| SenderRuns.WholePeriodIsHanded | src/engine.cpp:444-608 | Whatever was sent and lost before, failed steps included, a period all of whose messages arrive in a row is handed to the buffer at its position |
| FailedSteps.FailedStepSplices | src/engine.cpp:444-478 | After a step the link cuts short at any message the next reuses the sequence; losing as many of its first messages joins the two periods' frames, and the joined octets are handed over, at the sender's position, if and only if the two starts leave one register, and refused otherwise |
| FailedSteps.HandedWasCaptured | src/engine.cpp:444-608 | For any run of steps, failed ones included, and whatever arrives of it in whatever order: every period handed over was captured at that position, or two different heads leave one register |
| FailedSteps.PlayedWasCaptured | src/engine.cpp:444-608 | Likewise every period played, with turns, takes and discards anywhere, positions increasing |
| Lifetime.LivedIsLive | src/engine.cpp:528-608 | Over any interleaving of arrivals, receive turns, takes and discards, buffer and playback are those of hearing the messages one by one |
| Lifetime.LivedAsCaptured | src/engine.cpp:444-608 | Over the receiver's own state and turns, under any losses: whatever is played is a captured period all of whose messages arrived, at its position, positions increasing |
| Lifetime.CapturedToPlayed | src/engine.cpp:444-608 | From the sender's own steps through any losses to the receiver's turns and the device's takes, anyhow interleaved: every period played is one captured, octet for octet, at its position, in increasing order |
| Lifetime.InOrderIsAccounted | src/engine.cpp:528-608 | Over the receiver's own turns, under any losses of an in-order link, for a sender that starts on a period boundary: no period that arrived whole is late or refused, and in a buffer with slots each is played, dropped, held, or skipped while held; once all has arrived and been heard, all of them have been handed over |
| Oversize.TooLargeIsSilent | src/wire/frame.cpp:224-258 | Of the frames the encoder accepts exactly those larger than 255 messages carry become no message at all |
| Oversize.MixedEngineIsSilent | src/config.cpp:391-410 | A validated map of five 24-bit blocks and one Opus block, at 2880 frames a period, makes such a frame of every period |
| Playout.PushKeeps | src/clock/playout_buffer.cpp:79-162 | A push keeps the window: all held periods aligned and inside it, every aligned position of the run held; with a slot, the ledger too |
| Playout.TakeKeeps | src/clock/playout_buffer.cpp:164-208 | A take keeps the window, and moves the head one period whenever anything is held |
| Playout.TakeExactly | src/clock/playout_buffer.cpp:164-208 | A take plays the head of the run, or crosses one period of a hole if anything is held, or only counts an underrun; every count; with a maximal run it plays if and only if the head is held |
| Playout.EveryTakeIsCounted | src/clock/playout_buffer.cpp:164-208 | Over every run each take has played a period or is counted an underrun |
| Playout.DiscardKeeps | src/clock/playout_buffer.cpp:210-231 | A discard keeps the window and a maximal run |
| Playout.DiscardLeavesNewest | src/clock/playout_buffer.cpp:210-231 | A discard leaves the newest of the run, as many whole periods as there is room for, drops nothing if all fits, counts what it drops, and changes nothing else |
| Playout.PushIsNamedAndCounted | src/clock/playout_buffer.cpp:79-162 | Every arrival is named and counted: held if and only if stored or overrun, overrun if and only if held audio was surrendered; otherwise the late or the refused count is all that changes; without slots it is counted dropped |
| Playout.PushExactly | src/clock/playout_buffer.cpp:79-162 | Each report of a push if and only if its own condition on what was there holds, in the source's order, with every count, the head moved for an arrival past the window, what is dropped and what is held |
| Playout.PushNeverOverwrites | src/clock/playout_buffer.cpp:146-161 | A held period is never replaced |
| Playout.PushStaysMaximal | src/clock/playout_buffer.cpp:115-161 | A push leaves the run as long as what is held allows if and only if it does not slide the head one period off a hole onto a held period |
| Playout.TakeSkipsIffNotMaximal | src/clock/playout_buffer.cpp:173-195 | A take conceals audio it holds if and only if the run is shorter than what is held allows |
| Playout.LedgerBalances | src/clock/playout_buffer.cpp:65-231 | Over every run: frames pushed are played, dropped, held, or skipped while held |
| Playout.WithoutSlidesNothingIsSkipped | src/clock/playout_buffer.cpp:115-231 | Over every run without such a slide the run stays maximal and nothing is skipped, so the plain ledger is exact |
| Playout.SlideLosesHeldAudio | src/clock/playout_buffer.cpp:117-195 | After such a slide the next take crosses a held period as silence, and no drop counts it |
| Playout.SlideHappens | src/clock/playout_buffer.cpp:117-143 | Three operations from empty reach the state in which the next push slides |
| Playout.PlaysWhatWasPushed | src/clock/playout_buffer.cpp:164-208 | Over every run positions play in strictly increasing order, and what plays at a position is what was pushed there |
| Playout.InOrderIsNeverLate | src/clock/playout_buffer.cpp:173-195 | Over every run whose pushes are usable and in order, a period or more apart, none is late or refused, whatever holes takes have crossed, and each is stored |
| Playout.PlayedIsCounted | src/clock/playout_buffer.cpp:164-208 | The frames counted as played are those of the periods returned |
| Playout.ReachedInRealTime | src/clock/playout_buffer.cpp:173-195 | A period held d periods ahead is at the head after d takes, and the next take plays it |
| Playout.NothingHeldNothingMoves | src/clock/playout_buffer.cpp:164-185 | With nothing held a take changes the underrun count only |
| PlayoutBuffer.SlotIsUnique | src/clock/playout_buffer.cpp:35-37 | Two aligned positions of one window never share a slot |
| PlayoutBuffer.SlotTells | src/clock/playout_buffer.cpp:35-37 | From the head on a slot holds its position exactly when the map does: a stale slot is never read as held |
| PlayoutBuffer.RepresentsStored | src/clock/playout_buffer.cpp:146-157 | Storing in the slot of a new position of the window loses no held period |
| PlayoutBuffer.PlayoutBuffer.FramesHeldBelow | src/clock/playout_buffer.cpp:65-77 | The scan over the slots counts exactly the frames held below a position |
| PlayoutBuffer.PlayoutBuffer.NextHeldAtOrAfter | src/clock/playout_buffer.cpp:233-242 | Finds the first held position from a position on, or none |
| PlayoutBuffer.PlayoutBuffer.AdvanceContiguous | src/clock/playout_buffer.cpp:244-252 | Extends the run over every period held in sequence and no further |
| PlayoutBuffer.PlayoutBuffer.Push | src/clock/playout_buffer.cpp:79-162 | The ring with its stale slots does what the map does, in every field and in the status returned |
| PlayoutBuffer.PlayoutBuffer.Take | src/clock/playout_buffer.cpp:164-208 | Likewise for a take, and the period returned |
| PlayoutBuffer.PlayoutBuffer.DiscardToLevelMs | src/clock/playout_buffer.cpp:210-231 | Likewise for a discard; of a maximal run it keeps what lasts no longer than the milliseconds given, none if they are negative, and no whole period less |
| ParallelFor.StepKeeps | src/parallel_for.cpp:52-123 | Every step of every thread, and every call that grows by at most one job, keeps the invariant |
| ParallelFor.InvIsSafe | src/parallel_for.cpp:52-123 | In every state of the invariant: no index run twice or out of range, no missing job called, no underflow, all run when the caller is back |
| ParallelFor.WaitKeeps | src/parallel_for.cpp:119-122 | The caller returns only when every index of the call has been run once |
| ParallelFor.EveryIndexOnce | src/parallel_for.cpp:52-123 | Over every interleaving and any sequence of calls of which none grows by more than one: each index once, with its own call's job, the outstanding count never below zero, all run on return |
| ParallelFor.SafeFromTheStart | src/parallel_for.cpp:52-123 | And so in every run that starts as a pool does |
| ParallelFor.InlineExactly | src/parallel_for.cpp:11-28 | A pool started with so many workers has them if they are two or more; a call on it runs inline, each index once, if and only if it has none or the call one job or none |
| ParallelFor.NeverStuck | src/parallel_for.cpp:52-123 | While the caller sleeps some worker can take a step |
| ParallelFor.WaitingEnds | src/parallel_for.cpp:119-122 | Every step of any thread brings a waiting caller nearer to its return |
| ParallelFor.ReturnsInTime | src/parallel_for.cpp:119-122 | No schedule keeps a caller waiting longer than that measure, at most 26 steps a worker and one, and three actions more for each spurious wake |
| ParallelFor.GrowthRunsTwice | src/parallel_for.cpp:67-102 | The bound is exact: for any two workers or more and any call two or more jobs larger than the last one that used them, some schedule runs one index twice |
| ParallelFor.SafeIffNoGrowthByTwo | src/parallel_for.cpp:52-123 | For any two workers or more and any sizes of calls: every schedule, restarts included, is safe if and only if no call has two jobs more than the last one that used the workers |
| RingIndex.DistanceSurvivesWrap | src/audio/float_ring.hpp:18-21 | The fill level survives the wrap of the 64-bit counters |
| RingIndex.SlotsSurviveWrapIff | src/audio/float_ring.hpp:18-21 | The slots survive it if and only if the capacity divides two to the sixty-fourth |
| RingIndex.CopyIn | src/audio/float_ring.cpp:50-58 | Copying in two pieces stores frame i in the slot of counter plus i and nothing elsewhere |
| RingIndex.CopyOut | src/audio/float_ring.cpp:80-88 | Copying out in two pieces returns the frames of consecutive counters |
| RingIndex.StoredAppend | src/audio/float_ring.cpp:50-60 | Storing after the newest frame keeps every frame of the window readable |
| FloatRing.FloatRing.Open | src/audio/float_ring.cpp:10-25 | Opens for two frames and a channel or more, and otherwise changes nothing |
| FloatRing.FloatRing.Write | src/audio/float_ring.cpp:34-63 | Accepts what fits, in order, and counts the rest |
| FloatRing.FloatRing.Read | src/audio/float_ring.cpp:65-92 | Returns the next accepted frames that are there, and counts what is missing |
| FloatRing.NoSlotShared | src/audio/float_ring.cpp:34-92 | No slot is being written while it is being read, at any point of overlapping calls |
| FloatRing.StepKeeps | src/audio/float_ring.cpp:34-92 | Every single-frame step of either side keeps the two indices within a capacity and the unread frames intact |
| FloatRing.ReadsArePrefix | src/audio/float_ring.cpp:34-92 | Under every interleaving the completed reads are a prefix of the accepted frames |
| FloatRing.WriteIsAppended | src/audio/float_ring.cpp:34-63 | Whatever the reader does meanwhile, a write publishes the front of its offer, as much as there was room for when it began |
| FloatRing.ReadIsTaken | src/audio/float_ring.cpp:65-92 | Whatever the writer does meanwhile, a read returns the next accepted frames, as many as it asked for or were there when it began |
| FloatRing.NeverBlocked | src/audio/float_ring.cpp:34-92 | A call that has begun always has a step to take |
| SharedRing.ReadReturns | src/audio/shared_ring.cpp:98-132 | A read returns the accepted stream from the later of its index and the oldest frame not overwritten, as much as asked for or there, and counts what it returns and what is missing |
| SharedRing.WriteKeepsNewest | src/audio/shared_ring.cpp:56-92 | After a write a ring's worth of the stream ends as if every frame offered had been accepted; what the offer has too much and what falls out unread is counted dropped |
| SharedRing.EveryFrameAccounted | src/audio/shared_ring.cpp:56-132 | Over every run of whole calls each offered frame is read, lost or still readable, and the drop counter counts at least the lost ones |
| SharedRing.DroppedExactlyIff | src/audio/shared_ring.cpp:74-80 | The drop counter is exact if and only if no write starts with overwritten frames unread |
| SharedRing.ThreeWritesRecount | src/audio/shared_ring.cpp:74-80 | For every capacity, three writes with no read lose two frames and count three |
| SharedRing.SharedRing.Attach | src/audio/shared_ring.cpp:41-47 | Takes over storage and counters somebody else owns as they are |
| SharedRing.SharedRing.Detach | src/audio/shared_ring.cpp:49-54 | Lets go of them |
| SharedRing.SharedRing.Write | src/audio/shared_ring.cpp:56-92 | Keeps the newest, in the ring and in every counter, for any offer |
| SharedRing.SharedRing.Read | src/audio/shared_ring.cpp:94-132 | Returns what the stream says and leaves index and counters as it says |
| SharedRing.ReadExactIfWithin | src/audio/shared_ring.cpp:94-132 | A read that overlaps writes is exact if the producer never reaches past its start plus a capacity |
| SharedRing.ReadIsTaken | src/audio/shared_ring.cpp:94-132 | A read step by step, the producer doing what it likes within that limit, returns and advances as the whole call does at its start |
| SharedRing.WriteIsWritten | src/audio/shared_ring.cpp:56-92 | A write step by step, the reader doing what it likes, publishes what the whole call does |
| SharedRing.OverrunTears | src/audio/shared_ring.cpp:81-132 | The limit is exact: from any state with a read begun, nothing of it loaded, and a write under way past its start plus a capacity, some steps return that write's frame where the oldest was |
| SharedRing.OverrunHappens | src/audio/shared_ring.cpp:81-132 | For every capacity two steps from a full ring reach such a state |
| Samples.EncodedReadsBack | src/delay/delay_line.cpp:34-48 | Encoding clips at the largest and smallest number of two or three octets and never wraps |
| Samples.SampleIsTwosComplement | src/delay/delay_line.cpp:19-30 | A sample's number is its octets, the least first, the highest bit counting negative |
| Samples.DecodedWritesBack | src/delay/delay_line.cpp:19-30 | A sample decoded and encoded is the same octets |
| Samples.BlendBetween | src/delay/delay_line.cpp:247-252 | A blend lies between its taps, is nearest to their shares by weight, a half going away from zero, and at the ends of the weight is one of them |
| Delay.RequestIsNearest | src/delay/delay_line.cpp:110-135 | A request is accepted if and only if it is from zero to the line's reach in milliseconds; its target is the nearest number of frames; only a line that has heard nothing is there at once, and nothing else changes |
| Delay.HeardAt | src/delay/delay_line.cpp:193-269 | Over any run of periods and requests, frame i of what is heard is the output of the line's state at frame i over the whole history, however the run is cut into periods |
| Delay.SteadyFrame | src/delay/delay_line.cpp:264-268 | In any run with requests anywhere, a frame outside a fade is the input frame the applied delay before, or silence |
| Delay.EveryFadeIsWhole | src/delay/delay_line.cpp:226-262 | Every fade that starts in any run blends its two taps step by step for exactly the fade and one frame, whatever is requested meanwhile, and then has landed |
| Delay.SteadyIsExact | src/delay/delay_line.cpp:193-269 | At rest, and asked for nothing else, every output frame is the input frame the offset before, or silence |
| Delay.ZeroIsCopy | src/delay/delay_line.cpp:166-191 | With every request for zero milliseconds, or for what is nearest zero frames, every run passes through unchanged |
| Delay.ChangeOfOffset | src/delay/delay_line.cpp:226-268 | A change takes exactly the fade and one frame, and every frame after is the new tap, repeated requests for it included |
| Delay.FadeMeetsItsEnds | src/delay/delay_line.cpp:149-158 | A fade with frames starts at the old tap, and every fade ends at the new |
| Delay.FadeNeverClips | src/delay/delay_line.cpp:247-253 | Every blended sample lies between its taps, as near as can be to their shares at that step |
| Delay.Settles | src/delay/delay_line.cpp:226-262 | After the last request the line rests at its target within two fades and a period of pushed frames |
| DelayLine.FlatIndex | src/delay/delay_line.cpp:160-164 | The flat sample index of the ring is the slot of the frame and then the channel |
| DelayLine.DelayLine.Open | src/delay/delay_line.cpp:55-95 | Opens exactly the possible geometries, reach and fade the frames nearest to the milliseconds asked for, on a ring longer than it can be asked to reach |
| DelayLine.DelayLine.SetOffsetMs | src/delay/delay_line.cpp:110-135 | Accepts exactly what is in reach, takes the nearest number of frames for its target, and applies the first at once |
| DelayLine.DelayLine.FrameAt | src/delay/delay_line.cpp:160-164 | Any tap the line can ask for is still in the ring, unchanged |
| DelayLine.DelayLine.CopyOutFrames | src/delay/delay_line.cpp:166-191 | Copies a stretch of the history, silence before frame zero, and writes nothing else |
| DelayLine.DelayLine.Process | src/delay/delay_line.cpp:193-269 | Outputs what an unbounded history says, also when input and output are one array, and keeps every frame it can still be asked for |
| Resampler.Resampler.SetRatio | src/clock/resampler.cpp:212-233 | The ratio stays within two to one whatever is asked |
| Resampler.Resampler.FillFromBuffer | src/clock/resampler.cpp:378-409 | Takes one period and appends it to the carry, or changes nothing there; from any buffer of such periods, one rebuilt included |
| Resampler.Resampler.Convert | src/clock/resampler.cpp:320-355 | A converter call over the whole carry takes its input from the front, keeps the rest in order, records what the converter made, and makes progress or fails |
| Resampler.Resampler.Refill | src/clock/resampler.cpp:307-318 | A fill of an empty carry is never the look-ahead refusal, and succeeds if and only if the buffer's run has a period at its head; dry, it changes nothing here |
| Resampler.Resampler.Pull | src/clock/resampler.cpp:274-363 | Terminates for every converter. Refuses if and only if closed, asked for nothing or for more than a period, or dry with an empty carry; short only after a take that played nothing; failed or stalled only as the converter answered; so with a converter that does neither, full or short. Frames consumed and carried are the periods taken; the output is what the converter made, in order, then silence; a converter that keeps its rate has used `ratio` frames for each it made; the look-ahead refusal cannot happen |
| Resampler.CountedPosition | src/clock/resampler.cpp:305-348 | Increasing positions are ahead of a count from the first by exactly the frames missing in between |
| Resampler.Resampler.ReportedPositionIsTrueIff | src/clock/resampler.cpp:305-348 | The position a pull reports is the sender's less the frames missing before it, and so the sender's if and only if none was |
| Resampler.HoleIsCounted | src/clock/resampler.cpp:305-348 | A run of pushes with one period missing, and three takes, make the counted position differ from the sender's |
| RatioControl.BoundedAndSlow | src/clock/ratio_control.cpp:71-106 | Over every run correction and integral stay within the limit, and the correction moves no further than slew times elapsed time |
| RatioControl.AverageInHull | src/clock/ratio_control.cpp:47-62 | The averaged level stays in the range of the levels seen |
| RatioControl.TargetKeepsRatioOne | src/clock/ratio_control.cpp:39-107 | A level always at target keeps the ratio exactly one |
| RatioControl.MirroredRun | src/clock/ratio_control.cpp:39-107 | Mirroring all levels about the target negates every correction |
| RatioControl.NeverWindsUp | src/clock/ratio_control.cpp:96-105 | Over every run the integral is what the correction in force needs at the level in force, cut at its own limit: nothing the limits withheld is stored |
| RatioControl.CorrectsFromWhereItIs | src/clock/ratio_control.cpp:25-105 | From every such state and for any level: with w two pi to the loop period, the correction moves, within slew and limit, by 1000 (2 damping w times the change of error + w squared times error and seconds), plus what the integral's limit holds back |
| RatioControl.FirstCorrection | src/clock/ratio_control.cpp:39-107 | The first correction is the same law from no correction and no error |
| RatioControl.MovesByTheLaw | src/clock/ratio_control.hpp:26-41 | While no limit bites that is the whole move; the ratio is one and a millionth for each ppm, and each update is counted |
| RatioControl.ClosedLoopIsDamped | src/clock/ratio_control.hpp:26-41 | With the plant of 0.001 ms a second per ppm, no limit biting and the level not averaged, the level obeys the difference equation of an oscillator of the configured period and damping |
| RatioControl.AverageFollows | src/clock/ratio_control.cpp:39-62 | The level steered by is the first one, then a first-order average over the window; without elapsed time nothing changes |
| RatioControl.FollowsTheError | src/clock/ratio_control.cpp:72-105 | A level not falling and above target never lowers the correction, and raises it at once unless it is at its limit |
| RatioControl.LeavesTheLimitAtOnce | src/clock/ratio_control.cpp:96-105 | After any run that drove it to its limit, the first level on the other side takes the correction off it |
| RatioControl.RatioControl.Update | src/clock/ratio_control.cpp:39-107 | The update in place computes the loop's next state, a call without elapsed time being ignored |
| RatioControl.RatioControl.AtLimit | src/clock/ratio_control.cpp:35-37 | True exactly at the clamp, which is never passed |

## Left out

- Sockets, the link supervisor, device back ends, shared-memory mapping, HTTP, logging and the command line: I/O and platform code. The link is messages in order, some missing; a transmit step is told how many messages the link accepts.
- Opus: the codec itself. Packing and unpacking are those of a build without the Opus library, which refuses Opus blocks; the wire, the validator and `Oversize` know Opus blocks as octets.
- Gain and mute (`apply_block_levels`): a period is what it is after levels.
- JSON parsing and printing of the configuration.
- BlockMap.Validate: the version, backend and device names, `audio.periods`, `link.role`, mode, peer, port, latency, alarm delay, passphrase and buffer sizes, the daemon, egress and HTTP sections are compared with constants or each other and bear on nothing modelled here.
- Null pointers and error strings: parameters are values, errors are named cases.
- The priming and trimming policy of `Engine::play_one_period`, start-up, reconnection and status.
- 64-bit counters other than the sender's sequence and position are unbounded; what their wrap would do to ring slots is stated by itself.
- Data races and weak memory: steps are sequentially consistent, the plain reads of `job_` and `count_` by workers included.
- `ParallelFor.stop` and `start` are one step, taken when every worker has left its loop; the exchange through `stopping_` is not modelled. Failure to start a thread is not either.
- `SharedAudio` region headers: version and shape checks only.
- Copies inside ring calls go frame by frame in increasing order in the interleaved models.
- PlayoutBuffer.PlayoutBuffer.Push: periods are stored one sequence to a slot; the flat byte array behind them, and its offsets, are not modelled.
- Engine.PackOne: samples are values of a few octets; the flat octet offsets of the device period are the sample's place times the width.
- PlayoutBuffer.PlayoutBuffer.DiscardToLevelMs: milliseconds are real numbers; rounding of doubles is not modelled.
- RatioControl.RatioControl.Update: real arithmetic, so no rounding, infinities or NaN.
- Samples.BlendBetween: the blend is computed over the reals and rounded once; the fade curve is any curve from zero within the unit interval, the cosine among them.
- Resampler.Resampler.Pull: the converter is any function of its state, input, request and ratio that uses and makes no more than allowed; its filter, and the conversion of samples to and from floats, are not modelled.
