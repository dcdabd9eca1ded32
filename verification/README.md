# ResidualVoiceEngine in Dafny

A Dafny model of the realtime voice path of ResidualVoiceEngine, from captured PCM to played
PCM, with proofs of what that path promises over whole runs:

- **Jitter buffer** (`Jitter*.dfy`): the direct-mapped table of 128 slots keyed by a wrapping
  16-bit sequence number. `JitterModel` states push and pop on values; the class
  `JitterBuffer` does them in place and is proved equal to the model. Runs carry an unwrapped
  cursor beside the 16-bit one. `JitterHistory` states what every pop answers against an
  unbounded record of all that has arrived, late packets included. Delivery windows, run
  lengths, drain times and arrival-order independence are exact: each bound comes with the run
  that shows it cannot be moved.
- **Capture ring** (`CaptureProtocol.dfy`, `BoundedFifo.dfy`): the single-producer
  single-consumer ring as two threads in small steps. Each thread sees its own index and a
  possibly stale, never receding, copy of the other's. The sequential `CountedRing` on
  free-running 32-bit counters also serves the event queue and the outgoing queue.
- **Engine** (`Engine*.dfy`, `VoiceEngine.dfy`, `Loopback.dfy`): `EngineModel` has one function
  per public call and logs of whole runs; the class `VoiceEngine`, made of the rings, the
  jitter buffers and the packet builders, performs the same calls in place and is proved equal
  to it call by call. The theorems about runs (conservation, gating, speaking, decoding, event
  budget, queues, end-to-end loopback) are about these functions, and are stated from the calls,
  the datagrams' bytes and the logs.
- **Wire format** (`WireFormat.dfy`, `Packets.dfy`, `PacketLayout.dfy`): byte swaps and a
  little-endian memory, which together are big-endian on the wire; builders, parsers, both round
  trips, and the place of every field.
- **Mixer** (`Mixer.dfy`, `MixOrder.dfy`): the saturating mix, its closed form, and when the order of
  the speakers matters.
- **Unity sample rings** (`PlaybackBuffer.dfy`, `MicReblocking.dfy`): the circular playback
  buffer and the re-blocking of a looping microphone clip into frames.
- **Relay registry** (`Relay.dfy`): the fixed session and client tables against ordered lists.

`dafny verify dfyconfig.toml` checks everything.

## How the code is read

- Opus is opaque. The encoder and each decoder are functions of everything they have been fed;
  the encoder fails or returns 1 to 600 bytes, a decoder returns at most one frame of samples
  (none when it fails). Host time is a parameter of the calls that take it.
- The engine theorems take the packet format as a parameter of which they use only that packets
  read back. `OnTheWire` is the format of `Packets.dfy`, `EngineModel.WireReadsBack` shows that it
  qualifies, and `VoiceEngine` is built on that format.
- Sequence numbers, indices and clocks have the source's widths and wrap; proofs carry their
  unwrapped counterparts beside them.
- The builders fill a host-order header that is then swapped, on a little-endian host.
- The documentation says that a synchronous submit encodes at once (DOCUMENTATION.MD:220-224). The
  code puts the frame in the capture ring, as the asynchronous submit does (src/voice.c:517-522);
  the model does that.

Some plausible statements are false of the code. They are proved false by a concrete run, next to
the exact condition under which the code does keep them:

- Late packets are not harmless: one arriving `j` late evicts the packet `128-j` ahead
  (`JitterModel.LatePushEvicts`), and a straggler behind the cursor stays in its slot until the
  16-bit numbers come round, when it is concealed for and then played where nothing arrived
  (`JitterReplay.StragglerConceals`, `JitterReplay.StragglerIsReplayed`). Bounded-skew delivery
  holds exactly for late + early at most 127 (`JitterRuns.SkewBoundExact`). That every pop answers
  from what has arrived before it holds, for such windows, exactly if packets are never late, or
  never early, or no more than 65410 - late numbers are played, which is about 20 minutes of
  20 ms frames (`JitterReplay.AnswersExact`); what is played is right up to 65536 - late numbers
  and no further (`JitterReplay.FramesExact`).
- Arrival order does matter once two packets share a slot (`JitterOrder.ArrivalOrderExact`).
- The speaking timeout is exact for all runs with a given longest time between ticks just when that
  is at most 2^32 - 251 ms, or no speaker can be addressed (`EngineSpeaking.LongestGapIsExact`).
- The mix may depend on the order of the speakers. It does not exactly when no sample is positive, or
  none negative, or the samples of each sign alone sum up within 16 bits
  (`MixOrder.OrderIrrelevantExact`).
- A microphone pump reads exactly what was recorded only if less than a clip length was recorded
  since the last one (`MicReblocking.PumpReadsRecording`).
- Relay addresses need not be unique within a session (`Relay.AddressesMayCollide`). Over any joins
  they stay unique exactly when no join moves a known player onto another's address
  (`Relay.AddressesUniqueExact`).

## Model

| member | source | states |
|---|---|---|
| JitterBuffers.JitterBuffer.constructor | src/rv_opus_jitter.c:34-52 | a fresh buffer is empty and not started |
| JitterBuffers.JitterBuffer.Push | src/rv_opus_jitter.c:54-75 | in-place push is the model's push: empty and over-long payloads are refused, others take the slot of their number whatever was there, and only the first one sets the cursor |
| JitterBuffers.JitterBuffer.HasFuturePacket | src/rv_opus_jitter.c:9-32 | the look-ahead loop finds a packet iff one of the next 127 numbers is buffered |
| JitterBuffers.JitterBuffer.Pop | src/rv_opus_jitter.c:77-113 | in-place pop is the model's pop: the wanted packet, a concealment, or idle with nothing changed |
| JitterModel.OperationsKeepPlacement | src/rv_opus_jitter.c:54-113 | every operation keeps each packet in the slot of its own number, and played payloads have 1 to 600 bytes |
| JitterModel.FutureUnwrapped | src/rv_opus_jitter.c:9-32 | read against any unwrapped cursor, the look-ahead says that one of n+1 .. n+127 is buffered |
| JitterModel.LatePushEvicts | src/rv_opus_jitter.c:54-75 | a packet j numbers late evicts the one 128-j ahead of the cursor, which stays where it is |
| JitterRuns.BoundedSkewDelivery | src/rv_opus_jitter.c:54-113 | if accepted arrivals lie in [next-late, next+early] with late+early at most 127, each packet at or ahead of the cursor is returned, with the last payload given for its number, by the pop that reaches it, at most early+1 pops later, no pop before it being idle |
| JitterRuns.SkewBoundExact | src/rv_opus_jitter.c:54-113 | that delivery holds for all runs of an arrival window iff late + early is at most 127 |
| JitterOrder.SlotAfterAll | src/rv_opus_jitter.c:54-75 | after any batch a slot holds one of the accepted packets that land in it, or what it held |
| JitterOrder.ArrivalOrderExact | src/rv_opus_jitter.c:54-75 | once started, every delivery of the same packets leaves the same buffer iff no two different accepted ones share a slot |
| JitterOrder.WindowArrivesInAnyOrder | src/rv_opus_jitter.c:54-75 | packets of one 128-number window in any permutation give the same buffer and the same results of all later operations |
| JitterDrain.MeasureDecreases | src/rv_opus_jitter.c:77-113 | each pop that returns 1 lowers the measure (packets buffered, distance to the nearest) |
| JitterDrain.NextGapIsShorter | src/rv_opus_jitter.c:92-101 | after a played packet the next one in the window is at most 126 numbers on, as the number 128 past the played one shares its emptied slot |
| JitterDrain.IdleExactlyAfterDrain | src/rv_opus_jitter.c:77-113 | the k-th pop without pushes is idle iff k has reached the drain length: no idle pop before, no other after |
| JitterDrain.DrainTerminates | src/rv_opus_jitter.c:77-113 | from every reachable buffer at most 16257 pops return 1 and from then on all return 0 |
| JitterDrain.DrainBoundIsReached | src/rv_opus_jitter.c:77-113 | a concrete run after which exactly 16257 pops return 1 |
| JitterPlayout.ArriveRefines | src/rv_opus_jitter.c:54-75 | a push that is not late and at most 127 early is an update of the map of waiting packets |
| JitterPlayout.PlayRefines | src/rv_opus_jitter.c:77-113 | a pop of such a buffer is a pop of the map: the wanted number, else a concealment if any packet waits, else idle |
| JitterPlayout.RunRefines | src/rv_opus_jitter.c:54-113 | along whole runs with no late push the table is the map, the results agree, and pop is idle iff the table is empty |
| JitterPlayout.PlayoutFromStart | src/rv_opus_jitter.c:54-113 | in such runs the pops that return 1 play number after number from the first arrival: the last payload given for it, once, or one concealment; and the window holds just what arrived and waits |
| JitterPlayout.DrainToFurthest | src/rv_opus_jitter.c:77-113 | draining such a buffer takes exactly the distance to its furthest packet plus one, at most 128 pops |
| JitterHistory.RunRemembers | src/rv_opus_jitter.c:54-113 | along any run with late + early at most 127, everything heard from the cursor on is buffered, and the table holds only packets that were heard, of numbers from a lowest one on |
| JitterHistory.AnswersFromRecord | src/rv_opus_jitter.c:54-113 | in any such run, late packets included, every pop answers from what has arrived before it: the last payload accepted for its number, one concealment if only later ones were heard, else nothing; if packets may be both late and early, for up to 65410 - late numbers played |
| JitterHistory.FramesFromRecord | src/rv_opus_jitter.c:54-113 | every pop that returns 1 plays the last payload accepted for its number before it, or one concealment; if packets may be both late and early, for up to 65536 - late numbers played |
| JitterHistory.CursorCounts | src/rv_opus_jitter.c:54-113 | the cursor is the first number plus the pops that returned 1 |
| JitterReplay.AnswersExact | src/rv_opus_jitter.c:54-113 | for every window and every length of run: all pops of all runs answer from what has arrived iff late + early is at most 127 and late is 0, or early is 0, or at most 65410 - late numbers are played; for runs that play nothing, iff late and early are at most 127 each |
| JitterReplay.FramesExact | src/rv_opus_jitter.c:54-113 | for windows with late + early at most 127: all frames and concealments played are right iff late is 0, or early is 0, or at most 65536 - late numbers are played |
| JitterReplay.StragglerConceals | src/rv_opus_jitter.c:54-113 | a run with one straggler and 65411 - late numbers played, the last a concealment with nothing to come |
| JitterReplay.StragglerIsReplayed | src/rv_opus_jitter.c:54-113 | a run in which the straggler is played as number 65536, for which nothing ever arrived |
| BoundedFifo.CountedRing.Push | src/rv_event_queue.h:19-24 | refuses iff full, else appends; the queue content is a sequence across counter wrap |
| BoundedFifo.CountedRing.Pop | src/rv_event_queue.h:26-31 | returns and removes the oldest element, or nothing iff empty |
| BoundedFifo.SlotsDistinct | src/rv_event_queue.h:19-31 | fewer than `capacity` consecutive 32-bit counters use different slots, also across the wrap |
| BoundedFifo.CountersMove | src/rv_event_queue.h:17-31 | the wrapped difference of the counters follows every push and pop |
| BoundedFifo.FifoConservation | src/voice.c:214-239 | over any run of a drop-newest queue, what was taken and then what is left are what was there and what was admitted, in order |
| CaptureProtocol.StepKeepsInv | src/voice.c:59-85 | every small step of either thread keeps the ring's invariant |
| CaptureProtocol.MutualExclusion | src/voice.c:59-85 | producer and consumer are never inside the same slot |
| CaptureProtocol.NeverStuck | src/voice.c:59-85 | a thread inside an operation always has a next step: no access falls outside a slot |
| CaptureProtocol.SafeOverEveryInterleaving | src/voice.c:59-85 | over every interleaving with stale views, past 2^32 operations: popped frames are a prefix of pushed ones, fill is at most 16, and the slots being written and read differ |
| CaptureProtocol.RefinesBoundedQueue | src/voice.c:59-85 | publishing a push appends to a 16-bounded queue that has room, publishing a pop removes and returns its head whole, no other step changes it |
| CaptureProtocol.RefusalsAreExact | src/voice.c:59-85 | a push is refused iff the loaded view shows 16 in flight, a pop comes back empty iff its view shows none; with fresh views these are full and empty |
| WireFormat.FlagsRoundTrip | src/rv_netproto.h:17-32 | the packed flags give back radio, channel and push-to-talk and use no reserved bit; exactly the bytes without reserved bits are packings |
| WireFormat.SwapsAreInvolutions | src/rv_netproto.h:53-76 | the three byte swaps undo themselves |
| WireFormat.WireIsBigEndian | src/rv_netproto.h:53-76 | a swapped 16-bit field stored low byte first is big-endian |
| WireFormat.MagicIsBigEndian | src/rv_netproto.h:53-76 | so is the swapped 32-bit magic |
| WireFormat.SessionIdIsBigEndian | src/rv_netproto.h:53-76 | and the swapped 64-bit session id |
| Packets.BuildVoicePacket | src/rv_netproto.c:35-51 | writes the packet's bytes and no others, or returns the source's error code and writes nothing |
| Packets.BuildJoinPacket | src/rv_netproto.c:15-33 | writes the join packet's bytes and no others, or fails without writing |
| Packets.HeaderRoundTrip | src/rv_netproto.c:53-76 | a header made by the initialiser parses to its fields iff its payload is not empty and present |
| Packets.VoiceRoundTrip | src/rv_netproto.c:93-109 | a built voice packet, also with trailing bytes, parses to its fields and payload and is not a join |
| Packets.JoinRoundTrip | src/rv_netproto.c:78-91 | a built join packet, also with trailing bytes, parses to its session and player and is not voice |
| Packets.ParsedVoiceRebuilds | src/rv_netproto.c:35-109 | rebuilding what was parsed reproduces the first 14+payload_len bytes, iff the reserved byte was zero; otherwise all but that byte |
| Packets.VoiceLanguage | src/rv_netproto.c:93-109 | the voice parser accepts exactly the built packets, with any reserved byte and any bytes after |
| PacketLayout.VoiceLayout | src/rv_netproto.h:34-44 | the bytes of a voice packet: magic, version 1, type 2, flags, 0, then speaker, number and length, high byte first, then the payload |
| PacketLayout.JoinLayout | src/rv_netproto.c:15-33 | the bytes of a join packet: the header with type 1 and length 12, the session in eight bytes and the player in two, high byte first, two zero bytes |
| PacketLayout.HeaderIsRead | src/rv_netproto.c:53-76 | the header parser on the bytes: its four refusals in order, and where each field is read |
| PacketLayout.VoiceIsRead | src/rv_netproto.c:93-109 | the voice parser on the bytes, both directions |
| PacketLayout.JoinIsRead | src/rv_netproto.c:78-91 | the join parser on the bytes, both directions |
| PacketLayout.FlagBits | src/rv_netproto.h:17-32 | radio is the lowest bit, the channel the next four, push-to-talk the one above |
| Mixer.MixIsOneClamp | src/voice.c:657-690 | the fold of clamped additions is one clamp of the true sum into an interval computed from the samples |
| Mixer.MixExactIff | src/voice.c:657-690 | the mix is the exact sum iff the sum lies in that interval |
| Mixer.NoSaturationNoError | src/voice.c:657-690 | if no partial sum leaves 16 bits the mix is exact |
| Mixer.SameSignSaturatesOnce | src/voice.c:657-690 | samples of one sign give the clamp of their total |
| Mixer.MixIsMonotone | src/voice.c:657-690 | the mix is monotone in every speaker's sample |
| Mixer.MixProperties | src/voice.c:663-690 | for the mix itself, from silence: exact when no partial sum leaves 16 bits, the clamp of the total for one sign, monotone in every sample |
| MixOrder.OrderIrrelevantExact | src/voice.c:657-690 | all orders of some samples mix alike iff no sample is positive, or none negative, or the positive ones sum up to at most 32767 and the negative ones to at least -32768 |
| MixOrder.MixOfPermutation | src/voice.c:657-690 | then every order gives the clamp of the total |
| MixOrder.EndsMixDifferently | src/voice.c:657-690 | otherwise the positive samples first give less than the positive samples last |
| Mixer.MixOutput | src/voice.c:663-690 | each output sample is the mix of that sample over the speakers that have one, the rest of the buffer is untouched, and the result is the requested length read as a signed word, or 0 when nobody was decoded |
| Mixer.ColumnHasAll | src/voice.c:674-687 | every speaker that decoded that many samples is in the mix of a sample, in order |
| Mixer.ColumnHasOnly | src/voice.c:674-687 | and nothing else is |
| EngineModel.WireReadsBack | src/rv_netproto.c:35-109 | the real packet format meets what the engine theorems assume: voice packets read back, joins are not voice |
| EngineModel.DrainKeepsRest | src/voice.c:588-592 | draining empties the ring, leaves the speakers alone and offers at most one event per frame |
| EngineModel.PerformKeepsBounds | src/voice.c:443-651 | every call keeps queue sizes within 16, 256 and 256, frame sizes, and slot placement |
| EngineModel.TickInTurns | src/voice.c:577-592 | a tick is one turn of its drain loop and then a tick, so a tick among submits is a run of turns, submits and a tick |
| EngineModel.SubmitAfterDrain | src/voice.c:498-511 | a submit that lands after the drain loop has found the ring empty has the effect, and the answer, of one after the tick |
| EngineSequence.RunConserves | src/voice.c:280-315 | over any run each drained frame's fate agrees with what the encoder made of the frames up to it, the counter is the number of encoded frames modulo 2^16, and the queued voices, polled or waiting, are in order those read back |
| EngineSequence.FramesAreConserved | src/voice.c:280-315 | admitted frames = gated + encode failures + queued + dropped + still in the ring, so no frame is lost by a failed build or skipped; the counter counts queued and dropped ones only |
| EngineSequence.GapsCountDrops | src/voice.c:280-315 | queued numbers strictly increase and the gap between neighbours counts exactly the packets dropped between them |
| EngineHost.EveryFrameObeysHost | src/voice.c:245-312 | over any run: a drained frame is gated iff the last local state set before has push-to-talk up (in push-to-talk mode, none set counting as up) or radio on with push-to-talk up (always-on); its packet carries the player of the last connect and shows that local state bit by bit; player, session and local state are the last set; connected iff the last session event attempted is a connect |
| EngineHost.AlwaysOnIsNeverGated | src/voice.c:272-277 | always on and never the radio with push-to-talk up: no frame of the run is gated |
| EngineHost.PttHeldIsNeverGated | src/voice.c:265-270 | push-to-talk held from the first call on: no frame of the run is gated |
| EngineHost.PttUpIsAlwaysGated | src/voice.c:265-270 | push-to-talk mode and never pressed: every drained frame is gated |
| EngineHost.DrainObeys | src/voice.c:280-315 | a drain gives every frame in the ring a fate, and reports an error for each encode failure, a log line for each drop, and nothing else |
| EngineHost.DroppedWhenFull | src/voice.c:214-226 | a packet is dropped only with 256 waiting and queued only with fewer |
| EngineHost.SubmitAdmits | src/voice.c:498-511 | from the logs: a frame is admitted iff the last session event was a connect, it has the frame size, and fewer than 16 frames are admitted and not drained; and the answer -1, -4 or 0 |
| EngineHost.ConnectAnswers | src/voice.c:443-471 | with fewer than 256 packets waiting a packet that parses as the join is queued and a connect announced, else an error and nothing queued |
| EngineHost.DisconnectAnswers | src/voice.c:473-484 | announces a disconnect and ends the connection |
| EngineHost.FreshEngine | src/voice.c:321-413 | a fresh engine: not connected, one log event, nothing waiting, nobody speaking, empty buffers |
| EngineHost.PollAnswers | src/voice.c:228-239 | 0, -1 or 1 as the queue is empty, its head too large, or handed out; polled and waiting are what was waiting |
| EngineHost.ConfigurationIs | src/voice.c:327-363 | frame samples are the whole samples of frame_ms unless the product leaves 32 bits; always-on only for 1; versions 2.0 and 2.1 only |
| EngineReception.IngestReaches | src/voice.c:524-567 | a datagram and a speaker, from the bytes: iff it is a voice packet of that speaker's id within the player count modulo 65536, its payload of 1 to 600 bytes is in its slot and nothing else of the buffer changed, flags and time are its own, and a silent speaker is announced once; else the speaker is untouched |
| EngineReception.IngestOfNobody | src/voice.c:531-544 | a datagram for no speaker changes nothing |
| EngineReception.OnlyEmptyIsRefused | src/voice.c:524-554 | only an empty datagram is refused; one that is refused or no voice packet changes nothing |
| EngineReception.StepIsDelivery | src/voice.c:524-567 | along runs a speaker gets exactly its own voice packets among the datagrams |
| EngineReception.SpeakerFlagsAreLast | src/voice.c:551 | over any run a speaker's flags are those of the last packet delivered to it |
| EngineDecoding.TickShowsDecoded | src/voice.c:594-643 | every tick, every speaker: if its buffer pops, the samples shown are what the decoder makes of all its inputs, the one just popped included, else none are shown; exactly one PCM event iff samples are shown, with id, rate, the last packet's flags and channel, buffer and count |
| EngineDecoding.TickGoesInTurn | src/voice.c:588-643 | a tick attempts the reports of the drained frames, then the events of the speakers in turn, an off-event before the PCM event of the same speaker |
| EngineDecoding.RunShowsDecoded | src/voice.c:594-643 | after any run, samples shown for a speaker are its decoder's output for all it has been fed |
| EngineSequence.SentIsSmall | src/voice.c:297-311 | over any run no packet polled or waiting is larger than 14+600 bytes |
| EngineSequence.GatingInvariant | src/voice.c:245-302 | over any run, every voice packet polled or waiting, read by the real parser, has RADIO only with PTT and in push-to-talk mode always PTT |
| EngineSpeakers.CallProjects | src/voice.c:524-643 | what a call does to one speaker depends only on packets addressed to it and on ticks |
| EngineSpeakers.RunProjects | src/voice.c:524-643 | along any run a speaker's state and its on/off events are those of that speaker run alone |
| EngineSpeaking.SpeakingAlternates | src/voice.c:555-610 | the SPEAKING events attempted for a speaker alternate on, off, on, ... and its flag is the last one |
| EngineSpeaking.TimeoutIsExact | src/voice.c:546-610 | with ticks at most 2^32-251 ms apart the flag is, after every run, that of the protocol on an unwrapped clock |
| EngineSpeaking.OffAtFirstTickPastTimeout | src/voice.c:599-610 | after any run the next tick attempts an off iff the speaker is still on and its last packet is more than 250 ms old, across clock wrap |
| EngineSpeaking.MissedTimeout | src/voice.c:599-610 | a packet, a tick 250 ms later and the next 2^32 - 250 ms after that leave the speaker on |
| EngineSpeaking.LongestGapIsExact | src/voice.c:599-610 | for any engine and any longest gap between ticks: all runs keep all speakers in phase with the protocol on an unwrapped clock iff the gap is at most 2^32-251 ms or the player count is a multiple of 65536 |
| EngineEvents.CallOffers | src/voice.c:443-643 | every call but the event poll offers the events it attempts to the queue, in order, keeping the prefix that fits |
| EngineEvents.RunBudget | src/voice.c:443-567 | between ticks, whatever is called, the events attempted are, besides one for each connect and disconnect and at most one for each frame drained early, exactly the first packets of the speakers that began to speak |
| EngineEvents.RoundBudget | src/voice.c:443-643 | such calls and then a tick attempt at most k+3n events, and those others |
| EngineEvents.PcmEventsShowTheirTick | src/voice.c:588-643 | the samples a PCM event points at, any time before the next tick, are what the speaker's decoder made in that tick |
| EngineQueues.OutgoingIsBoundedQueue | src/voice.c:214-239 | over any run the outgoing queue and the polls behave as a 256-bounded queue that drops the newest |
| EngineQueues.PolledThenQueued | src/voice.c:214-239 | packets polled and then packets waiting are exactly the admitted ones, in order |
| EngineQueues.EventsAreBoundedQueue | src/rv_event_queue.h:15-31 | over any run the event queue is the 256-bounded queue of the events attempted |
| EngineQueues.NoEventIsLost | src/voice.c:443-651 | from a drained queue, any calls, event polls included, and a tick: if k+3n and one for each connect, disconnect and frame drained early fit 256, as with 80 speakers and 16 frames, then what was polled and what is queued are all events attempted, in order |
| EngineQueues.SmallPollsKeepPacket | src/voice.c:228-239 | whatever else is called, polls with too little room take nothing and the same packet comes from the first poll with enough |
| Loopback.SpeakerFollowsJitter | src/voice.c:612-623 | a decoder's inputs are exactly the non-idle pops of its jitter buffer |
| Loopback.EndToEnd | src/voice.c:280-623 | for any run of a sender and any run of a receiver given its datagrams, lost, repeated or reordered with late + early at most 127 (and fewer than 65410 - late numbers played if both may be): the decoder has been fed number after number, one a tick, the encoded payload if its packet was there at its turn, one concealment if only later ones were; the next tick feeds it under the same condition; a number is concealed iff its packet was not delivered on time, with nothing late iff it was never delivered; dropped numbers are always concealed, and only those if every queued packet before a delivered one was delivered on time, with nothing late: was delivered; the arrivals are all of the speaker's voice packets among the datagrams, read from their bytes, and the samples shown are the decoder's output for that feed |
| Loopback.FeedIsExpected | src/voice.c:612-623 | the pops that returned 1 are, tick by tick, what the arrivals so far call for |
| Loopback.FeedIsOnTime | src/voice.c:612-623 | among the numbers played, concealed are exactly those whose packet was not delivered before the buffer had gone past them, each once a later one had arrived |
| Loopback.NoneLateOnTime | src/voice.c:524-554 | with no late packets, what is delivered at all is delivered on time |
| Loopback.OnlyDroppedConcealed | src/voice.c:280-623 | if every queued packet before a delivered one was delivered on time, each number fed is its payload, or one concealment exactly if the sender dropped it for a full queue |
| Loopback.DeliveriesAreNumbered | src/voice.c:524-575 | datagrams the sender handed out and delivered unchanged always are what EndToEnd asks: each reads as a packet queued under some number |
| Loopback.PayloadsAreEncodedCapture | src/voice.c:280-315 | the payload of a number is what the encoder makes of the captured frames up to that one, gated ones left out |
| VoiceEngines.VoiceEngine.Create | src/voice.c:321-413 | where codec and allocator succeed, refuses exactly the configurations of another major or a later minor version, without players, or with a frame of 0 or over 2880 samples as multiplied in 32 bits; else a fresh engine with the log event queued, silent speakers and number 0, push-to-talk for unknown capture modes |
| VoiceEngines.VoiceEngine.Connect | src/voice.c:443-471 | queues the join and connects, or with a full queue reports an error and stays as it was but for the session |
| VoiceEngines.VoiceEngine.Disconnect | src/voice.c:473-484 | is the model's disconnect |
| VoiceEngines.VoiceEngine.SetLocalState | src/voice.c:486-491 | replaces the local state and touches nothing else |
| VoiceEngines.VoiceEngine.SubmitCapture | src/voice.c:498-522 | status and effect of both submits: the ring gets the frame iff connected, of the exact size, and there is room |
| VoiceEngines.VoiceEngine.EncodeAndQueueVoice | src/voice.c:280-315 | gating, encoding, numbering, building in a 1400-byte buffer and queueing one frame is the model's transmit |
| VoiceEngines.VoiceEngine.IngestPacket | src/voice.c:524-567 | status, parsing, speaker check, push and speaking as in the model, on every byte string |
| VoiceEngines.VoiceEngine.PollOutgoing | src/voice.c:228-239 | 1 with the oldest packet copied out, 0 when empty, -1 with nothing changed when there is too little room |
| VoiceEngines.VoiceEngine.PollEvent | src/voice.c:648-651 | hands out the oldest event |
| VoiceEngines.VoiceEngine.DrainTurn | src/voice.c:588-592 | one turn of the drain loop is the model's turn |
| VoiceEngines.VoiceEngine.DrainCaptureQueue | src/voice.c:588-592 | the drain loop is the model's drain |
| VoiceEngines.VoiceEngine.TickAllSpeakers | src/voice.c:599-643 | the per-speaker loop does each speaker's timeout, pop, decode and events in order, each speaker once |
| VoiceEngines.VoiceEngine.Tick | src/voice.c:577-646 | the whole tick is the model's tick |
| VoiceEngines.VoiceEngine.MixInto | src/voice.c:663-690 | the output is the mix of what the speakers decoded in the last tick, the result its length read as a signed word, or 0 when nobody was decoded |
| VoiceEngines.MixedIsDecoded | src/voice.c:663-690 | what is mixed of a speaker is its decoder's output, or nothing if the last tick decoded nothing for it |
| PlaybackBuffers.AppendCompose | unity/com.residual.voice/Runtime/Scripts/ResidualVoicePlaybackBuffer.cs:60-94 | two enqueues are one enqueue of both, in both overflow modes |
| PlaybackBuffers.AppendedSamples | unity/com.residual.voice/Runtime/Scripts/ResidualVoicePlaybackBuffer.cs:60-94 | by index: in drop-oldest mode the held samples are the end of all samples, as many as fit, the last enqueued being the last held; else their beginning |
| PlaybackBuffers.ValidRanges | unity/com.residual.voice/Runtime/Scripts/ResidualVoicePlaybackBuffer.cs:235-262 | exactly the ranges that begin and end inside the array pass |
| PlaybackBuffers.PastEndSamples | unity/com.residual.voice/Runtime/Scripts/ResidualVoicePlaybackBuffer.cs:60-94 | by index: an enqueue that runs out of the array has made room for one more sample in drop-oldest mode, and throws; else it throws only if the samples left the buffer with room |
| PlaybackBuffers.OnlyWrapsPass | unity/com.residual.voice/Runtime/Scripts/ResidualVoicePlaybackBuffer.cs:235-262 | the check lets a range that ends outside the array pass exactly when offset + count wraps in 32 bits |
| PlaybackBuffers.ChunkingIsInvisible | unity/com.residual.voice/Runtime/Scripts/ResidualVoicePlaybackBuffer.cs:60-94 | any cutting of a stream into enqueues leaves the same content |
| PlaybackBuffers.EachIsAll | unity/com.residual.voice/Runtime/Scripts/ResidualVoicePlaybackBuffer.cs:72-91 | dropping or refusing sample by sample is the last `capacity` samples, or the longest prefix that fits |
| PlaybackBuffers.PlaybackBuffer.Clear | unity/com.residual.voice/Runtime/Scripts/ResidualVoicePlaybackBuffer.cs:39-48 | empties and zeroes the ring |
| PlaybackBuffers.PlaybackBuffer.Enqueue | unity/com.residual.voice/Runtime/Scripts/ResidualVoicePlaybackBuffer.cs:60-94 | the content becomes the last `capacity` samples of old and new, or the longest fitting prefix is appended; the count returned; bad ranges throw and change nothing; a range that passes the check by 32-bit wrap goes through the rest of the array and then throws, unless full before |
| PlaybackBuffers.PlaybackBuffer.Read | unity/com.residual.voice/Runtime/Scripts/ResidualVoicePlaybackBuffer.cs:96-123 | copies the exact oldest samples, then zeros, and nothing else; they leave the ring; a range that passes the check by 32-bit wrap takes what fits the rest of the array and throws |
| PlaybackBuffers.PlaybackBuffer.ReadIntoInterleavedFloat | unity/com.residual.voice/Runtime/Scripts/ResidualVoicePlaybackBuffer.cs:125-177 | the oldest samples on every channel, frame by frame, then silence; samples leave the ring once per frame |
| PlaybackBuffers.PlaybackBuffer.MixIntoInterleavedFloat | unity/com.residual.voice/Runtime/Scripts/ResidualVoicePlaybackBuffer.cs:179-233 | the oldest samples, scaled, are added to every channel with clamping to the unit range; other frames are left alone |
| PlaybackBuffers.PlayedAt | unity/com.residual.voice/Runtime/Scripts/ResidualVoicePlaybackBuffer.cs:149-161 | every channel of a frame read gets the sample over 32768 |
| PlaybackBuffers.MixedAt | unity/com.residual.voice/Runtime/Scripts/ResidualVoicePlaybackBuffer.cs:203-228 | every channel of a frame mixed gets what was there and the scaled sample, clamped |
| PlaybackBuffers.OutsideIsKept | unity/com.residual.voice/Runtime/Scripts/ResidualVoicePlaybackBuffer.cs:149-228 | outside the frames played or mixed the array is left as it was |
| PlaybackBuffers.ScaledIs | unity/com.residual.voice/Runtime/Scripts/ResidualVoicePlaybackBuffer.cs:207 | a scaled sample is the sample over 32768 times the gain |
| PlaybackBuffers.ClampedToUnit | unity/com.residual.voice/Runtime/Scripts/ResidualVoicePlaybackBuffer.cs:217-224 | clamping cuts to the unit range and changes nothing within |
| MicReblocking.BlockingIsUnique | unity/com.residual.voice/Runtime/Scripts/ResidualVoiceMicInput.cs:386-415 | frames and pending rest are determined by the stream alone, not by its chunks |
| MicReblocking.BetweenLength | unity/com.residual.voice/Runtime/Scripts/ResidualVoiceMicInput.cs:326-340 | a pump reads (current - last) mod clip samples |
| MicReblocking.PumpReadsRecording | unity/com.residual.voice/Runtime/Scripts/ResidualVoiceMicInput.cs:326-340 | a pump reads as many samples as were recorded since the last one iff these are fewer than the clip holds, and then exactly those |
| MicReblocking.PumpsReadWholeRecording | unity/com.residual.voice/Runtime/Scripts/ResidualVoiceMicInput.cs:281-343 | over any run of pumps in time, the samples read are the whole recording, in order |
| MicReblocking.MicInput.AccumulateAndSubmitFrames | unity/com.residual.voice/Runtime/Scripts/ResidualVoiceMicInput.cs:386-415 | submitted frames, all full, followed by the pending samples, fewer than a frame, are all samples consumed |
| MicReblocking.MicInput.ReadAndAccumulate | unity/com.residual.voice/Runtime/Scripts/ResidualVoiceMicInput.cs:345-384 | the chunked loop ends and consumes the given stretch of the clip, up to the first chunk for which the clip gives no data |
| MicReblocking.StopsWhereUnreadable | unity/com.residual.voice/Runtime/Scripts/ResidualVoiceMicInput.cs:357-364 | reading a stretch stops short only at a position where the clip gives no data |
| MicReblocking.MicInput.PumpMicrophone | unity/com.residual.voice/Runtime/Scripts/ResidualVoiceMicInput.cs:281-343 | consumes the clip between the two cursor positions in ring order, as far as it gives data, and moves the cursor; nothing without a client, for a clip without samples or channels, or for a negative or unmoved cursor |
| Relay.AddressEqualityIsEquivalence | src/rv_relay.c:4-9 | address comparison is an equivalence |
| Relay.AddressesAreEqual | src/rv_relay.c:4-9 | equal iff version, port and the first 4 or 16 bytes are |
| Relay.JoinsKeepUniqueness | src/rv_relay.c:11-61 | over any joins session ids are unique, player ids are unique in a session, and both tables stay in bounds |
| Relay.JoinRegisters | src/rv_relay.c:32-61 | after a join the player is registered at its address iff not (session full and neither player nor address known) |
| Relay.JoinLeavesOthers | src/rv_relay.c:36-60 | a join touches at most the player's own entry, else the first at its address, and says what becomes of it; all others stay as and where they are; an entry is added iff none is touched and there are fewer than 16 |
| Relay.JoinLeavesOtherSessions | src/rv_relay.c:11-61 | all other sessions stay as they are; one is added iff the id is unknown and there are fewer than 64 |
| Relay.JoinKeepsApartExact | src/rv_relay.c:36-60 | a join of a session with unique addresses keeps them unique iff it does not move a known player onto another entry's address |
| Relay.AddressesUniqueExact | src/rv_relay.c:11-61 | over any joins, addresses stay unique within every session iff none of them does that |
| Relay.AddressesMayCollide | src/rv_relay.c:36-42 | three joins of an empty registry that leave two players at one address |
| Relay.RelayState.FindOrCreateSession | src/rv_relay.c:11-26 | finds the session, or takes the first free slot with no clients, or fails with a full table |
| Relay.RelayState.Join | src/rv_relay.c:32-61 | update by player id, else rename the first address match, else insert if there is room; in-use entries stay a prefix of the tables |
| Relay.RelayState.ForwardVoice | src/rv_relay.c:63-84 | sends to the recipients of the session in table order, to nobody for an unknown session |
| Relay.ForwardReachesAll | src/rv_relay.c:79-83 | every entry with another address than the sender's is sent to, at its own place |
| Relay.PlacesAreDistinct | src/rv_relay.c:79-83 | different entries are served by different sends, in table order |
| Relay.ForwardSendsNothingElse | src/rv_relay.c:79-83 | every send serves such an entry and none goes to the sender's address |

## Left out

- Opus itself (src/rv_opus.c): a foreign library, opaque functions here.
- Sockets, shims, transports and the relay's main loop: I/O; the network is any loss, repetition and reordering.
- Allocation, destruction, allocators, callbacks, the version query, exports and NULL arguments: single-branch facts.
- Getters, result strings, the flat event copier and the texts of log and error messages, so also the two alternating text buffers they live in.
- src/rv_pcm_jitter.c: an older variant that is not built and adds only easier claims.
- The failed-build branch of transmit (src/voice.c:303-306): unreachable, as 14+600 bytes fit the 1400-byte buffer; the engine class proves the builder's success there.
- Weak memory beyond publish-after-write and stale monotone reads of the other thread's index.
- VoiceEngines.VoiceEngine.Tick: one method call, in which no other thread submits; runs in which submits fall between the turns of its drain loop are runs of the model (EngineModel.TickInTurns, EngineModel.SubmitAfterDrain), and the theorems about runs hold of them; the ring under both threads is CaptureProtocol.RefinesBoundedQueue.
- VoiceEngines.VoiceEngine.Create: the per-speaker C arrays are fields of one object per speaker; a codec or an allocation that fails is not modelled.
- Loopback.EndToEnd: runs in which packets may be both late and early are limited to fewer than 65410 - late numbers played, because beyond that the statement is false (JitterReplay.StragglerConceals).
- PlaybackBuffers.PlaybackBuffer.Enqueue: null arrays and the lock are not modelled.
- PlaybackBuffers.PlaybackBuffer.ReadIntoInterleavedFloat: floats are reals, without rounding, and the product of frames and channels does not wrap.
- PlaybackBuffers.PlaybackBuffer.MixIntoInterleavedFloat: likewise over reals and without wrapping.
- MicReblocking.MicInput.PumpMicrophone: device handling, a chunk size that is not positive, and debug counters; the average over channels is an opaque function of a clip position.
- Unity components other than the playback buffer and the microphone input: user interface, lifecycle and wrappers.
