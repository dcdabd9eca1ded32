/** The voice engine as a value, one function per public call, and whole runs with their
    logs. `VoiceEngine` in VoiceEngine.dfy is proved against these functions; the Engine*.dfy
    theorems are about runs of them. The Opus encoder and decoders are parameters: functions
    of everything they have been fed so far. So is the packet format, of which the theorems
    only use that packets read back; `OnTheWire` is the real one. */
module EngineModel {
  import opened Words
  import opened Sequences
  import opened BoundedFifo
  import opened WireFormat
  import opened Packets
  import opened JitterModel

  const EVENT_CAP := 256
  const OUT_CAP := 256
  const MAX_PKT_SIZE := 1400
  const SPEAKING_TIMEOUT_MS := 250

  const OK := 0
  const ERR_INVALID_ARGUMENT := -1
  const ERR_NOT_CONNECTED := -4
  const ERR_INTERNAL := -100

  type PcmFrame = seq<int16>

  datatype CaptureMode = PttOnly | AlwaysOn

  datatype EncodeResult = EncodeFailed | Encoded(packet: seq<Byte>)

  /** Building a voice and a join packet, and reading the voice packet in a datagram. */
  datatype Format = Format(voice: Voice -> seq<Byte>, join: Join -> seq<Byte>, read: seq<Byte> -> Option<Voice>)

  /** `encode` sees all frames given to the encoder, the last one being encoded now;
      `decode` sees all inputs of one decoder and returns no samples when it fails. */
  datatype Setup = Setup(
    maxPlayers: uint32, sampleRate: uint32, frameSamples: nat, mode: CaptureMode,
    encode: seq<PcmFrame> -> EncodeResult, decode: seq<PopResult> -> PcmFrame, format: Format)

  /** What the host configures. */
  datatype Config = Config(apiVersion: uint32, maxPlayers: uint32, sampleRateHz: uint32, frameMs: uint32,
                           captureMode: int)

  const VERSION_MAJOR := 2
  const VERSION_MINOR := 1
  const CAPTURE_ALWAYS_ON := 1

  /** The samples of one frame, multiplied in 32 bits. */
  function FrameSamples(c: Config): nat {
    c.sampleRateHz * c.frameMs % TWO32 / 1000
  }

  /** The configurations that creation does not refuse: of this major version and none of the
      later minor ones, with players, and with a frame that fits a slot of the capture ring. */
  predicate Creatable(c: Config) {
    && c.apiVersion / TWO16 == VERSION_MAJOR && c.apiVersion % TWO16 <= VERSION_MINOR
    && c.maxPlayers != 0
    && 1 <= FrameSamples(c) <= MAX_SAMPLES
  }

  /** Unknown capture modes are taken for push-to-talk. */
  function ModeOf(c: Config): CaptureMode {
    if c.captureMode == CAPTURE_ALWAYS_ON then AlwaysOn else PttOnly
  }

  function SetupOf(c: Config, encode: seq<PcmFrame> -> EncodeResult, decode: seq<PopResult> -> PcmFrame,
                   format: Format): Setup {
    Setup(c.maxPlayers, c.sampleRateHz, FrameSamples(c), ModeOf(c), encode, decode, format)
  }

  /** What creation checks, and what Opus promises about its output sizes. */
  ghost predicate Sound(setup: Setup) {
    && setup.maxPlayers > 0
    && 1 <= setup.frameSamples <= MAX_SAMPLES
    && CodecSound(setup)
  }

  ghost predicate CodecSound(setup: Setup) {
    && (forall log :: setup.encode(log).Encoded? ==> Accepted(setup.encode(log).packet))
    && (forall log :: |setup.decode(log)| <= setup.frameSamples)
  }

  /** What the sender needs of the packet format. */
  ghost predicate ReadsBack(format: Format) {
    && (forall v: Voice | Accepted(v.payload) :: format.read(format.voice(v)) == Some(v))
    && (forall j :: format.read(format.join(j)) == None)
  }

  /** The size of a datagram is a 32-bit unsigned number that the parser receives as a signed
      one, so 2^31 bytes and more are refused as negative. */
  function ReadDatagram(data: seq<Byte>): Option<Voice> {
    if |data| >= 0x8000_0000 then None
    else
      match ParseVoice(data)
      case Err(_) => None
      case Ok(v) => Some(v)
  }

  ghost predicate OnTheWire(format: Format) {
    && (forall v: Voice | |v.payload| < TWO16 :: format.voice(v) == VoicePacket(v))
    && (forall j :: format.join(j) == JoinPacket(j))
    && (forall data :: format.read(data) == ReadDatagram(data))
  }

  lemma WireReadsBack(format: Format)
    requires OnTheWire(format)
    ensures ReadsBack(format)
  {
    forall v: Voice | Accepted(v.payload)
      ensures format.read(format.voice(v)) == Some(v)
    {
      VoiceRoundTrip(v, []);
      assert VoicePacket(v) + [] == VoicePacket(v);
    }
    forall j
      ensures format.read(format.join(j)) == None
    {
      JoinRoundTrip(j, []);
      assert JoinPacket(j) + [] == JoinPacket(j);
    }
  }

  datatype LocalState = LocalState(pttDown: bool, radioEnabled: bool, radioChannel: Byte)

  /** A PCM event designates the speaker's buffer; it does not carry the samples. */
  datatype Event =
    | LogEvent(level: int)
    | ConnectedEvent
    | DisconnectedEvent
    | SpeakingEvent(speakerId: uint16, on: bool)
    | PcmEvent(speakerId: uint16, sampleRate: uint32, flags: Byte, radioChannel: Byte, buffer: nat, sampleCount: nat)
    | ErrorEvent(code: int)

  datatype Speaker = Speaker(
    jitter: JitterState, decoderLog: seq<PopResult>, pcm: PcmFrame, pcmCount: nat,
    speaking: bool, lastRxMs: uint32, lastRxFlags: Byte)

  datatype Engine = Engine(
    connected: bool, sessionId: bv64, playerId: uint16, local: Option<LocalState>,
    capture: seq<PcmFrame>, encoderLog: seq<PcmFrame>, nextSeq: uint16,
    out: seq<seq<Byte>>, events: seq<Event>, speakers: seq<Speaker>)

  /** What became of one frame drained from the capture ring. */
  datatype Fate = Skipped | Gated | EncodeFailure | Queued(voice: Voice) | DroppedFull(voice: Voice)

  /** The state after some calls, with what they did: the events they tried to queue, the
      frames they admitted to the capture ring, the fates of the frames they drained, and the
      packets they handed to the host. */
  datatype Trace = Trace(
    engine: Engine, attempted: seq<Event>, captured: seq<PcmFrame>, fates: seq<Fate>, polled: seq<seq<Byte>>)

  function Quiet(e: Engine): Trace {
    Trace(e, [], [], [], [])
  }

  function Then(t: Trace, u: Trace): Trace {
    Trace(u.engine, t.attempted + u.attempted, t.captured + u.captured, t.fates + u.fates, t.polled + u.polled)
  }

  ghost predicate Bounded(setup: Setup, e: Engine) {
    && |e.capture| <= RING_CAP && |e.out| <= OUT_CAP && |e.events| <= EVENT_CAP
    && |e.speakers| == setup.maxPlayers
    && (forall i | 0 <= i < |e.capture| :: |e.capture[i]| == setup.frameSamples)
    && (forall i | 0 <= i < |e.speakers| :: SpeakerOk(setup, e.speakers[i]))
  }

  ghost predicate SpeakerOk(setup: Setup, sp: Speaker) {
    |sp.pcm| == setup.frameSamples && sp.pcmCount <= setup.frameSamples && Placed(sp.jitter)
  }

  // ----- creation and session

  function NewSpeaker(setup: Setup): Speaker {
    Speaker(Initial(), [], seq(setup.frameSamples, _ => 0), 0, false, 0, 0)
  }

  function Created(setup: Setup): Engine {
    Engine(false, 0, 0, None, [], [], 0, [], [LogEvent(0)], seq(setup.maxPlayers, _ => NewSpeaker(setup)))
  }

  function Emit(e: Engine, ev: Event): Engine {
    e.(events := Offer(e.events, ev, EVENT_CAP))
  }

  function Connect(setup: Setup, e: Engine, sessionId: bv64, playerId: uint16): Trace {
    var e1 := e.(sessionId := sessionId, playerId := playerId);
    var packet := setup.format.join(Join(sessionId, playerId));
    if |e.out| < OUT_CAP then
      Quiet(Emit(e1.(out := e.out + [packet], connected := true), ConnectedEvent)).(attempted := [ConnectedEvent])
    else
      Quiet(Emit(e1, ErrorEvent(ERR_INTERNAL))).(attempted := [ErrorEvent(ERR_INTERNAL)])
  }

  function Disconnect(e: Engine): Trace {
    Quiet(Emit(e.(connected := false), DisconnectedEvent)).(attempted := [DisconnectedEvent])
  }

  // ----- capture and transmission

  function SubmitStatus(setup: Setup, e: Engine, samples: PcmFrame): int {
    if |samples| == 0 then ERR_INVALID_ARGUMENT
    else if !e.connected then ERR_NOT_CONNECTED
    else if |samples| != setup.frameSamples then ERR_INVALID_ARGUMENT
    else OK
  }

  function Submit(setup: Setup, e: Engine, samples: PcmFrame): Trace {
    if SubmitStatus(setup, e, samples) != OK || |e.capture| >= RING_CAP then Quiet(e)
    else Quiet(e.(capture := e.capture + [samples])).(captured := [samples])
  }

  function TxFlags(e: Engine): Byte {
    match e.local
    case None => FlagsMake(false, 0, false)
    case Some(st) => FlagsMake(st.radioEnabled, st.radioChannel & 0x0F, st.pttDown)
  }

  predicate ShouldTransmit(setup: Setup, e: Engine) {
    if setup.mode == PttOnly then e.local.Some? && e.local.value.pttDown
    else if e.local.Some? && e.local.value.radioEnabled then e.local.value.pttDown
    else true
  }

  /** One drained frame: gate, encode, number, build, queue. */
  function Transmit(setup: Setup, e: Engine, frame: PcmFrame): Trace
    requires Sound(setup)
  {
    if !ShouldTransmit(setup, e) then Quiet(e).(fates := [Gated])
    else
      var e1 := e.(encoderLog := e.encoderLog + [frame]);
      match setup.encode(e1.encoderLog)
      case EncodeFailed =>
        Trace(Emit(e1, ErrorEvent(ERR_INTERNAL)), [ErrorEvent(ERR_INTERNAL)], [], [EncodeFailure], [])
      case Encoded(opus) => QueueVoice(setup, e1, opus)
  }

  function QueueVoice(setup: Setup, e: Engine, opus: seq<Byte>): Trace {
    var voice := Voice(e.playerId, e.nextSeq, TxFlags(e), opus);
    var e1 := e.(nextSeq := Next16(e.nextSeq));
    if |e.out| < OUT_CAP then
      Trace(e1.(out := e.out + [setup.format.voice(voice)]), [], [], [Queued(voice)], [])
    else
      Trace(Emit(e1, LogEvent(1)), [LogEvent(1)], [], [DroppedFull(voice)], [])
  }

  function DrainOne(setup: Setup, e: Engine): Trace
    requires Sound(setup) && e.capture != []
  {
    var frame, e1 := e.capture[0], e.(capture := e.capture[1..]);
    if |frame| != setup.frameSamples then Quiet(e1).(fates := [Skipped])
    else Transmit(setup, e1, frame)
  }

  lemma DrainOneShrinks(setup: Setup, e: Engine)
    requires Sound(setup) && e.capture != []
    ensures DrainOne(setup, e).engine.capture == e.capture[1..]
  {
  }

  lemma DrainOneEvents(setup: Setup, e: Engine)
    requires Sound(setup) && e.capture != [] && |e.events| <= EVENT_CAP
    ensures var t := DrainOne(setup, e);
            && |t.attempted| <= 1
            && t.engine.events == OfferAll(e.events, t.attempted, EVENT_CAP)
            && t.captured == [] && t.polled == [] && t.engine.speakers == e.speakers
            && (|e.out| <= OUT_CAP ==> |t.engine.out| <= OUT_CAP)
  {
    var t := DrainOne(setup, e);
    if t.attempted == [] {
      assert OfferAll(e.events, [], EVENT_CAP) == e.events;
    } else {
      assert t.attempted[..1] == t.attempted;
      assert t.attempted[..0] == [];
    }
  }

  lemma DrainOneBounded(setup: Setup, e: Engine)
    requires Sound(setup) && Bounded(setup, e) && e.capture != []
    ensures Bounded(setup, DrainOne(setup, e).engine)
  {
    DrainOneShrinks(setup, e);
    DrainOneEvents(setup, e);
  }

  /** One turn of the loop that empties the capture ring. */
  function DrainTurn(setup: Setup, e: Engine): Trace
    requires Sound(setup)
  {
    if e.capture == [] then Quiet(e) else DrainOne(setup, e)
  }

  function DrainCapture(setup: Setup, e: Engine): Trace
    requires Sound(setup)
    decreases |e.capture|
  {
    if e.capture == [] then Quiet(e)
    else
      DrainOneShrinks(setup, e);
      var first := DrainOne(setup, e);
      Then(first, DrainCapture(setup, first.engine))
  }

  // ----- reception

  function Arrival(sp: Speaker, v: Voice, now: uint32): Speaker {
    sp.(jitter := Push(sp.jitter, v.seqNo, v.payload),
        lastRxMs := now, lastRxFlags := v.flags, speaking := true)
  }

  /** The voice packet in the data, if the engine has a slot for its speaker; `maxPlayers`
      is compared after truncation to 16 bits. */
  function Addressed(setup: Setup, data: seq<Byte>): Option<Voice> {
    match setup.format.read(data)
    case None => None
    case Some(v) => if v.speakerId == 0 || v.speakerId > setup.maxPlayers % TWO16 then None else Some(v)
  }

  function IngestStatus(data: seq<Byte>): int {
    if |data| == 0 then ERR_INVALID_ARGUMENT else OK
  }

  function Ingest(setup: Setup, e: Engine, data: seq<Byte>, now: uint32): Trace
    requires |e.speakers| == setup.maxPlayers
  {
    match Addressed(setup, data)
    case None => Quiet(e)
    case Some(v) =>
      var i := v.speakerId - 1;
      var e1 := e.(speakers := e.speakers[i := Arrival(e.speakers[i], v, now)]);
      if e.speakers[i].speaking then Quiet(e1)
      else
        Quiet(Emit(e1, SpeakingEvent(v.speakerId, true))).(attempted := [SpeakingEvent(v.speakerId, true)])
  }

  // ----- the tick

  predicate TimedOut(sp: Speaker, now: uint32) {
    sp.speaking && Sub32(now, sp.lastRxMs) > SPEAKING_TIMEOUT_MS
  }

  function IdOf(i: nat): uint16 {
    (i + 1) % TWO16
  }

  function Decoded(setup: Setup, sp: Speaker): PcmFrame {
    setup.decode(sp.decoderLog + [Pop(sp.jitter).1])
  }

  /** The speaker after its part of a tick; `pcmCount` has been cleared for all speakers before. */
  function TickSpeaker(setup: Setup, sp: Speaker, now: uint32): Speaker {
    var sp1 := sp.(pcmCount := 0, speaking := sp.speaking && !TimedOut(sp, now), jitter := Pop(sp.jitter).0);
    if Pop(sp.jitter).1.Idle? then sp1
    else
      var samples := Decoded(setup, sp);
      var sp2 := sp1.(decoderLog := sp.decoderLog + [Pop(sp.jitter).1]);
      sp2.(pcm := Overwrite(sp.pcm, samples), pcmCount := |samples|)
  }

  /** The decoder writes from the start of the buffer; older samples stay behind the new ones. */
  function Overwrite(pcm: PcmFrame, samples: PcmFrame): PcmFrame {
    samples + if |samples| <= |pcm| then pcm[|samples|..] else []
  }

  lemma TickSpeakerOk(setup: Setup, sp: Speaker, now: uint32)
    requires Sound(setup) && SpeakerOk(setup, sp)
    ensures SpeakerOk(setup, TickSpeaker(setup, sp, now))
  {
    OperationsKeepPlacement(sp.jitter, 0, []);
  }

  lemma ArrivalOk(setup: Setup, sp: Speaker, v: Voice, now: uint32)
    requires SpeakerOk(setup, sp)
    ensures SpeakerOk(setup, Arrival(sp, v, now))
  {
    OperationsKeepPlacement(sp.jitter, v.seqNo, v.payload);
  }

  function TimeoutEvents(sp: Speaker, i: nat, now: uint32): seq<Event> {
    if TimedOut(sp, now) then [SpeakingEvent(IdOf(i), false)] else []
  }

  function PcmEvents(setup: Setup, sp: Speaker, i: nat): seq<Event> {
    if Pop(sp.jitter).1.Idle? || Decoded(setup, sp) == [] then []
    else
      [PcmEvent(IdOf(i), setup.sampleRate, sp.lastRxFlags, FlagsChannel(sp.lastRxFlags), i, |Decoded(setup, sp)|)]
  }

  function SpeakerEvents(setup: Setup, sp: Speaker, i: nat, now: uint32): seq<Event> {
    TimeoutEvents(sp, i, now) + PcmEvents(setup, sp, i)
  }

  function EventsBySpeaker(setup: Setup, speakers: seq<Speaker>, now: uint32): seq<seq<Event>> {
    seq(|speakers|, i requires 0 <= i < |speakers| => SpeakerEvents(setup, speakers[i], i, now))
  }

  function TickSpeakers(setup: Setup, e: Engine, now: uint32): Trace
    requires |e.events| <= EVENT_CAP
  {
    var attempted := Joined(EventsBySpeaker(setup, e.speakers, now));
    Quiet(e.(speakers := seq(|e.speakers|, i requires 0 <= i < |e.speakers| => TickSpeaker(setup, e.speakers[i], now)),
             events := OfferAll(e.events, attempted, EVENT_CAP))).(attempted := attempted)
  }

  lemma {:induction false} DrainKeepsRest(setup: Setup, e: Engine)
    requires Sound(setup) && Bounded(setup, e)
    ensures var t := DrainCapture(setup, e);
            && Bounded(setup, t.engine)
            && t.engine.speakers == e.speakers && t.engine.capture == []
            && t.captured == [] && t.polled == []
            && t.engine.events == OfferAll(e.events, t.attempted, EVENT_CAP)
            && |t.attempted| <= |e.capture|
    decreases |e.capture|
  {
    if e.capture != [] {
      DrainOneShrinks(setup, e);
      var first := DrainOne(setup, e);
      DrainOneEvents(setup, e);
      DrainKeepsRest(setup, first.engine);
      OfferAllCompose(e.events, first.attempted, DrainCapture(setup, first.engine).attempted, EVENT_CAP);
    }
  }

  function Tick(setup: Setup, e: Engine, now: uint32): Trace
    requires Sound(setup) && Bounded(setup, e)
  {
    DrainKeepsRest(setup, e);
    var drained := DrainCapture(setup, e);
    Then(drained, TickSpeakers(setup, drained.engine, now))
  }

  // ----- polling

  function PollStatus(e: Engine, room: nat): int {
    if e.out == [] then 0 else if |e.out[0]| > room then -1 else 1
  }

  function PollOutgoing(e: Engine, room: nat): Trace {
    if PollStatus(e, room) == 1 then Quiet(e.(out := e.out[1..])).(polled := [e.out[0]]) else Quiet(e)
  }

  function PollEvent(e: Engine): Trace {
    Quiet(e.(events := TakeOne(e.events)))
  }

  // ----- runs

  /** The calls of the host. `DoDrainTurn` is one turn of the drain loop within a tick: what a
      tick does while another thread submits is a run of turns and submits, then a tick. */
  datatype Call =
    | DoConnect(sessionId: bv64, playerId: uint16)
    | DoDisconnect
    | DoSetLocalState(st: LocalState)
    | DoSubmit(samples: PcmFrame)
    | DoIngest(data: seq<Byte>, now: uint32)
    | DoPollOutgoing(room: nat)
    | DoPollEvent
    | DoDrainTurn
    | DoTick(now: uint32)

  function Perform(setup: Setup, e: Engine, call: Call): Trace
    requires Sound(setup) && Bounded(setup, e)
  {
    match call
    case DoConnect(sessionId, playerId) => Connect(setup, e, sessionId, playerId)
    case DoDisconnect => Disconnect(e)
    case DoSetLocalState(st) => Quiet(e.(local := Some(st)))
    case DoSubmit(samples) => Submit(setup, e, samples)
    case DoIngest(data, now) => Ingest(setup, e, data, now)
    case DoPollOutgoing(room) => PollOutgoing(e, room)
    case DoPollEvent => PollEvent(e)
    case DoDrainTurn => DrainTurn(setup, e)
    case DoTick(now) => Tick(setup, e, now)
  }

  lemma IngestKeepsBounds(setup: Setup, e: Engine, data: seq<Byte>, now: uint32)
    requires Sound(setup) && Bounded(setup, e)
    ensures Bounded(setup, Ingest(setup, e, data, now).engine)
  {
    match Addressed(setup, data)
    case None =>
    case Some(v) => ArrivalOk(setup, e.speakers[v.speakerId - 1], v, now);
  }

  lemma TickKeepsBounds(setup: Setup, e: Engine, now: uint32)
    requires Sound(setup) && Bounded(setup, e)
    ensures Bounded(setup, Tick(setup, e, now).engine)
  {
    DrainKeepsRest(setup, e);
    TickSpeakersKeepsBounds(setup, DrainCapture(setup, e).engine, now);
  }

  lemma TickSpeakersKeepsBounds(setup: Setup, e: Engine, now: uint32)
    requires Sound(setup) && Bounded(setup, e)
    ensures Bounded(setup, TickSpeakers(setup, e, now).engine)
  {
    forall i | 0 <= i < |e.speakers|
      ensures SpeakerOk(setup, TickSpeaker(setup, e.speakers[i], now))
    {
      TickSpeakerOk(setup, e.speakers[i], now);
    }
  }

  lemma DrainTurnKeepsBounds(setup: Setup, e: Engine)
    requires Sound(setup) && Bounded(setup, e)
    ensures Bounded(setup, DrainTurn(setup, e).engine)
  {
    if e.capture != [] {
      DrainOneBounded(setup, e);
    }
  }

  lemma PerformKeepsBounds(setup: Setup, e: Engine, call: Call)
    requires Sound(setup) && Bounded(setup, e)
    ensures Bounded(setup, Perform(setup, e, call).engine)
  {
    match call
    case DoIngest(data, now) => IngestKeepsBounds(setup, e, data, now);
    case DoDrainTurn => DrainTurnKeepsBounds(setup, e);
    case DoTick(now) => TickKeepsBounds(setup, e, now);
    case _ =>
  }

  /** A run from a given state, with all its logs. */
  function Run(setup: Setup, e: Engine, calls: seq<Call>): (t: Trace)
    requires Sound(setup) && Bounded(setup, e)
    ensures Bounded(setup, t.engine)
  {
    if calls == [] then Quiet(e)
    else
      var before := Run(setup, e, calls[..|calls| - 1]);
      var call := calls[|calls| - 1];
      PerformKeepsBounds(setup, before.engine, call);
      Then(before, Perform(setup, before.engine, call))
  }

  lemma RunLastCall(setup: Setup, e: Engine, calls: seq<Call>, call: Call)
    requires Sound(setup) && Bounded(setup, e)
    ensures var t := Run(setup, e, calls);
            && Run(setup, e, calls + [call]).engine == Perform(setup, t.engine, call).engine
            && Run(setup, e, calls + [call]).attempted == t.attempted + Perform(setup, t.engine, call).attempted
  {
    assert (calls + [call])[..|calls|] == calls;
  }

  lemma CreatedBounded(setup: Setup)
    requires Sound(setup)
    ensures Bounded(setup, Created(setup))
  {
  }

  /** A run from a freshly created engine. */
  function History(setup: Setup, calls: seq<Call>): (t: Trace)
    requires Sound(setup)
    ensures Bounded(setup, t.engine)
  {
    CreatedBounded(setup);
    Run(setup, Created(setup), calls)
  }

  lemma HistoryLast(setup: Setup, calls: seq<Call>, call: Call)
    requires Sound(setup)
    ensures History(setup, calls + [call]).engine == Perform(setup, History(setup, calls).engine, call).engine
    ensures History(setup, calls + [call]).attempted ==
            History(setup, calls).attempted + Perform(setup, History(setup, calls).engine, call).attempted
  {
    CreatedBounded(setup);
    RunLastCall(setup, Created(setup), calls, call);
  }

  // ----- a tick among submits

  lemma ThenAssociates(a: Trace, b: Trace, c: Trace)
    ensures Then(a, Then(b, c)) == Then(Then(a, b), c)
  {
  }

  /** A tick is a turn of its drain loop and then a tick, so turns may be split off, */
  lemma TickInTurns(setup: Setup, e: Engine, now: uint32)
    requires Sound(setup) && Bounded(setup, e)
    ensures Bounded(setup, DrainTurn(setup, e).engine)
    ensures Tick(setup, e, now) == Then(DrainTurn(setup, e), Tick(setup, DrainTurn(setup, e).engine, now))
  {
    DrainTurnKeepsBounds(setup, e);
    DrainKeepsRest(setup, e);
    DrainKeepsRest(setup, DrainTurn(setup, e).engine);
    if e.capture == [] {
      assert Then(Quiet(e), Tick(setup, e, now)) == Tick(setup, e, now);
    } else {
      var first := DrainOne(setup, e);
      var rest := DrainCapture(setup, first.engine);
      ThenAssociates(first, rest, TickSpeakers(setup, rest.engine, now));
    }
  }

  lemma TickSpeakersKeepsCapture(setup: Setup, e: Engine, capture: seq<PcmFrame>, now: uint32)
    requires |e.events| <= EVENT_CAP
    ensures var ticked, other := TickSpeakers(setup, e, now), TickSpeakers(setup, e.(capture := capture), now);
            && ticked.engine.capture == e.capture && ticked.engine.connected == e.connected
            && other.engine == ticked.engine.(capture := capture)
            && other.attempted == ticked.attempted
  {
  }

  /** with submits between them; and a submit that comes when the ring has been found empty
      finds it as if the tick were over. */
  lemma SubmitAfterDrain(setup: Setup, e: Engine, samples: PcmFrame, now: uint32)
    requires |e.events| <= EVENT_CAP
    ensures var submitted, ticked := Submit(setup, e, samples), TickSpeakers(setup, e, now);
            && TickSpeakers(setup, submitted.engine, now).engine == Submit(setup, ticked.engine, samples).engine
            && TickSpeakers(setup, submitted.engine, now).attempted == ticked.attempted
            && Submit(setup, ticked.engine, samples).captured == submitted.captured
            && SubmitStatus(setup, ticked.engine, samples) == SubmitStatus(setup, e, samples)
  {
    var submitted := Submit(setup, e, samples);
    assert submitted.engine == e.(capture := submitted.engine.capture);
    TickSpeakersKeepsCapture(setup, e, submitted.engine.capture, now);
  }
}
