/** The engine as the C code keeps it: an object with rings and per-speaker buffers updated
    in place. Every public call is proved against its function in EngineModel.dfy, so the
    theorems about runs hold of this object. */
module VoiceEngines {
  import opened Words
  import opened Sequences
  import opened BoundedFifo
  import opened WireFormat
  import opened Packets
  import opened JitterModel
  import opened JitterBuffers
  import opened Mixer
  import opened EngineModel
  import EngineDecoding

  /** One entry of each per-speaker array. `decoderLog` stands for the opaque decoder's state. */
  class SpeakerState {
    const jb: JitterBuffer
    const pcmBuf: array<int16>
    var decoderLog: seq<PopResult>
    var pcmCount: nat
    var speaking: bool
    var lastRxMs: uint32
    var lastRxFlags: Byte

    ghost function Repr(): set<object> {
      {this, jb, jb.packets, pcmBuf}
    }

    ghost predicate Valid()
      reads Repr()
    {
      jb.Valid() && pcmCount <= pcmBuf.Length
    }

    ghost function Model(): Speaker
      requires Valid()
      reads Repr()
    {
      Speaker(jb.Model(), decoderLog, pcmBuf[..], pcmCount, speaking, lastRxMs, lastRxFlags)
    }

    constructor (frameSamples: nat)
      ensures Valid() && fresh(Repr()) && pcmBuf.Length == frameSamples
      ensures Model() == Speaker(Initial(), [], seq(frameSamples, _ => 0), 0, false, 0, 0)
    {
      jb := new JitterBuffer();
      pcmBuf := new int16[frameSamples](_ => 0);
      decoderLog, pcmCount, speaking, lastRxMs, lastRxFlags := [], 0, false, 0, 0;
      new;
      assert pcmBuf[..] == seq(frameSamples, _ => 0);
    }

    method Receive(v: Voice, now: uint32) returns (starts: bool)
      requires Valid()
      modifies Repr()
      ensures Valid()
      ensures Model() == Arrival(old(Model()), v, now)
      ensures starts == !old(speaking)
    {
      lastRxFlags := v.flags;
      jb.Push(v.seqNo, v.payload);
      lastRxMs := now;
      starts := !speaking;
      speaking := true;
    }

    /** The first half of the speaker's part of a tick. */
    method CheckTimeout(now: uint32) returns (stops: bool)
      requires Valid()
      modifies this`speaking
      ensures Valid()
      ensures stops == TimedOut(old(Model()), now)
      ensures Model() == old(Model()).(speaking := old(speaking) && !stops)
    {
      stops := speaking && Sub32(now, lastRxMs) > SPEAKING_TIMEOUT_MS;
      if stops {
        speaking := false;
      }
    }

    /** The second half: pop, decode into the buffer, count. */
    method DecodeNext(decode: seq<PopResult> -> PcmFrame) returns (decoded: nat)
      requires Valid() && pcmCount == 0
      requires forall log :: |decode(log)| <= pcmBuf.Length
      modifies Repr()
      ensures Valid()
      ensures Model() == DecodedSpeaker(decode, old(Model()))
      ensures decoded == pcmCount
    {
      var result := jb.Pop();
      if result.Idle? {
        return 0;
      }
      decoderLog := decoderLog + [result];
      var samples := decode(decoderLog);
      forall i | 0 <= i < |samples| {
        pcmBuf[i] := samples[i];
      }
      assert pcmBuf[..] == Overwrite(old(pcmBuf[..]), samples);
      decoded := |samples|;
      if decoded > 0 {
        pcmCount := decoded;
      }
    }
  }

  class VoiceEngine {
    ghost const setup: Setup
    const maxPlayers: uint32
    const sampleRate: uint32
    const frameSamples: nat
    const mode: CaptureMode
    const encode: seq<PcmFrame> -> EncodeResult
    const decode: seq<PopResult> -> PcmFrame

    const capQ: CountedRing<PcmFrame>
    const outQ: CountedRing<seq<Byte>>
    const evq: CountedRing<Event>
    const speakers: seq<SpeakerState>

    var connected: bool
    var sessionId: bv64
    var playerId: uint16
    var local: Option<LocalState>
    var encoderLog: seq<PcmFrame>
    var nextSeq: uint16

    /** The objects of all speakers. */
    ghost const speakersRepr: set<object>

    ghost function RingsRepr(): set<object> {
      {capQ, capQ.slots, outQ, outQ.slots, evq, evq.slots}
    }

    /** The objects the engine is made of are all different. */
    ghost predicate Separate() {
      {this} !! {capQ, capQ.slots} !! {outQ, outQ.slots} !! {evq, evq.slots} !! speakersRepr
    }

    ghost predicate Configured() {
      && Sound(setup) && OnTheWire(setup.format)
      && setup.maxPlayers == maxPlayers && setup.sampleRate == sampleRate && setup.frameSamples == frameSamples
      && setup.mode == mode && setup.encode == encode && setup.decode == decode
      && |speakers| == maxPlayers
    }

    ghost predicate SpeakersValid()
      reads speakersRepr
    {
      && (forall i | 0 <= i < |speakers| ::
            speakers[i].Repr() <= speakersRepr && speakers[i].Valid() && speakers[i].pcmBuf.Length == frameSamples)
      && (forall i, j | 0 <= i < j < |speakers| :: speakers[i].Repr() !! speakers[j].Repr())
    }

    ghost predicate RingsValid()
      reads RingsRepr()
    {
      && capQ.Valid() && capQ.capacity == RING_CAP
      && outQ.Valid() && outQ.capacity == OUT_CAP
      && evq.Valid() && evq.capacity == EVENT_CAP
    }

    /** Only frames of the configured size get into the capture ring. */
    ghost predicate CaptureSized()
      requires capQ.Valid()
      reads capQ, capQ.slots
    {
      forall i | 0 <= i < |capQ.Contents()| :: |capQ.Contents()[i]| == frameSamples
    }

    ghost predicate Valid()
      reads this, RingsRepr(), speakersRepr
    {
      Separate() && Configured() && SpeakersValid() && RingsValid() && CaptureSized()
    }

    ghost function SpeakerModels(): (models: seq<Speaker>)
      requires SpeakersValid()
      reads speakersRepr
      ensures |models| == |speakers| && forall i | 0 <= i < |speakers| :: models[i] == speakers[i].Model()
    {
      seq(|speakers|, i requires 0 <= i < |speakers| && SpeakersValid() reads speakersRepr => speakers[i].Model())
    }

    ghost function Model(): Engine
      requires Valid()
      reads this, RingsRepr(), speakersRepr
    {
      Engine(connected, sessionId, playerId, local, capQ.Contents(), encoderLog, nextSeq,
             outQ.Contents(), evq.Contents(), SpeakerModels())
    }

    /** Puts an engine together from its parts. */
    constructor (ghost setup: Setup, encode: seq<PcmFrame> -> EncodeResult, decode: seq<PopResult> -> PcmFrame,
                 maxPlayers: uint32, sampleRate: uint32, frameSamples: nat, mode: CaptureMode,
                 captured: CountedRing<PcmFrame>, outgoing: CountedRing<seq<Byte>>, events: CountedRing<Event>,
                 made: seq<SpeakerState>, ghost objects: set<object>)
      ensures this.setup == setup && this.encode == encode && this.decode == decode
      ensures this.maxPlayers == maxPlayers && this.sampleRate == sampleRate
      ensures this.frameSamples == frameSamples && this.mode == mode
      ensures capQ == captured && outQ == outgoing && evq == events && speakers == made && speakersRepr == objects
      ensures !connected && sessionId == 0 && playerId == 0 && local == None && encoderLog == [] && nextSeq == 0
    {
      this.setup, this.encode, this.decode := setup, encode, decode;
      this.maxPlayers, this.sampleRate, this.frameSamples, this.mode := maxPlayers, sampleRate, frameSamples, mode;
      capQ, outQ, evq, speakers, speakersRepr := captured, outgoing, events, made, objects;
      connected, sessionId, playerId, local, encoderLog, nextSeq := false, 0, 0, None, [], 0;
    }

    /** None is the null that creation returns for a configuration it refuses. */
    static method Create(config: Config, encode: seq<PcmFrame> -> EncodeResult, decode: seq<PopResult> -> PcmFrame,
                         ghost format: Format)
      returns (created: Option<VoiceEngine>)
      requires CodecSound(SetupOf(config, encode, decode, format)) && OnTheWire(format)
      ensures created.Some? <==> Creatable(config)
      ensures created.Some? ==>
                var v := created.value;
                && fresh(v) && fresh(v.RingsRepr()) && fresh(v.speakersRepr)
                && v.Valid() && v.setup == SetupOf(config, encode, decode, format)
                && v.Model() == Created(v.setup)
    {
      if config.apiVersion / TWO16 != VERSION_MAJOR || config.apiVersion % TWO16 > VERSION_MINOR
          || config.maxPlayers == 0 {
        return None;
      }
      var mode := if config.captureMode != CAPTURE_ALWAYS_ON then PttOnly else AlwaysOn;
      var frameSamples := config.sampleRateHz * config.frameMs % TWO32 / 1000;
      if frameSamples == 0 || frameSamples > MAX_SAMPLES {
        return None;
      }
      var v := Assemble(SetupOf(config, encode, decode, format), encode, decode,
                        config.maxPlayers, config.sampleRateHz, frameSamples, mode);
      return Some(v);
    }

    static method Assemble(ghost setup: Setup, encode: seq<PcmFrame> -> EncodeResult,
                           decode: seq<PopResult> -> PcmFrame, maxPlayers: uint32, sampleRate: uint32,
                           frameSamples: nat, mode: CaptureMode)
      returns (v: VoiceEngine)
      requires Sound(setup) && OnTheWire(setup.format)
      requires setup.maxPlayers == maxPlayers && setup.sampleRate == sampleRate && setup.frameSamples == frameSamples
      requires setup.mode == mode && setup.encode == encode && setup.decode == decode
      ensures fresh(v) && fresh(v.RingsRepr()) && fresh(v.speakersRepr)
      ensures v.Valid() && v.setup == setup && v.Model() == Created(setup)
    {
      var captured, outgoing, events := MakeRings();
      var made, objects := MakeSpeakers(maxPlayers, frameSamples);
      v := new VoiceEngine(setup, encode, decode, maxPlayers, sampleRate, frameSamples, mode,
                           captured, outgoing, events, made, objects);
      assert v.SpeakerModels() == seq(maxPlayers, _ => NewSpeaker(setup));
    }

    static method MakeRings()
      returns (captured: CountedRing<PcmFrame>, outgoing: CountedRing<seq<Byte>>, events: CountedRing<Event>)
      ensures fresh({captured, captured.slots, outgoing, outgoing.slots, events, events.slots})
      ensures {captured, captured.slots} !! {outgoing, outgoing.slots} !! {events, events.slots}
      ensures captured.Valid() && captured.capacity == RING_CAP && captured.Contents() == []
      ensures outgoing.Valid() && outgoing.capacity == OUT_CAP && outgoing.Contents() == []
      ensures events.Valid() && events.capacity == EVENT_CAP && events.Contents() == [LogEvent(0)]
    {
      captured := new CountedRing<PcmFrame>(RING_CAP);
      outgoing := new CountedRing<seq<Byte>>(OUT_CAP);
      events := new CountedRing<Event>(EVENT_CAP);
      var _ := events.Push(LogEvent(0));
    }

    static method MakeSpeakers(n: nat, frameSamples: nat) returns (made: seq<SpeakerState>, ghost objects: set<object>)
      ensures |made| == n && fresh(objects)
      ensures forall i | 0 <= i < n ::
                && made[i].Repr() <= objects && made[i].Valid() && made[i].pcmBuf.Length == frameSamples
                && made[i].Model() == Speaker(Initial(), [], seq(frameSamples, _ => 0), 0, false, 0, 0)
      ensures forall i, j | 0 <= i < j < n :: made[i].Repr() !! made[j].Repr()
    {
      made, objects := [], {};
      while |made| < n
        invariant |made| <= n && fresh(objects)
        invariant forall i | 0 <= i < |made| ::
                    && made[i].Repr() <= objects && made[i].Valid() && made[i].pcmBuf.Length == frameSamples
                    && made[i].Model() == Speaker(Initial(), [], seq(frameSamples, _ => 0), 0, false, 0, 0)
        invariant forall i, j | 0 <= i < j < |made| :: made[i].Repr() !! made[j].Repr()
      {
        var sp := new SpeakerState(frameSamples);
        made := made + [sp];
        objects := objects + sp.Repr();
      }
    }

    method EmitEvent(ev: Event)
      requires Valid()
      modifies evq`w, evq.slots
      ensures Valid()
      ensures Model() == Emit(old(Model()), ev)
    {
      var _ := evq.Push(ev);
    }

    method Connect(sessionId: bv64, playerId: uint16) returns (status: int)
      requires Valid()
      modifies this, RingsRepr()
      ensures Valid()
      ensures Model() == EngineModel.Connect(setup, old(Model()), sessionId, playerId).engine
      ensures status == if |old(outQ.Contents())| < OUT_CAP then OK else ERR_INTERNAL
    {
      SetSession(sessionId, playerId);
      var pkt := BuildJoin(sessionId, playerId);
      assert pkt == setup.format.join(Join(sessionId, playerId));
      var pushed := QueuePacket(pkt);
      if !pushed {
        EmitEvent(ErrorEvent(ERR_INTERNAL));
        return ERR_INTERNAL;
      }
      SetConnected(true);
      EmitEvent(ConnectedEvent);
      return OK;
    }

    method SetSession(sessionId: bv64, playerId: uint16)
      requires Valid()
      modifies this`sessionId, this`playerId
      ensures Valid()
      ensures Model() == old(Model()).(sessionId := sessionId, playerId := playerId)
    {
      this.sessionId := sessionId;
      this.playerId := playerId;
    }

    method SetConnected(connected: bool)
      requires Valid()
      modifies this`connected
      ensures Valid()
      ensures Model() == old(Model()).(connected := connected)
    {
      this.connected := connected;
    }

    static method BuildJoin(sessionId: bv64, playerId: uint16) returns (pkt: seq<Byte>)
      ensures pkt == JoinPacket(Join(sessionId, playerId))
    {
      var buffer := new Byte[64];
      var pktLen := BuildJoinPacket(buffer, 64, sessionId, playerId);
      pkt := buffer[..pktLen];
    }

    method QueuePacket(pkt: seq<Byte>) returns (ok: bool)
      requires Valid()
      modifies outQ`w, outQ.slots
      ensures Valid()
      ensures ok == (|old(Model()).out| < OUT_CAP)
      ensures Model() == old(Model()).(out := Offer(old(Model()).out, pkt, OUT_CAP))
    {
      ok := outQ.Push(pkt);
    }

    method Disconnect()
      requires Valid()
      modifies this`connected, evq`w, evq.slots
      ensures Valid()
      ensures Model() == EngineModel.Disconnect(old(Model())).engine
    {
      SetConnected(false);
      EmitEvent(DisconnectedEvent);
    }

    method SetLocalState(st: LocalState)
      requires Valid()
      modifies this`local
      ensures Valid()
      ensures Model() == old(Model()).(local := Some(st))
    {
      local := Some(st);
    }

    /** Both submit calls go through the ring. */
    method SubmitCapture(samples: PcmFrame) returns (status: int)
      requires Valid()
      modifies capQ`w, capQ.slots
      ensures Valid()
      ensures status == SubmitStatus(setup, old(Model()), samples)
      ensures Model() == Submit(setup, old(Model()), samples).engine
    {
      if |samples| == 0 {
        return ERR_INVALID_ARGUMENT;
      }
      if !connected {
        return ERR_NOT_CONNECTED;
      }
      if |samples| != frameSamples {
        return ERR_INVALID_ARGUMENT;
      }
      var _ := capQ.Push(samples);
      return OK;
    }

    method ShouldTransmitNow() returns (ok: bool)
      requires Valid()
      ensures ok == ShouldTransmit(setup, Model())
    {
      if mode == PttOnly {
        return local.Some? && local.value.pttDown;
      }
      if local.Some? && local.value.radioEnabled {
        return local.value.pttDown;
      }
      return true;
    }

    method Encode(frame: PcmFrame) returns (encoded: EncodeResult)
      requires Valid()
      modifies this`encoderLog
      ensures Valid()
      ensures Model() == old(Model()).(encoderLog := old(Model()).encoderLog + [frame])
      ensures encoded == setup.encode(Model().encoderLog)
    {
      encoderLog := encoderLog + [frame];
      encoded := encode(encoderLog);
    }

    method GetTxFlags() returns (flags: Byte)
      requires Valid()
      ensures flags == TxFlags(Model())
    {
      flags := match local
        case None => FlagsMake(false, 0, false)
        case Some(st) => FlagsMake(st.radioEnabled, st.radioChannel & 0x0F, st.pttDown);
    }

    method TakeSeq() returns (seqNo: uint16)
      requires Valid()
      modifies this`nextSeq
      ensures Valid()
      ensures seqNo == old(Model()).nextSeq
      ensures Model() == old(Model()).(nextSeq := Next16(seqNo))
    {
      seqNo := nextSeq;
      nextSeq := Next16(nextSeq);
    }

    method EncodeAndQueueVoice(frame: PcmFrame)
      requires Valid() && |frame| == frameSamples
      modifies this`encoderLog, this`nextSeq, outQ`w, outQ.slots, evq`w, evq.slots
      ensures Valid()
      ensures Model() == Transmit(setup, old(Model()), frame).engine
    {
      var transmit := ShouldTransmitNow();
      if !transmit {
        return;
      }
      var encoded := Encode(frame);
      if encoded.EncodeFailed? {
        EmitEvent(ErrorEvent(ERR_INTERNAL));
        return;
      }
      NumberAndQueue(encoded.packet);
    }

    method NumberAndQueue(opus: seq<Byte>)
      requires Valid() && Accepted(opus)
      modifies this`nextSeq, outQ`w, outQ.slots, evq`w, evq.slots
      ensures Valid()
      ensures Model() == QueueVoice(setup, old(Model()), opus).engine
    {
      var pkt := BuildNumbered(opus);
      var pushed := QueuePacket(pkt);
      if !pushed {
        EmitEvent(LogEvent(1));
      }
    }

    /** The packet with the current flags and the next number, which is used up. */
    method BuildNumbered(opus: seq<Byte>) returns (pkt: seq<Byte>)
      requires Valid() && Accepted(opus)
      modifies this`nextSeq
      ensures Valid()
      ensures var e := old(Model());
              && Model() == e.(nextSeq := Next16(e.nextSeq))
              && pkt == setup.format.voice(Voice(e.playerId, e.nextSeq, TxFlags(e), opus))
    {
      var flags := GetTxFlags();
      var seqNo := TakeSeq();
      pkt := BuildVoice(playerId, seqNo, flags, opus);
    }

    /** Builds into a buffer of the largest packet size, which always suffices. */
    static method BuildVoice(speakerId: uint16, seqNo: uint16, flags: Byte, opus: seq<Byte>) returns (pkt: seq<Byte>)
      requires Accepted(opus)
      ensures pkt == VoicePacket(Voice(speakerId, seqNo, flags, opus))
    {
      var buffer := new Byte[MAX_PKT_SIZE];
      var pktLen := BuildVoicePacket(buffer, MAX_PKT_SIZE, speakerId, seqNo, flags, opus, |opus|);
      assert opus[..|opus|] == opus;
      pkt := buffer[..pktLen];
    }

    method IngestPacket(data: seq<Byte>, now: uint32) returns (status: int)
      requires Valid()
      modifies speakersRepr, evq`w, evq.slots
      ensures Valid()
      ensures status == IngestStatus(data)
      ensures Model() == Ingest(setup, old(Model()), data, now).engine
    {
      if |data| == 0 {
        NothingInEmpty(setup);
        return ERR_INVALID_ARGUMENT;
      }
      var addressed := ReadAddressed(data);
      if addressed.None? {
        return OK;
      }
      ghost var e := Model();
      Accept(addressed.value, now);
      IngestIs(setup, e, data, now, addressed.value, Model());
      return OK;
    }

    /** A packet for one of the engine's speakers. */
    method Accept(v: Voice, now: uint32)
      requires Valid() && 1 <= v.speakerId <= |speakers|
      modifies speakersRepr, evq`w, evq.slots
      ensures Valid()
      ensures AcceptedBy(old(Model()), v, now, Model())
    {
      ghost var e := Model();
      var starts := ReceiveFor(v.speakerId - 1, v, now);
      AnnounceIf(starts, e, v, now);
    }

    /** The event that goes with a speaker's first packet; `e` is the engine before it. */
    method AnnounceIf(starts: bool, ghost e: Engine, v: Voice, now: uint32)
      requires Valid() && 1 <= v.speakerId <= |e.speakers|
      requires var i := v.speakerId - 1;
               && starts == !e.speakers[i].speaking
               && Model() == e.(speakers := e.speakers[i := Arrival(e.speakers[i], v, now)])
      modifies evq`w, evq.slots
      ensures Valid() && AcceptedBy(e, v, now, Model())
    {
      if starts {
        EmitEvent(SpeakingEvent(v.speakerId, true));
      }
    }

    /** Parsing and the speaker check, before anything is changed. */
    method ReadAddressed(data: seq<Byte>) returns (addressed: Option<Voice>)
      requires Configured()
      ensures addressed == Addressed(setup, data)
      ensures addressed.Some? ==> 1 <= addressed.value.speakerId <= |speakers|
    {
      assert setup.format.read(data) == ReadDatagram(data);
      if |data| >= 0x8000_0000 {
        return None;
      }
      var parsed := ParseVoice(data);
      if parsed.Err? {
        return None;
      }
      var id := parsed.value.speakerId;
      if id == 0 || id > maxPlayers % TWO16 {
        return None;
      }
      return Some(parsed.value);
    }

    method ReceiveFor(i: nat, v: Voice, now: uint32) returns (starts: bool)
      requires Valid() && i < |speakers|
      modifies speakersRepr
      ensures Valid()
      ensures starts == !old(Model()).speakers[i].speaking
      ensures var e := old(Model());
              Model() == e.(speakers := e.speakers[i := Arrival(e.speakers[i], v, now)])
    {
      starts := ReceiveAt(i, v, now);
    }

    method ReceiveAt(i: nat, v: Voice, now: uint32) returns (starts: bool)
      requires SpeakersValid() && i < |speakers|
      modifies speakersRepr
      ensures SpeakersValid()
      ensures starts == !old(SpeakerModels())[i].speaking
      ensures SpeakerModels() == old(SpeakerModels())[i := Arrival(old(SpeakerModels())[i], v, now)]
    {
      starts := speakers[i].Receive(v, now);
    }

    method PollOutgoing(out: array<Byte>, room: uint32) returns (status: int, size: nat)
      requires Valid() && room <= out.Length
      requires out !in RingsRepr() && out !in speakersRepr
      modifies out, outQ`r
      ensures Valid()
      ensures status == PollStatus(old(Model()), room)
      ensures Model() == EngineModel.PollOutgoing(old(Model()), room).engine
      ensures status != 1 ==> out[..] == old(out[..])
      ensures status == 1 ==> size <= room && out[..size] == old(outQ.Contents())[0] && out[size..] == old(out[size..])
    {
      var p;
      status, p := TakeOutgoing(room);
      size := 0;
      if status == 1 {
        size := |p|;
        CopyOut(out, p);
      }
    }

    /** The caller's buffer is none of the engine's. */
    method CopyOut(out: array<Byte>, p: seq<Byte>)
      requires Valid() && |p| <= out.Length && out !in RingsRepr() && out !in speakersRepr
      modifies out
      ensures Valid() && Model() == old(Model())
      ensures out[..|p|] == p && out[|p|..] == old(out[|p|..])
    {
      CopyInto(out, 0, p);
    }

    method TakeOutgoing(room: nat) returns (status: int, p: seq<Byte>)
      requires Valid()
      modifies outQ`r
      ensures Valid()
      ensures status == PollStatus(old(Model()), room)
      ensures Model() == EngineModel.PollOutgoing(old(Model()), room).engine
      ensures status == 1 ==> old(Model()).out != [] && p == old(Model()).out[0] && |p| <= room
    {
      CountersMove(outQ.r, outQ.w);
      if outQ.r == outQ.w {
        return 0, [];
      }
      p := outQ.Front();
      if |p| > room {
        return -1, p;
      }
      var _ := outQ.Pop();
      return 1, p;
    }

    method PollEvent() returns (ev: Option<Event>)
      requires Valid()
      modifies evq`r
      ensures Valid()
      ensures ev == if old(evq.Contents()) == [] then None else Some(old(evq.Contents())[0])
      ensures Model() == EngineModel.PollEvent(old(Model())).engine
    {
      ev := evq.Pop();
    }

    method CheckTimeoutAt(i: nat, now: uint32) returns (stops: bool)
      requires SpeakersValid() && i < |speakers|
      modifies speakersRepr
      ensures SpeakersValid()
      ensures var sp := old(SpeakerModels())[i];
              && stops == TimedOut(sp, now)
              && SpeakerModels() == old(SpeakerModels())[i := sp.(speaking := sp.speaking && !stops)]
    {
      stops := speakers[i].CheckTimeout(now);
    }

    method DecodeAt(i: nat) returns (decoded: nat)
      requires SpeakersValid() && i < |speakers| && SpeakerModels()[i].pcmCount == 0
      requires forall log :: |decode(log)| <= frameSamples
      modifies speakersRepr
      ensures SpeakersValid()
      ensures SpeakerModels() == old(SpeakerModels())[i := DecodedSpeaker(decode, old(SpeakerModels())[i])]
      ensures decoded == DecodedSpeaker(decode, old(SpeakerModels())[i]).pcmCount
    {
      decoded := speakers[i].DecodeNext(decode);
    }

    lemma ModelIsBounded()
      requires Valid()
      ensures Bounded(setup, Model())
    {
    }

    method GatherPcm() returns (bufs: seq<array<int16>>, counts: array<nat>)
      requires SpeakersValid()
      ensures fresh(counts) && |bufs| == counts.Length == |speakers|
      ensures forall i | 0 <= i < |speakers| :: bufs[i] == speakers[i].pcmBuf && counts[i] == speakers[i].pcmCount
    {
      counts := new nat[|speakers|];
      bufs := [];
      for i := 0 to |speakers|
        invariant |bufs| == i && forall j | 0 <= j < i ::
                  bufs[j] == speakers[j].pcmBuf && counts[j] == speakers[j].pcmCount
      {
        bufs := bufs + [speakers[i].pcmBuf];
        counts[i] := speakers[i].pcmCount;
      }
    }

    method ClearCountAt(i: nat)
      requires SpeakersValid() && i < |speakers|
      modifies speakersRepr
      ensures SpeakersValid()
      ensures SpeakerModels() == old(SpeakerModels())[i := old(SpeakerModels())[i].(pcmCount := 0)]
    {
      speakers[i].pcmCount := 0;
    }

    method ClearCounts()
      requires SpeakersValid()
      modifies speakersRepr
      ensures SpeakersValid()
      ensures SpeakerModels() == Cleared(old(SpeakerModels()), |speakers|)
    {
      for i := 0 to |speakers|
        invariant SpeakersValid()
        invariant SpeakerModels() == Cleared(old(SpeakerModels()), i)
      {
        ClearCountAt(i);
      }
    }

    /** One speaker's part of the tick, its sample count already cleared. */
    method TickOne(i: nat, now: uint32)
      requires Valid() && i < |speakers| && Model().speakers[i].pcmCount == 0
      modifies speakersRepr, evq`w, evq.slots
      ensures Valid()
      ensures var e := old(Model());
              Model() == e.(speakers := e.speakers[i := TickSpeaker(setup, e.speakers[i], now)],
                            events := OfferAll(e.events, SpeakerEvents(setup, e.speakers[i], i, now), EVENT_CAP))
    {
      ghost var e := Model();
      TimeoutPart(i, now);
      ghost var e1 := Model();
      DecodePart(i);
      PartsAreTick(setup, e, i, now, e1, Model());
    }

    method TimeoutPart(i: nat, now: uint32)
      requires Valid() && i < |speakers|
      modifies speakersRepr, evq`w, evq.slots
      ensures Valid()
      ensures var e := old(Model());
              var sp := e.speakers[i];
              Model() == e.(speakers := e.speakers[i := sp.(speaking := sp.speaking && !TimedOut(sp, now))],
                            events := OfferAll(e.events, TimeoutEvents(sp, i, now), EVENT_CAP))
    {
      OfferOne(Model().events, SpeakingEvent(IdOf(i), false), EVENT_CAP);
      var stops := CheckTimeoutAt(i, now);
      if stops {
        EmitEvent(SpeakingEvent(IdOf(i), false));
      }
    }

    method DecodePart(i: nat)
      requires Valid() && i < |speakers| && Model().speakers[i].pcmCount == 0
      modifies speakersRepr, evq`w, evq.slots
      ensures Valid()
      ensures var e := old(Model());
              var sp := e.speakers[i];
              Model() == e.(speakers := e.speakers[i := DecodedSpeaker(decode, sp)],
                            events := OfferAll(e.events, PcmEvents(setup, sp, i), EVENT_CAP))
    {
      var flags := speakers[i].lastRxFlags;
      DecodedEvents(setup, Model().speakers[i], i);
      var decoded := DecodeAt(i);
      ghost var e := old(Model());
      var ev := PcmEvent(IdOf(i), sampleRate, flags, FlagsChannel(flags), i, decoded);
      OfferOne(e.events, ev, EVENT_CAP);
      if decoded > 0 {
        EmitEvent(ev);
      }
    }

    method PopFrame() returns (f: Option<PcmFrame>)
      requires Valid()
      modifies capQ`r
      ensures Valid()
      ensures f == if old(Model()).capture == [] then None else Some(old(Model()).capture[0])
      ensures Model() == old(Model()).(capture := TakeOne(old(Model()).capture))
    {
      f := capQ.Pop();
    }

    /** One turn of the drain loop; `more` tells whether there was a frame. */
    method DrainTurn() returns (more: bool)
      requires Valid()
      modifies this`encoderLog, this`nextSeq, capQ`r, outQ`w, outQ.slots, evq`w, evq.slots
      ensures Valid()
      ensures more == (old(Model()).capture != [])
      ensures Model() == EngineModel.DrainTurn(setup, old(Model())).engine
    {
      var f := PopFrame();
      more := f.Some?;
      if more && |f.value| == frameSamples {
        EncodeAndQueueVoice(f.value);
      }
    }

    /** A turn leaves the rest of the drain to be done. */
    method DrainTurnTowards(ghost drained: Engine) returns (more: bool)
      requires Valid() && DrainCapture(setup, Model()).engine == drained
      modifies this`encoderLog, this`nextSeq, capQ`r, outQ`w, outQ.slots, evq`w, evq.slots
      ensures Valid() && DrainCapture(setup, Model()).engine == drained
      ensures if more then |Model().capture| < |old(Model()).capture| else Model() == drained
    {
      DrainStep(setup, Model());
      more := DrainTurn();
    }

    method DrainCaptureQueue()
      requires Valid()
      modifies this`encoderLog, this`nextSeq, capQ`r, outQ`w, outQ.slots, evq`w, evq.slots
      ensures Valid()
      ensures Model() == DrainCapture(setup, old(Model())).engine
    {
      ghost var drained := DrainCapture(setup, Model()).engine;
      var more := DrainTurnTowards(drained);
      while more
        invariant Valid() && DrainCapture(setup, Model()).engine == drained
        invariant !more ==> Model() == drained
        decreases more, |Model().capture|
      {
        more := DrainTurnTowards(drained);
      }
    }

    /** The per-speaker loop of the tick. */
    method TickAllSpeakers(now: uint32)
      requires Valid() && forall i | 0 <= i < |speakers| :: Model().speakers[i].pcmCount == 0
      modifies speakersRepr, evq`w, evq.slots
      ensures Valid()
      ensures Model() == TickSpeakers(setup, old(Model()), now).engine
    {
      ghost var start := Model();
      TickedNone(setup, start, now);
      for i := 0 to |speakers|
        invariant Valid()
        invariant Model() == TickedUpTo(setup, start, i, now)
      {
        TickedStep(setup, start, i, now);
        TickOne(i, now);
      }
      TickedAll(setup, start, now);
    }

    method TickSpeakersPart(now: uint32)
      requires Valid()
      modifies speakersRepr, evq`w, evq.slots
      ensures Valid()
      ensures |old(Model()).events| <= EVENT_CAP
      ensures Model() == TickSpeakers(setup, old(Model()), now).engine
    {
      ClearedTicksAlike(setup, Model(), now);
      ClearCounts();
      TickAllSpeakers(now);
    }

    method Tick(now: uint32)
      requires Valid()
      modifies this, RingsRepr(), speakersRepr
      ensures Valid()
      ensures Bounded(setup, old(Model()))
      ensures Model() == EngineModel.Tick(setup, old(Model()), now).engine
    {
      ModelIsBounded();
      DrainCaptureQueue();
      TickSpeakersPart(now);
    }

    /** The mix of what the speakers decoded in the last tick. */
    method MixInto(out: array<int16>, outSamples: uint32) returns (result: int32)
      requires SpeakersValid() && outSamples <= out.Length && out !in speakersRepr
      modifies out
      ensures SpeakersValid()
      ensures forall s | 0 <= s < outSamples :: out[s] == Mix(Column(DecodedFrames(SpeakerModels()), |speakers|, s))
      ensures out[outSamples..] == old(out[outSamples..])
      ensures result ==
              if exists i | 0 <= i < |speakers| :: SpeakerModels()[i].pcmCount != 0 then AsInt32(outSamples) else 0
    {
      var bufs, counts := GatherPcm();
      FramesGathered(bufs, counts[..]);
      result := MixOutput(bufs, counts, out, outSamples);
      FramesGathered(bufs, counts[..]);
    }

    ghost predicate Gathered(bufs: seq<array<int16>>, counts: seq<nat>)
      reads speakersRepr
      requires SpeakersValid()
    {
      && |bufs| == |counts| == |speakers|
      && forall i | 0 <= i < |speakers| :: bufs[i] == speakers[i].pcmBuf && counts[i] == speakers[i].pcmCount
    }

    lemma FramesGathered(bufs: seq<array<int16>>, counts: seq<nat>)
      requires SpeakersValid() && Gathered(bufs, counts)
      ensures forall i | 0 <= i < |bufs| :: bufs[i] in speakersRepr && counts[i] <= bufs[i].Length
      ensures Frames(bufs, counts) == DecodedFrames(SpeakerModels())
    {
      assert forall i | 0 <= i < |speakers| :: bufs[i] in speakers[i].Repr();
    }
  }

  ghost function DecodedFrames(speakers: seq<Speaker>): (frames: seq<PcmFrame>)
    requires forall i | 0 <= i < |speakers| :: speakers[i].pcmCount <= |speakers[i].pcm|
    ensures |frames| == |speakers|
  {
    seq(|speakers|, i requires 0 <= i < |speakers| && speakers[i].pcmCount <= |speakers[i].pcm|
                    => speakers[i].pcm[..speakers[i].pcmCount])
  }

  /** What is mixed of a speaker is what its decoder made of all it has been fed, if the last
      tick decoded anything for it. */
  lemma MixedIsDecoded(setup: Setup, speakers: seq<Speaker>, i: nat)
    requires forall k | 0 <= k < |speakers| :: speakers[k].pcmCount <= |speakers[k].pcm|
    requires forall k | 0 <= k < |speakers| :: EngineDecoding.ShowsDecoded(setup, speakers[k])
    requires i < |speakers|
    ensures DecodedFrames(speakers)[i] ==
            if speakers[i].pcmCount == 0 then [] else setup.decode(speakers[i].decoderLog)
  {
  }

  /** The engine after the first `upto` speakers of a tick. */
  ghost function TickedUpTo(setup: Setup, e: Engine, upto: nat, now: uint32): Engine
    requires |e.events| <= EVENT_CAP && upto <= |e.speakers|
  {
    e.(speakers := seq(|e.speakers|, i requires 0 <= i < |e.speakers| =>
                     if i < upto then TickSpeaker(setup, e.speakers[i], now) else e.speakers[i]),
       events := OfferAll(e.events, Joined(EventsBySpeaker(setup, e.speakers, now)[..upto]), EVENT_CAP))
  }

  /** The timeout and then the decoding are the speaker's part of the tick. */
  lemma PartsAreTick(setup: Setup, e: Engine, i: nat, now: uint32, e1: Engine, e2: Engine)
    requires i < |e.speakers| && |e.events| <= EVENT_CAP
    requires var sp := e.speakers[i];
             e1 == e.(speakers := e.speakers[i := sp.(speaking := sp.speaking && !TimedOut(sp, now))],
                      events := OfferAll(e.events, TimeoutEvents(sp, i, now), EVENT_CAP))
    requires |e1.events| <= EVENT_CAP && e.speakers[i].pcmCount == 0
    requires var sp := e1.speakers[i];
             e2 == e1.(speakers := e1.speakers[i := DecodedSpeaker(setup.decode, sp)],
                       events := OfferAll(e1.events, PcmEvents(setup, sp, i), EVENT_CAP))
    ensures e2 == e.(speakers := e.speakers[i := TickSpeaker(setup, e.speakers[i], now)],
                     events := OfferAll(e.events, SpeakerEvents(setup, e.speakers[i], i, now), EVENT_CAP))
  {
    OfferAllCompose(e.events, TimeoutEvents(e.speakers[i], i, now), PcmEvents(setup, e.speakers[i], i), EVENT_CAP);
    assert e1.speakers[i := TickSpeaker(setup, e.speakers[i], now)] ==
        e.speakers[i := TickSpeaker(setup, e.speakers[i], now)];
  }

  /** What a packet for a speaker changes: the speaker, and the event queue if it was silent. */
  ghost predicate AcceptedBy(e: Engine, v: Voice, now: uint32, after: Engine)
    requires 1 <= v.speakerId <= |e.speakers|
  {
    var i := v.speakerId - 1;
    && after.speakers == e.speakers[i := Arrival(e.speakers[i], v, now)]
    && after.events == (if e.speakers[i].speaking then e.events
                        else Offer(e.events, SpeakingEvent(v.speakerId, true), EVENT_CAP))
    && after.(speakers := e.speakers, events := e.events) == e
  }

  lemma IngestIs(setup: Setup, e: Engine, data: seq<Byte>, now: uint32, v: Voice, after: Engine)
    requires |e.speakers| == setup.maxPlayers && Addressed(setup, data) == Some(v)
    requires 1 <= v.speakerId <= |e.speakers| && AcceptedBy(e, v, now, after)
    ensures after == Ingest(setup, e, data, now).engine
  {
  }

  lemma NothingInEmpty(setup: Setup)
    requires OnTheWire(setup.format)
    ensures Addressed(setup, []) == None
  {
    assert setup.format.read([]) == ReadDatagram([]);
  }

  lemma TickedNone(setup: Setup, e: Engine, now: uint32)
    requires |e.events| <= EVENT_CAP
    ensures TickedUpTo(setup, e, 0, now) == e
  {
    assert TickedUpTo(setup, e, 0, now).speakers == e.speakers;
    assert OfferAll(e.events, [], EVENT_CAP) == e.events;
  }

  lemma TickedStep(setup: Setup, e: Engine, i: nat, now: uint32)
    requires |e.events| <= EVENT_CAP && i < |e.speakers|
    ensures var before, sp := TickedUpTo(setup, e, i, now), e.speakers[i];
            && before.speakers[i] == sp && |before.events| <= EVENT_CAP
            && TickedUpTo(setup, e, i + 1, now) ==
                 before.(speakers := before.speakers[i := TickSpeaker(setup, sp, now)],
                         events := OfferAll(before.events, SpeakerEvents(setup, sp, i, now), EVENT_CAP))
  {
    var before, after := TickedUpTo(setup, e, i, now), TickedUpTo(setup, e, i + 1, now);
    TickedEvents(e.events, EventsBySpeaker(setup, e.speakers, now), i);
    assert after.speakers == before.speakers[i := TickSpeaker(setup, e.speakers[i], now)];
  }

  lemma TickedEvents(events: seq<Event>, batches: seq<seq<Event>>, i: nat)
    requires |events| <= EVENT_CAP && i < |batches|
    ensures var before := OfferAll(events, Joined(batches[..i]), EVENT_CAP);
            && |before| <= EVENT_CAP
            && OfferAll(events, Joined(batches[..i + 1]), EVENT_CAP) == OfferAll(before, batches[i], EVENT_CAP)
  {
    assert batches[..i + 1][..i] == batches[..i];
    OfferAllCompose(events, Joined(batches[..i]), batches[i], EVENT_CAP);
  }

  lemma TickedAll(setup: Setup, e: Engine, now: uint32)
    requires |e.events| <= EVENT_CAP
    ensures TickedUpTo(setup, e, |e.speakers|, now) == TickSpeakers(setup, e, now).engine
  {
    var batches := EventsBySpeaker(setup, e.speakers, now);
    assert batches[..|e.speakers|] == batches;
    assert TickedUpTo(setup, e, |e.speakers|, now).speakers == TickSpeakers(setup, e, now).engine.speakers;
  }

  /** Clearing the sample counts first makes no difference to a tick. */
  lemma ClearedTicksAlike(setup: Setup, e: Engine, now: uint32)
    requires |e.events| <= EVENT_CAP
    ensures TickSpeakers(setup, e.(speakers := Cleared(e.speakers, |e.speakers|)), now).engine ==
            TickSpeakers(setup, e, now).engine
  {
    var c := e.(speakers := Cleared(e.speakers, |e.speakers|));
    assert EventsBySpeaker(setup, c.speakers, now) == EventsBySpeaker(setup, e.speakers, now);
    assert TickSpeakers(setup, c, now).engine.speakers == TickSpeakers(setup, e, now).engine.speakers;
  }

  lemma DrainStep(setup: Setup, e: Engine)
    requires Sound(setup)
    ensures DrainCapture(setup, EngineModel.DrainTurn(setup, e).engine).engine == DrainCapture(setup, e).engine
    ensures EngineModel.DrainTurn(setup, e).engine.capture == TakeOne(e.capture)
  {
    if e.capture != [] {
      DrainOneShrinks(setup, e);
    }
  }

  lemma DecodedEvents(setup: Setup, sp: Speaker, i: nat)
    ensures var decoded := DecodedSpeaker(setup.decode, sp).pcmCount;
            PcmEvents(setup, sp, i) ==
            if decoded == 0 then []
            else [PcmEvent(IdOf(i), setup.sampleRate, sp.lastRxFlags, FlagsChannel(sp.lastRxFlags), i, decoded)]
  {
  }

  function Cleared(speakers: seq<Speaker>, upto: nat): seq<Speaker> {
    seq(|speakers|, i requires 0 <= i < |speakers| => if i < upto then speakers[i].(pcmCount := 0) else speakers[i])
  }

  function DecodedSpeaker(decode: seq<PopResult> -> PcmFrame, sp: Speaker): Speaker {
    var (jb, r) := JitterModel.Pop(sp.jitter);
    if r.Idle? then sp.(jitter := jb, pcmCount := 0)
    else
      var samples := decode(sp.decoderLog + [r]);
      sp.(jitter := jb, decoderLog := sp.decoderLog + [r], pcm := Overwrite(sp.pcm, samples), pcmCount := |samples|)
  }
}
