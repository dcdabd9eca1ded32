/** What the engine does for its host, stated from the calls alone: when frames are admitted,
    gated and sent, under which player and flags, and when the engine counts as connected. */
module EngineHost {
  import opened Words
  import opened Sequences
  import opened BoundedFifo
  import opened WireFormat
  import opened Packets
  import opened PacketLayout
  import opened JitterModel
  import opened EngineModel
  import opened EngineSequence

  // ----- what the host has set

  /** The last local state set, if any. */
  function LastLocal(calls: seq<Call>): Option<LocalState> {
    if calls == [] then None
    else
      match calls[|calls| - 1]
      case DoSetLocalState(st) => Some(st)
      case _ => LastLocal(calls[..|calls| - 1])
  }

  /** The player of the last connect, successful or not. */
  function LastPlayer(calls: seq<Call>): uint16 {
    if calls == [] then 0
    else
      match calls[|calls| - 1]
      case DoConnect(_, playerId) => playerId
      case _ => LastPlayer(calls[..|calls| - 1])
  }

  /** The session of the last connect. */
  function LastSession(calls: seq<Call>): bv64 {
    if calls == [] then 0 as bv64
    else
      match calls[|calls| - 1]
      case DoConnect(sessionId, _) => sessionId
      case _ => LastSession(calls[..|calls| - 1])
  }

  /** What the host has set when a frame is drained. */
  datatype Spoken = Spoken(local: Option<LocalState>, playerId: uint16)

  /** The gate is shut: push-to-talk is up, in push-to-talk mode or for the radio. */
  predicate GateShut(mode: CaptureMode, local: Option<LocalState>) {
    var ptt := local.Some? && local.value.pttDown;
    var radio := local.Some? && local.value.radioEnabled;
    if mode == PttOnly then !ptt else radio && !ptt
  }

  /** A drained frame is gated exactly when the gate is shut; a voice packet made of it names
      the player and shows the local state in its flags. */
  ghost predicate Obeys(mode: CaptureMode, host: Spoken, f: Fate) {
    && (f.Gated? <==> GateShut(mode, host.local))
    && (f.Queued? || f.DroppedFull? ==>
          && f.voice.speakerId == host.playerId
          && (f.voice.flags & 1 == 1 <==> host.local.Some? && host.local.value.radioEnabled)
          && (f.voice.flags >> 1) & 0x0F == (if host.local.Some? then host.local.value.radioChannel & 0x0F else 0)
          && ((f.voice.flags >> 5) & 1 == 1 <==> host.local.Some? && host.local.value.pttDown)
          && f.voice.flags >> 6 == 0)
  }

  lemma FlagsShowLocal(e: Engine)
    ensures var f := TxFlags(e);
            && (f & 1 == 1 <==> e.local.Some? && e.local.value.radioEnabled)
            && (f >> 1) & 0x0F == (if e.local.Some? then e.local.value.radioChannel & 0x0F else 0)
            && ((f >> 5) & 1 == 1 <==> e.local.Some? && e.local.value.pttDown)
            && f >> 6 == 0
  {
    match e.local
    case None => FlagBits(false, 0, false, 0);
    case Some(st) =>
      FlagBits(st.radioEnabled, st.radioChannel & 0x0F, st.pttDown, 0);
      MaskedTwice(st.radioChannel);
  }

  lemma MaskedTwice(c: Byte)
    ensures (c & 0x0F) & 0x0F == c & 0x0F
  {
  }

  // ----- the fate of one frame

  /** What the host hears of a frame's fate: nothing, an error, or a log line. */
  function ReportOf(f: Fate): seq<Event> {
    match f
    case EncodeFailure => [ErrorEvent(-100)]
    case DroppedFull(_) => [LogEvent(1)]
    case _ => []
  }

  lemma TransmitObeys(setup: Setup, e: Engine, frame: PcmFrame)
    requires Sound(setup)
    ensures var t := Transmit(setup, e, frame);
            && |t.fates| == 1
            && Obeys(setup.mode, Spoken(e.local, e.playerId), t.fates[0])
            && t.attempted == ReportOf(t.fates[0])
            && KeepsHost(e, t.engine)
  {
    FlagsShowLocal(e);
  }

  ghost predicate KeepsHost(e: Engine, after: Engine) {
    && after.local == e.local && after.playerId == e.playerId && after.sessionId == e.sessionId
    && after.connected == e.connected
  }

  lemma DrainOneObeys(setup: Setup, e: Engine)
    requires Sound(setup) && e.capture != [] && |e.capture[0]| == setup.frameSamples
    ensures var t := DrainOne(setup, e);
            && |t.fates| == 1
            && Obeys(setup.mode, Spoken(e.local, e.playerId), t.fates[0])
            && t.attempted == ReportOf(t.fates[0])
            && KeepsHost(e, t.engine)
  {
    TransmitObeys(setup, e.(capture := e.capture[1..]), e.capture[0]);
  }

  /** A packet is dropped exactly when 256 are waiting. */
  lemma DroppedWhenFull(setup: Setup, e: Engine)
    requires Sound(setup) && e.capture != [] && |e.out| <= 256
    ensures var f := DrainOne(setup, e).fates;
            && |f| == 1
            && (f[0].Queued? ==> |e.out| < 256)
            && (f[0].DroppedFull? ==> |e.out| == 256)
  {
  }

  function ReportsOf(fates: seq<Fate>): seq<Event>
    decreases |fates|
  {
    if fates == [] then [] else ReportOf(fates[0]) + ReportsOf(fates[1..])
  }

  lemma {:induction false} DrainObeys(setup: Setup, e: Engine)
    requires Sound(setup) && forall i | 0 <= i < |e.capture| :: |e.capture[i]| == setup.frameSamples
    ensures var t := DrainCapture(setup, e);
            && |t.fates| == |e.capture|
            && (forall j | 0 <= j < |t.fates| :: Obeys(setup.mode, Spoken(e.local, e.playerId), t.fates[j]))
            && t.attempted == ReportsOf(t.fates)
            && KeepsHost(e, t.engine)
    decreases |e.capture|
  {
    if e.capture != [] {
      DrainOneShrinks(setup, e);
      DrainOneObeys(setup, e);
      DrainObeys(setup, DrainOne(setup, e).engine);
      DrainedFates(setup, e);
    }
  }

  lemma DrainedFates(setup: Setup, e: Engine)
    requires Sound(setup) && e.capture != [] && |DrainOne(setup, e).fates| == 1
    ensures var first, t := DrainOne(setup, e), DrainCapture(setup, e);
            var rest := DrainCapture(setup, first.engine);
            && t.engine == rest.engine
            && t.fates[0] == first.fates[0] && t.fates[1..] == rest.fates
            && t.attempted == first.attempted + rest.attempted
  {
    DrainOneShrinks(setup, e);
  }

  // ----- what each call leaves

  /** The calls that drain frames, and how many. */
  function DrainedBy(e: Engine, call: Call): nat {
    match call
    case DoDrainTurn => if e.capture == [] then 0 else 1
    case DoTick(_) => |e.capture|
    case _ => 0
  }

  /** Whether the engine is connected after some events, `before` them or not. */
  function Connected(before: bool, events: seq<Event>): bool {
    if events == [] then before
    else
      match events[|events| - 1]
      case ConnectedEvent => true
      case DisconnectedEvent => false
      case _ => Connected(before, events[..|events| - 1])
  }

  lemma {:induction false} ConnectedConcat(before: bool, a: seq<Event>, b: seq<Event>)
    ensures Connected(before, a + b) == Connected(Connected(before, a), b)
    decreases |b|
  {
    if b == [] {
      assert a + b == a;
    } else {
      assert (a + b)[..|a + b| - 1] == a + b[..|b| - 1];
      ConnectedConcat(before, a, b[..|b| - 1]);
    }
  }

  lemma {:induction false} NoSessionEvents(before: bool, events: seq<Event>)
    requires forall ev | ev in events :: !ev.ConnectedEvent? && !ev.DisconnectedEvent?
    ensures Connected(before, events) == before
    decreases |events|
  {
    if events != [] {
      assert events[|events| - 1] in events;
      NoSessionEvents(before, events[..|events| - 1]);
    }
  }

  lemma {:induction false} ReportsAreNoSession(fates: seq<Fate>)
    ensures forall ev | ev in ReportsOf(fates) :: !ev.ConnectedEvent? && !ev.DisconnectedEvent?
    decreases |fates|
  {
    if fates != [] {
      ReportsAreNoSession(fates[1..]);
    }
  }

  lemma {:induction false} BatchesAreNoSession(setup: Setup, speakers: seq<Speaker>, now: uint32, upto: nat)
    requires upto <= |speakers|
    ensures forall ev | ev in Joined(EventsBySpeaker(setup, speakers, now)[..upto]) ::
              !ev.ConnectedEvent? && !ev.DisconnectedEvent?
    decreases upto
  {
    if upto > 0 {
      BatchesAreNoSession(setup, speakers, now, upto - 1);
      var batches := EventsBySpeaker(setup, speakers, now);
      assert batches[..upto][..upto - 1] == batches[..upto - 1];
    }
  }

  lemma TickSpeakersKeepHost(setup: Setup, e: Engine, now: uint32)
    requires |e.events| <= EVENT_CAP
    ensures var t := TickSpeakers(setup, e, now);
            && KeepsHost(e, t.engine) && t.fates == []
            && Connected(e.connected, t.attempted) == e.connected
  {
    var batches := EventsBySpeaker(setup, e.speakers, now);
    BatchesAreNoSession(setup, e.speakers, now, |e.speakers|);
    assert batches[..|e.speakers|] == batches;
    NoSessionEvents(e.connected, Joined(batches));
  }

  /** What a call leaves of the host's settings and makes of the frames it drains. */
  ghost predicate HostAfter(setup: Setup, e: Engine, call: Call, t: Trace) {
    && t.engine.local == (if call.DoSetLocalState? then Some(call.st) else e.local)
    && t.engine.playerId == (if call.DoConnect? then call.playerId else e.playerId)
    && t.engine.sessionId == (if call.DoConnect? then call.sessionId else e.sessionId)
    && t.engine.connected == Connected(e.connected, t.attempted)
    && |t.fates| == DrainedBy(e, call)
    && (forall j | 0 <= j < |t.fates| :: Obeys(setup.mode, Spoken(e.local, e.playerId), t.fates[j]))
  }

  lemma TickKeepsHost(setup: Setup, e: Engine, now: uint32)
    requires Sound(setup) && Bounded(setup, e)
    ensures HostAfter(setup, e, DoTick(now), Tick(setup, e, now))
  {
    var drained := DrainCapture(setup, e);
    DrainObeys(setup, e);
    DrainKeepsRest(setup, e);
    ReportsAreNoSession(drained.fates);
    NoSessionEvents(e.connected, drained.attempted);
    TickSpeakersKeepHost(setup, drained.engine, now);
    ConnectedConcat(e.connected, drained.attempted, TickSpeakers(setup, drained.engine, now).attempted);
  }

  lemma DrainTurnKeepsHost(setup: Setup, e: Engine)
    requires Sound(setup) && Bounded(setup, e)
    ensures HostAfter(setup, e, DoDrainTurn, DrainTurn(setup, e))
  {
    if e.capture != [] {
      DrainOneObeys(setup, e);
      var t := DrainOne(setup, e);
      NoSessionEvents(e.connected, t.attempted);
    }
  }

  lemma OneSessionEvent(before: bool, ev: Event)
    ensures Connected(before, [ev]) ==
            if ev.ConnectedEvent? then true else if ev.DisconnectedEvent? then false else before
  {
    assert [ev][..0] == [];
  }

  lemma CallKeepsHost(setup: Setup, e: Engine, call: Call)
    requires Sound(setup) && Bounded(setup, e)
    ensures HostAfter(setup, e, call, Perform(setup, e, call))
  {
    match call
    case DoTick(now) => TickKeepsHost(setup, e, now);
    case DoDrainTurn => DrainTurnKeepsHost(setup, e);
    case DoConnect(_, _) =>
      OneSessionEvent(e.connected, ConnectedEvent);
      OneSessionEvent(e.connected, ErrorEvent(ERR_INTERNAL));
    case DoDisconnect => OneSessionEvent(e.connected, DisconnectedEvent);
    case DoIngest(data, now) => IngestKeepsHost(setup, e, data, now);
    case _ =>
  }

  lemma IngestKeepsHost(setup: Setup, e: Engine, data: seq<Byte>, now: uint32)
    requires Bounded(setup, e)
    ensures HostAfter(setup, e, DoIngest(data, now), Ingest(setup, e, data, now))
  {
    NoSessionEvents(e.connected, Ingest(setup, e, data, now).attempted);
  }

  // ----- whole runs

  /** What the host had set when each of the drained frames was drained. */
  ghost function HostOf(setup: Setup, calls: seq<Call>): seq<Spoken>
    requires Sound(setup)
    decreases |calls|
  {
    if calls == [] then []
    else
      var before := calls[..|calls| - 1];
      var n := DrainedBy(History(setup, before).engine, calls[|calls| - 1]);
      HostOf(setup, before) + seq(n, _ => Spoken(LastLocal(before), LastPlayer(before)))
  }

  ghost predicate AllObey(setup: Setup, calls: seq<Call>)
    requires Sound(setup)
  {
    var t := History(setup, calls);
    && t.engine.local == LastLocal(calls)
    && t.engine.playerId == LastPlayer(calls) && t.engine.sessionId == LastSession(calls)
    && t.engine.connected == Connected(false, t.attempted)
    && |HostOf(setup, calls)| == |t.fates|
    && forall j | 0 <= j < |t.fates| :: Obeys(setup.mode, HostOf(setup, calls)[j], t.fates[j])
  }

  lemma ObeyStep(mode: CaptureMode, hosts: seq<Spoken>, fates: seq<Fate>, host: Spoken, more: seq<Fate>)
    requires |hosts| == |fates| && forall j | 0 <= j < |fates| :: Obeys(mode, hosts[j], fates[j])
    requires forall j | 0 <= j < |more| :: Obeys(mode, host, more[j])
    ensures var all := hosts + seq(|more|, _ => host);
            |all| == |fates + more| && forall j | 0 <= j < |all| :: Obeys(mode, all[j], (fates + more)[j])
  {
  }

  /** Over any run: a drained frame is gated exactly if the last local state set before its
      drain has push-to-talk up (in push-to-talk mode, where none set counts as up) or radio
      on with push-to-talk up (in always-on mode); its packet carries the player of the last
      connect and shows that local state; and the engine is connected exactly if the last
      session event attempted is a connect. */
  lemma {:induction false} EveryFrameObeysHost(setup: Setup, calls: seq<Call>)
    requires Sound(setup)
    ensures AllObey(setup, calls)
    decreases |calls|
  {
    CreatedBounded(setup);
    if calls != [] {
      var before, call := calls[..|calls| - 1], calls[|calls| - 1];
      assert calls == before + [call];
      EveryFrameObeysHost(setup, before);
      var t := History(setup, before);
      var u := Perform(setup, t.engine, call);
      CallKeepsHost(setup, t.engine, call);
      HistoryLast(setup, before, call);
      HistoryFates(setup, before, call);
      ConnectedConcat(false, t.attempted, u.attempted);
      ObeyStep(setup.mode, HostOf(setup, before), t.fates, Spoken(LastLocal(before), LastPlayer(before)), u.fates);
    }
  }

  lemma HistoryFates(setup: Setup, calls: seq<Call>, call: Call)
    requires Sound(setup)
    ensures var t := History(setup, calls);
            && History(setup, calls + [call]).fates == t.fates + Perform(setup, t.engine, call).fates
            && History(setup, calls + [call]).captured == t.captured + Perform(setup, t.engine, call).captured
  {
    CreatedBounded(setup);
    assert (calls + [call])[..|calls|] == calls;
  }

  // ----- the gate over whole runs

  lemma {:induction false} LastLocalAmong(calls: seq<Call>)
    ensures match LastLocal(calls)
            case None => forall c | c in calls :: !c.DoSetLocalState?
            case Some(st) => DoSetLocalState(st) in calls
    decreases |calls|
  {
    if calls != [] {
      LastLocalAmong(calls[..|calls| - 1]);
      assert calls[|calls| - 1] in calls;
    }
  }

  /** The gate was open, or shut, for all frames drained. */
  ghost predicate GateAlways(setup: Setup, calls: seq<Call>, shut: bool)
    requires Sound(setup)
  {
    forall j | 0 <= j < |HostOf(setup, calls)| :: GateShut(setup.mode, HostOf(setup, calls)[j].local) == shut
  }

  lemma {:induction false} GateFromSettings(setup: Setup, calls: seq<Call>, shut: bool)
    requires Sound(setup)
    requires forall i | 0 <= i < |calls| && 0 < DrainedBy(History(setup, calls[..i]).engine, calls[i]) ::
               GateShut(setup.mode, LastLocal(calls[..i])) == shut
    ensures GateAlways(setup, calls, shut)
    decreases |calls|
  {
    if calls != [] {
      var n := |calls| - 1;
      forall i | 0 <= i < n && 0 < DrainedBy(History(setup, calls[..n][..i]).engine, calls[..n][i])
        ensures GateShut(setup.mode, LastLocal(calls[..n][..i])) == shut
      {
        assert calls[..n][..i] == calls[..i];
      }
      GateFromSettings(setup, calls[..n], shut);
    }
  }

  lemma {:induction false} NoneOrAllGated(setup: Setup, calls: seq<Call>, shut: bool)
    requires Sound(setup) && GateAlways(setup, calls, shut)
    ensures CountOf(IsGated, History(setup, calls).fates) == if shut then |History(setup, calls).fates| else 0
  {
    EveryFrameObeysHost(setup, calls);
    CountGated(History(setup, calls).fates, shut);
  }

  lemma {:induction false} CountGated(fates: seq<Fate>, gated: bool)
    requires forall j | 0 <= j < |fates| :: fates[j].Gated? == gated
    ensures CountOf(IsGated, fates) == if gated then |fates| else 0
    decreases |fates|
  {
    if fates != [] {
      CountGated(fates[..|fates| - 1], gated);
    }
  }

  /** Always on, and never the radio with push-to-talk up: no frame is gated. */
  lemma AlwaysOnIsNeverGated(setup: Setup, calls: seq<Call>)
    requires Sound(setup) && setup.mode == AlwaysOn
    requires forall c | c in calls && c.DoSetLocalState? :: !c.st.radioEnabled || c.st.pttDown
    ensures CountOf(IsGated, History(setup, calls).fates) == 0
  {
    forall i | 0 <= i < |calls|
      ensures !GateShut(setup.mode, LastLocal(calls[..i]))
    {
      LastLocalAmong(calls[..i]);
    }
    GateFromSettings(setup, calls, false);
    NoneOrAllGated(setup, calls, false);
  }

  /** Push-to-talk held from the first call on: no frame is gated. */
  lemma PttHeldIsNeverGated(setup: Setup, calls: seq<Call>)
    requires Sound(setup) && calls != [] && calls[0].DoSetLocalState?
    requires forall c | c in calls && c.DoSetLocalState? :: c.st.pttDown
    ensures CountOf(IsGated, History(setup, calls).fates) == 0
  {
    forall i | 0 <= i < |calls| && 0 < DrainedBy(History(setup, calls[..i]).engine, calls[i])
      ensures !GateShut(setup.mode, LastLocal(calls[..i]))
    {
      assert i > 0;
      assert calls[..i][0] in calls[..i];
      LastLocalAmong(calls[..i]);
    }
    GateFromSettings(setup, calls, false);
    NoneOrAllGated(setup, calls, false);
  }

  /** Push-to-talk never pressed in push-to-talk mode: every frame is gated. */
  lemma PttUpIsAlwaysGated(setup: Setup, calls: seq<Call>)
    requires Sound(setup) && setup.mode == PttOnly
    requires forall c | c in calls && c.DoSetLocalState? :: !c.st.pttDown
    ensures CountOf(IsGated, History(setup, calls).fates) == |History(setup, calls).fates|
  {
    forall i | 0 <= i < |calls|
      ensures GateShut(setup.mode, LastLocal(calls[..i]))
    {
      LastLocalAmong(calls[..i]);
    }
    GateFromSettings(setup, calls, true);
    NoneOrAllGated(setup, calls, true);
  }

  // ----- submits and connects

  /** A submit, seen from the logs of the run before it: the frame is admitted exactly when
      the last session event was a connect, it has the frame size, and fewer than 16 frames
      are admitted and not drained; the answer says which. */
  lemma SubmitAdmits(setup: Setup, calls: seq<Call>, samples: PcmFrame)
    requires Sound(setup) && ReadsBack(setup.format)
    ensures var t := History(setup, calls);
            var connected := Connected(false, t.attempted);
            var admitted := connected && |samples| == setup.frameSamples && |t.captured| - |t.fates| < 16;
            && History(setup, calls + [DoSubmit(samples)]).captured == t.captured + (if admitted then [samples] else [])
            && SubmitStatus(setup, t.engine, samples) ==
                 (if |samples| == 0 then -1
                  else if !connected then -4
                  else if |samples| != setup.frameSamples then -1
                  else 0)
  {
    EveryFrameObeysHost(setup, calls);
    RunConserves(setup, calls);
    HistoryFates(setup, calls, DoSubmit(samples));
  }

  /** A connect: with fewer than 256 packets waiting its join packet is queued and the host is
      told, else the host is told of an error and nothing is queued. */
  lemma ConnectAnswers(setup: Setup, e: Engine, sessionId: bv64, playerId: uint16)
    requires OnTheWire(setup.format) && |e.out| <= 256
    ensures var t := Connect(setup, e, sessionId, playerId);
            if |e.out| < 256 then
              && |t.engine.out| == |e.out| + 1 && t.engine.out[..|e.out|] == e.out
              && ParseJoin(t.engine.out[|e.out|]) == Ok(Join(sessionId, playerId))
              && t.attempted == [ConnectedEvent]
            else
              t.engine.out == e.out && t.attempted == [ErrorEvent(-100)]
  {
    var j := Join(sessionId, playerId);
    JoinRoundTrip(j, []);
    assert JoinPacket(j) + [] == JoinPacket(j);
  }

  /** A disconnect always tells the host, and ends the connection. */
  lemma DisconnectAnswers(e: Engine)
    ensures Disconnect(e).attempted == [DisconnectedEvent]
    ensures Connected(e.connected, Disconnect(e).attempted) == Disconnect(e).engine.connected == false
  {
    OneSessionEvent(e.connected, DisconnectedEvent);
  }

  /** A fresh engine: not connected, one log event, nothing else waiting, nobody speaking. */
  lemma FreshEngine(setup: Setup)
    ensures var e := Created(setup);
            && !e.connected && e.local == None
            && e.events == [LogEvent(0)] && e.out == [] && e.capture == []
            && |e.speakers| == setup.maxPlayers
            && forall k | 0 <= k < |e.speakers| ::
                 && !e.speakers[k].speaking && e.speakers[k].pcmCount == 0 && e.speakers[k].decoderLog == []
                 && |e.speakers[k].pcm| == setup.frameSamples
                 && !e.speakers[k].jitter.started
                 && forall s | 0 <= s < 128 :: e.speakers[k].jitter.table[s] == None
  {
  }

  /** A poll of the outgoing queue answers 0 when it is empty, -1 when the first packet does
      not fit, and 1 when it is handed out. */
  lemma PollAnswers(e: Engine, room: nat)
    ensures PollStatus(e, room) == 0 <==> e.out == []
    ensures PollStatus(e, room) == -1 <==> e.out != [] && |e.out[0]| > room
    ensures PollStatus(e, room) == 1 <==> PollOutgoing(e, room).polled != []
    ensures PollOutgoing(e, room).polled + PollOutgoing(e, room).engine.out == e.out
  {
  }

  // ----- the configuration

  /** A frame has as many whole samples as its milliseconds have at the sample rate, unless
      their product leaves 32 bits; the mode is always-on only for the value 1. */
  lemma ConfigurationIs(c: Config, encode: seq<PcmFrame> -> EncodeResult, decode: seq<PopResult> -> PcmFrame,
                        format: Format)
    ensures var setup := SetupOf(c, encode, decode, format);
            && setup.maxPlayers == c.maxPlayers && setup.sampleRate == c.sampleRateHz
            && (setup.mode == AlwaysOn <==> c.captureMode == 1)
            && (c.sampleRateHz * c.frameMs < 0x1_0000_0000 ==>
                  setup.frameSamples * 1000 <= c.sampleRateHz * c.frameMs < (setup.frameSamples + 1) * 1000)
    ensures Creatable(c) <==>
            && 0x2_0000 <= c.apiVersion <= 0x2_0001 && c.maxPlayers > 0
            && 1 <= FrameSamples(c) <= 2880
  {
    var product := c.sampleRateHz * c.frameMs;
    assert 0 <= product;
  }
}
