/** Sending over whole runs: frames are conserved from the capture ring to the outgoing queue,
    sequence numbers count the encoded frames, and what the parser reads back from the queue
    is exactly what was queued, gated as the capture mode demands. */
module EngineSequence {
  import opened Words
  import opened WireFormat
  import opened Packets
  import opened JitterModel
  import opened EngineModel

  predicate WasEncoded(f: Fate) {
    f.Queued? || f.DroppedFull?
  }

  /** How many of the frames got a sequence number. */
  function EncodedCount(fates: seq<Fate>): nat {
    if fates == [] then 0
    else EncodedCount(fates[..|fates| - 1]) + if WasEncoded(fates[|fates| - 1]) then 1 else 0
  }

  /** The unwrapped number of an encoded frame: how many were encoded before it. */
  function Number(fates: seq<Fate>, i: nat): nat
    requires i < |fates|
  {
    EncodedCount(fates[..i])
  }

  /** The frames the encoder has seen. */
  function EncoderInputs(frames: seq<PcmFrame>, fates: seq<Fate>): seq<PcmFrame>
    requires |fates| <= |frames|
  {
    if fates == [] then []
    else
      var k := |fates| - 1;
      EncoderInputs(frames, fates[..k]) + if WasEncoded(fates[k]) || fates[k].EncodeFailure? then [frames[k]] else []
  }

  function QueuedVoices(fates: seq<Fate>): seq<Voice> {
    if fates == [] then []
    else
      var k := |fates| - 1;
      QueuedVoices(fates[..k]) + if fates[k].Queued? then [fates[k].voice] else []
  }

  /** The voice packets among some packets, as the parser reads them. */
  function Voices(format: Format, packets: seq<seq<Byte>>): seq<Voice> {
    if packets == [] then []
    else
      var k := |packets| - 1;
      Voices(format, packets[..k]) + match format.read(packets[k]) case Some(v) => [v] case None => []
  }

  /** The fate of the frame drained last agrees with what the encoder made of it. */
  ghost predicate FateFits(setup: Setup, frames: seq<PcmFrame>, fates: seq<Fate>)
    requires 0 < |fates| <= |frames|
  {
    var k := |fates| - 1;
    match fates[k]
    case Skipped => false
    case Gated => true
    case EncodeFailure => setup.encode(EncoderInputs(frames, fates)).EncodeFailed?
    case Queued(voice) =>
      setup.encode(EncoderInputs(frames, fates)) == Encoded(voice.payload) && voice.seqNo == Number(fates, k) % TWO16
    case DroppedFull(voice) =>
      setup.encode(EncoderInputs(frames, fates)) == Encoded(voice.payload) && voice.seqNo == Number(fates, k) % TWO16
  }

  ghost predicate Flagged(setup: Setup, fates: seq<Fate>) {
    forall f | f in fates && f.Queued? ::
      && (FlagsIsRadio(f.voice.flags) ==> FlagsPtt(f.voice.flags))
      && (setup.mode == PttOnly ==> FlagsPtt(f.voice.flags))
  }

  ghost predicate Conserved(setup: Setup, t: Trace) {
    && Bounded(setup, t.engine)
    && |t.fates| <= |t.captured|
    && t.engine.capture == t.captured[|t.fates|..]
    && t.engine.encoderLog == EncoderInputs(t.captured, t.fates)
    && t.engine.nextSeq == EncodedCount(t.fates) % TWO16
    && (forall n | 0 < n <= |t.fates| :: FateFits(setup, t.captured, t.fates[..n]))
    && Voices(setup.format, t.polled + t.engine.out) == QueuedVoices(t.fates)
    && Flagged(setup, t.fates)
  }

  lemma FatesAppend(frames: seq<PcmFrame>, fates: seq<Fate>, f: Fate)
    requires |fates| < |frames|
    ensures EncodedCount(fates + [f]) == EncodedCount(fates) + if WasEncoded(f) then 1 else 0
    ensures QueuedVoices(fates + [f]) == QueuedVoices(fates) + if f.Queued? then [f.voice] else []
    ensures EncoderInputs(frames, fates + [f]) ==
            EncoderInputs(frames, fates) + if WasEncoded(f) || f.EncodeFailure? then [frames[|fates|]] else []
    ensures Number(fates + [f], |fates|) == EncodedCount(fates)
  {
    assert (fates + [f])[..|fates|] == fates;
  }

  lemma {:induction false} MoreFramesChangeNothing(setup: Setup, frames: seq<PcmFrame>, x: PcmFrame, fates: seq<Fate>)
    requires |fates| <= |frames|
    ensures EncoderInputs(frames + [x], fates) == EncoderInputs(frames, fates)
    ensures fates != [] ==> FateFits(setup, frames + [x], fates) == FateFits(setup, frames, fates)
  {
    if fates != [] {
      MoreFramesChangeNothing(setup, frames, x, fates[..|fates| - 1]);
    }
  }

  /** The gate and the flags agree: what is transmitted as radio was transmitted with
      push-to-talk, and in push-to-talk mode everything was. */
  lemma GateMatchesFlags(setup: Setup, e: Engine)
    requires ShouldTransmit(setup, e)
    ensures FlagsIsRadio(TxFlags(e)) ==> FlagsPtt(TxFlags(e))
    ensures setup.mode == PttOnly ==> FlagsPtt(TxFlags(e))
  {
    match e.local
    case None => FlagsRoundTrip(false, 0, false, 0);
    case Some(st) => FlagsRoundTrip(st.radioEnabled, st.radioChannel & 0x0F, st.pttDown, 0);
  }

  /** One more fate, whatever it is. */
  lemma OneMoreFate(setup: Setup, t: Trace, t': Trace, f: Fate)
    requires Conserved(setup, t) && Bounded(setup, t'.engine)
    requires |t.fates| < |t.captured| && t'.captured == t.captured && t'.fates == t.fates + [f]
    requires t'.engine.capture == t.engine.capture[1..]
    requires t'.engine.encoderLog == EncoderInputs(t.captured, t'.fates)
    requires t'.engine.nextSeq == EncodedCount(t'.fates) % TWO16
    requires FateFits(setup, t.captured, t'.fates)
    requires Voices(setup.format, t'.polled + t'.engine.out) == QueuedVoices(t'.fates)
    requires Flagged(setup, [f])
    ensures Conserved(setup, t')
  {
    forall n | 0 < n <= |t'.fates|
      ensures FateFits(setup, t'.captured, t'.fates[..n])
    {
      if n <= |t.fates| {
        assert t'.fates[..n] == t.fates[..n];
      } else {
        assert t'.fates[..n] == t'.fates;
      }
    }
  }

  lemma SeqAdvances(setup: Setup, e: Engine)
    requires Sound(setup) && e.capture != []
    ensures var d := DrainOne(setup, e);
            && |d.fates| == 1
            && d.engine.nextSeq == if WasEncoded(d.fates[0]) then Next16(e.nextSeq) else e.nextSeq
  {
  }

  lemma CounterWraps(n: uint16, n': uint16, count: nat, advanced: bool)
    requires n == count % TWO16 && n' == if advanced then Next16(n) else n
    ensures n' == (count + if advanced then 1 else 0) % TWO16
  {
  }

  lemma NumbersAdvance(n: uint16, n': uint16, frames: seq<PcmFrame>, fates: seq<Fate>, f: Fate)
    requires |fates| < |frames|
    requires n == EncodedCount(fates) % TWO16 && n' == if WasEncoded(f) then Next16(n) else n
    ensures n' == EncodedCount(fates + [f]) % TWO16
  {
    var count := EncodedCount(fates);
    FatesAppend(frames, fates, f);
    assert EncodedCount(fates + [f]) == count + if WasEncoded(f) then 1 else 0;
    CounterWraps(n, n', count, WasEncoded(f));
  }

  lemma DrainOneNumbers(setup: Setup, e: Engine, d: Trace, frames: seq<PcmFrame>, fates: seq<Fate>)
    requires Sound(setup) && |fates| < |frames| && e.capture != []
    requires e.nextSeq == EncodedCount(fates) % TWO16
    requires d == DrainOne(setup, e)
    ensures d.engine.nextSeq == EncodedCount(fates + d.fates) % TWO16
  {
    SeqAdvances(setup, e);
    NumbersAdvance(e.nextSeq, d.engine.nextSeq, frames, fates, d.fates[0]);
    assert d.fates == [d.fates[0]];
  }

  lemma DrainOneFate(setup: Setup, e: Engine, d: Trace, frames: seq<PcmFrame>, fates: seq<Fate>)
    requires Sound(setup) && |fates| < |frames| && e.capture != []
    requires e.capture[0] == frames[|fates|] && |e.capture[0]| == setup.frameSamples
    requires e.encoderLog == EncoderInputs(frames, fates) && e.nextSeq == EncodedCount(fates) % TWO16
    requires d == DrainOne(setup, e)
    ensures |d.fates| == 1
    ensures d.engine.encoderLog == EncoderInputs(frames, fates + d.fates)
    ensures FateFits(setup, frames, fates + d.fates)
  {
    FatesAppend(frames, fates, d.fates[0]);
    assert d.fates == [d.fates[0]];
  }

  lemma DrainOneFlags(setup: Setup, e: Engine)
    requires Sound(setup) && e.capture != []
    ensures Flagged(setup, DrainOne(setup, e).fates)
  {
    if ShouldTransmit(setup, e) {
      GateMatchesFlags(setup, e);
    }
  }

  lemma DrainOneOutput(setup: Setup, e: Engine)
    requires Sound(setup) && e.capture != []
    ensures var d := DrainOne(setup, e);
            && |d.fates| == 1
            && (d.fates[0].Queued? ==>
                  && Accepted(d.fates[0].voice.payload)
                  && d.engine.out == e.out + [setup.format.voice(d.fates[0].voice)])
            && (!d.fates[0].Queued? ==> d.engine.out == e.out)
  {
  }

  lemma DrainOneVoices(setup: Setup, e: Engine, d: Trace, polled: seq<seq<Byte>>, fates: seq<Fate>)
    requires Sound(setup) && ReadsBack(setup.format) && e.capture != [] && d == DrainOne(setup, e)
    requires Voices(setup.format, polled + e.out) == QueuedVoices(fates)
    ensures Voices(setup.format, polled + d.engine.out) == QueuedVoices(fates + d.fates)
  {
    DrainOneOutput(setup, e);
    var f := d.fates[0];
    assert d.fates == [f];
    QueuedAppend(fates, f);
    if f.Queued? {
      var p := d.engine.out[|e.out|];
      OneMoreVoice(setup.format, polled, e.out, p, f.voice);
      assert d.engine.out == e.out + [p];
    }
  }

  lemma QueuedAppend(fates: seq<Fate>, f: Fate)
    ensures QueuedVoices(fates + [f]) == QueuedVoices(fates) + if f.Queued? then [f.voice] else []
  {
    assert (fates + [f])[..|fates|] == fates;
  }

  lemma OneMoreVoice(format: Format, polled: seq<seq<Byte>>, out: seq<seq<Byte>>, p: seq<Byte>, v: Voice)
    requires format.read(p) == Some(v)
    ensures Voices(format, polled + (out + [p])) == Voices(format, polled + out) + [v]
  {
    assert polled + (out + [p]) == (polled + out) + [p];
    assert ((polled + out) + [p])[..|polled + out|] == polled + out;
  }

  lemma NoMoreVoice(format: Format, polled: seq<seq<Byte>>, out: seq<seq<Byte>>, p: seq<Byte>)
    requires format.read(p) == None
    ensures Voices(format, polled + (out + [p])) == Voices(format, polled + out)
  {
    assert polled + (out + [p]) == (polled + out) + [p];
    assert ((polled + out) + [p])[..|polled + out|] == polled + out;
  }

  lemma DrainOneConserves(setup: Setup, t: Trace)
    requires Sound(setup) && ReadsBack(setup.format) && Conserved(setup, t) && t.engine.capture != []
    ensures Conserved(setup, Then(t, DrainOne(setup, t.engine)))
  {
    var d := DrainOne(setup, t.engine);
    assert t.captured[|t.fates|] == t.engine.capture[0];
    DrainOneFate(setup, t.engine, d, t.captured, t.fates);
    DrainOneNumbers(setup, t.engine, d, t.captured, t.fates);
    DrainOneFlags(setup, t.engine);
    DrainOneVoices(setup, t.engine, d, t.polled, t.fates);
    DrainOneShrinks(setup, t.engine);
    DrainOneEvents(setup, t.engine);
    DrainOneBounded(setup, t.engine);
    AppendDrained(setup, t, d);
  }

  lemma AppendDrained(setup: Setup, t: Trace, d: Trace)
    requires Conserved(setup, t) && Bounded(setup, d.engine) && t.engine.capture != []
    requires |d.fates| == 1 && d.captured == [] && d.polled == []
    requires d.engine.capture == t.engine.capture[1..]
    requires d.engine.encoderLog == EncoderInputs(t.captured, t.fates + d.fates)
    requires d.engine.nextSeq == EncodedCount(t.fates + d.fates) % TWO16
    requires FateFits(setup, t.captured, t.fates + d.fates)
    requires Voices(setup.format, t.polled + d.engine.out) == QueuedVoices(t.fates + d.fates)
    requires Flagged(setup, d.fates)
    ensures Conserved(setup, Then(t, d))
  {
    assert t.captured + [] == t.captured && t.polled + [] == t.polled;
    assert d.fates == [d.fates[0]];
    OneMoreFate(setup, t, Then(t, d), d.fates[0]);
  }

  lemma {:induction false} DrainConserves(setup: Setup, t: Trace)
    requires Sound(setup) && ReadsBack(setup.format) && Conserved(setup, t)
    ensures Conserved(setup, Then(t, DrainCapture(setup, t.engine)))
    decreases |t.engine.capture|
  {
    if t.engine.capture == [] {
      assert Then(t, Quiet(t.engine)) == t;
    } else {
      var first := DrainOne(setup, t.engine);
      DrainOneShrinks(setup, t.engine);
      DrainOneConserves(setup, t);
      DrainConserves(setup, Then(t, first));
      ThenAssociates(t, first, DrainCapture(setup, first.engine));
    }
  }

  /** A call that touches neither the capture side nor the outgoing queue. */
  lemma UnrelatedConserves(setup: Setup, t: Trace, u: Trace)
    requires Conserved(setup, t) && Bounded(setup, u.engine)
    requires u.captured == [] && u.fates == [] && u.polled == []
    requires u.engine.capture == t.engine.capture && u.engine.encoderLog == t.engine.encoderLog
    requires u.engine.nextSeq == t.engine.nextSeq && u.engine.out == t.engine.out
    ensures Conserved(setup, Then(t, u))
  {
    var t' := Then(t, u);
    assert t'.captured == t.captured && t'.fates == t.fates && t'.polled == t.polled;
  }

  lemma SubmitConserves(setup: Setup, t: Trace, samples: PcmFrame)
    requires Conserved(setup, t)
    ensures Conserved(setup, Then(t, Submit(setup, t.engine, samples)))
  {
    var u := Submit(setup, t.engine, samples);
    var t' := Then(t, u);
    assert t'.fates == t.fates && t'.polled == t.polled;
    if u.captured == [] {
      assert t'.captured == t.captured;
    } else {
      MoreFramesChangeNothing(setup, t.captured, samples, t.fates);
      forall n | 0 < n <= |t.fates|
        ensures FateFits(setup, t'.captured, t.fates[..n])
      {
        MoreFramesChangeNothing(setup, t.captured, samples, t.fates[..n]);
      }
    }
  }

  lemma ConnectConserves(setup: Setup, t: Trace, sessionId: bv64, playerId: uint16)
    requires ReadsBack(setup.format) && Conserved(setup, t)
    ensures Conserved(setup, Then(t, Connect(setup, t.engine, sessionId, playerId)))
  {
    var u := Connect(setup, t.engine, sessionId, playerId);
    var t' := Then(t, u);
    assert t'.captured == t.captured && t'.fates == t.fates && t'.polled == t.polled;
    NoMoreVoice(setup.format, t.polled, t.engine.out, setup.format.join(Join(sessionId, playerId)));
  }

  lemma PollConserves(setup: Setup, t: Trace, room: nat)
    requires Conserved(setup, t)
    ensures Conserved(setup, Then(t, PollOutgoing(t.engine, room)))
  {
    var u := PollOutgoing(t.engine, room);
    var t' := Then(t, u);
    assert t'.captured == t.captured && t'.fates == t.fates;
    assert t'.polled + t'.engine.out == t.polled + t.engine.out;
  }

  lemma DrainTurnConserves(setup: Setup, t: Trace)
    requires Sound(setup) && ReadsBack(setup.format) && Conserved(setup, t)
    ensures Conserved(setup, Then(t, DrainTurn(setup, t.engine)))
  {
    if t.engine.capture == [] {
      assert Then(t, Quiet(t.engine)) == t;
    } else {
      DrainOneConserves(setup, t);
    }
  }

  lemma TickConserves(setup: Setup, t: Trace, now: uint32)
    requires Sound(setup) && ReadsBack(setup.format) && Conserved(setup, t)
    ensures Conserved(setup, Then(t, Tick(setup, t.engine, now)))
  {
    DrainConserves(setup, t);
    var drained := DrainCapture(setup, t.engine);
    DrainKeepsRest(setup, t.engine);
    TickSpeakersKeepsBounds(setup, drained.engine, now);
    UnrelatedConserves(setup, Then(t, drained), TickSpeakers(setup, drained.engine, now));
    ThenAssociates(t, drained, TickSpeakers(setup, drained.engine, now));
  }

  lemma PerformConserves(setup: Setup, t: Trace, call: Call)
    requires Sound(setup) && ReadsBack(setup.format) && Conserved(setup, t)
    ensures Conserved(setup, Then(t, Perform(setup, t.engine, call)))
  {
    var u := Perform(setup, t.engine, call);
    PerformKeepsBounds(setup, t.engine, call);
    match call
    case DoConnect(sessionId, playerId) => ConnectConserves(setup, t, sessionId, playerId);
    case DoSubmit(samples) => SubmitConserves(setup, t, samples);
    case DoPollOutgoing(room) => PollConserves(setup, t, room);
    case DoDrainTurn => DrainTurnConserves(setup, t);
    case DoTick(now) => TickConserves(setup, t, now);
    case DoDisconnect => UnrelatedConserves(setup, t, u);
    case DoSetLocalState(_) => UnrelatedConserves(setup, t, u);
    case DoIngest(_, _) => UnrelatedConserves(setup, t, u);
    case DoPollEvent => UnrelatedConserves(setup, t, u);
  }

  lemma {:induction false} RunConserves(setup: Setup, calls: seq<Call>)
    requires Sound(setup) && ReadsBack(setup.format)
    ensures Conserved(setup, History(setup, calls))
  {
    CreatedBounded(setup);
    if calls != [] {
      RunConserves(setup, calls[..|calls| - 1]);
      PerformConserves(setup, History(setup, calls[..|calls| - 1]), calls[|calls| - 1]);
    }
  }

  // ----- the theorems

  datatype Kind = IsSkipped | IsGated | IsFailure | IsQueued | IsDropped

  function KindOf(f: Fate): Kind {
    match f
    case Skipped => IsSkipped
    case Gated => IsGated
    case EncodeFailure => IsFailure
    case Queued(_) => IsQueued
    case DroppedFull(_) => IsDropped
  }

  function CountOf(kind: Kind, fates: seq<Fate>): nat {
    if fates == [] then 0
    else CountOf(kind, fates[..|fates| - 1]) + if KindOf(fates[|fates| - 1]) == kind then 1 else 0
  }

  lemma {:induction false} FatesPartition(setup: Setup, frames: seq<PcmFrame>, fates: seq<Fate>)
    requires |fates| <= |frames| && forall n | 0 < n <= |fates| :: FateFits(setup, frames, fates[..n])
    ensures |fates| == CountOf(IsGated, fates) + CountOf(IsFailure, fates)
                       + CountOf(IsQueued, fates) + CountOf(IsDropped, fates)
    ensures EncodedCount(fates) == CountOf(IsQueued, fates) + CountOf(IsDropped, fates)
    ensures |QueuedVoices(fates)| == CountOf(IsQueued, fates)
  {
    if fates != [] {
      var rest := fates[..|fates| - 1];
      forall n | 0 < n <= |rest|
        ensures FateFits(setup, frames, rest[..n])
      {
        assert rest[..n] == fates[..n];
      }
      FatesPartition(setup, frames, rest);
      assert fates[..|fates|] == fates;
      assert FateFits(setup, frames, fates);
    }
  }

  /** Every admitted frame is still in the ring or met exactly one of four fates; the sequence
      counter has advanced once per queued or dropped frame and by nothing else; and the voice
      packets polled so far followed by those still queued are one per queued frame. */
  ghost predicate FramesAccounted(setup: Setup, t: Trace) {
    var gated := CountOf(IsGated, t.fates);
    var failed := CountOf(IsFailure, t.fates);
    var queued := CountOf(IsQueued, t.fates);
    var dropped := CountOf(IsDropped, t.fates);
    && |t.captured| == gated + failed + queued + dropped + |t.engine.capture|
    && t.engine.nextSeq == (queued + dropped) % TWO16
    && |Voices(setup.format, t.polled + t.engine.out)| == queued
  }

  lemma ConservedIsAccounted(setup: Setup, t: Trace)
    requires Conserved(setup, t)
    ensures FramesAccounted(setup, t)
  {
    FatesPartition(setup, t.captured, t.fates);
  }

  /** Frame conservation over any run. */
  lemma FramesAreConserved(setup: Setup, calls: seq<Call>)
    requires Sound(setup) && ReadsBack(setup.format)
    ensures FramesAccounted(setup, History(setup, calls))
  {
    RunConserves(setup, calls);
    ConservedIsAccounted(setup, History(setup, calls));
  }

  lemma {:induction false} EncodedCountSplits(a: seq<Fate>, b: seq<Fate>)
    ensures EncodedCount(a + b) == EncodedCount(a) + EncodedCount(b)
  {
    if b == [] {
      assert a + b == a;
    } else {
      assert (a + b)[..|a + b| - 1] == a + b[..|b| - 1];
      EncodedCountSplits(a, b[..|b| - 1]);
    }
  }

  lemma {:induction false} OnlyDrops(fates: seq<Fate>)
    requires forall f | f in fates :: !f.Queued?
    ensures EncodedCount(fates) == CountOf(IsDropped, fates)
  {
    if fates != [] {
      assert fates[|fates| - 1] in fates;
      OnlyDrops(fates[..|fates| - 1]);
    }
  }

  /** Numbers of queued packets strictly increase, and the gap between two successive ones is
      exactly the number of packets dropped for a full queue between them: gated frames and
      encode failures use no number. */
  lemma GapsCountDrops(fates: seq<Fate>, i: nat, j: nat)
    requires i < j < |fates| && fates[i].Queued? && fates[j].Queued?
    ensures Number(fates, i) < Number(fates, j)
    ensures (forall k | i < k < j :: !fates[k].Queued?) ==>
              Number(fates, j) == Number(fates, i) + 1 + CountOf(IsDropped, fates[i + 1..j])
  {
    var between := fates[i + 1..j];
    assert fates[..j] == fates[..i] + [fates[i]] + between;
    EncodedCountSplits(fates[..i] + [fates[i]], between);
    EncodedCountSplits(fates[..i], [fates[i]]);
    assert [fates[i]][..0] == [];
    if forall k | i < k < j :: !fates[k].Queued? {
      OnlyDrops(between);
    }
  }

  lemma {:induction false} ReadAmongVoices(format: Format, packets: seq<seq<Byte>>, p: seq<Byte>)
    requires p in packets && format.read(p).Some?
    ensures format.read(p).value in Voices(format, packets)
    decreases |packets|
  {
    var k := |packets| - 1;
    if p != packets[k] {
      assert p in packets[..k];
      ReadAmongVoices(format, packets[..k], p);
    }
  }

  lemma {:induction false} QueuedAmongFates(fates: seq<Fate>, v: Voice)
    requires v in QueuedVoices(fates)
    ensures exists f :: f in fates && f == Queued(v)
  {
    var k := |fates| - 1;
    if fates[k] == Queued(v) {
      assert fates[k] in fates;
    } else {
      QueuedAmongFates(fates[..k], v);
      assert forall f | f in fates[..k] :: f in fates;
    }
  }

  lemma SentFlags(setup: Setup, calls: seq<Call>, p: seq<Byte>)
    requires Sound(setup) && ReadsBack(setup.format)
    requires var t := History(setup, calls); p in t.polled || p in t.engine.out
    requires setup.format.read(p).Some?
    ensures Flagged(setup, [Queued(setup.format.read(p).value)])
  {
    RunConserves(setup, calls);
    var t := History(setup, calls);
    ReadAmongVoices(setup.format, t.polled + t.engine.out, p);
    QueuedAmongFates(t.fates, setup.format.read(p).value);
  }

  // ----- packet sizes

  ghost predicate Small(packets: seq<seq<Byte>>) {
    forall p | p in packets :: |p| <= HEADER_SIZE + MAX_PACKET
  }

  lemma DrainOneSendsSmall(setup: Setup, e: Engine)
    requires Sound(setup) && OnTheWire(setup.format) && e.capture != [] && Small(e.out)
    ensures Small(DrainOne(setup, e).engine.out)
  {
    DrainOneOutput(setup, e);
    var f := DrainOne(setup, e).fates[0];
    if f.Queued? {
      assert |setup.format.voice(f.voice)| == HEADER_SIZE + |f.voice.payload|;
    }
  }

  lemma {:induction false} DrainSendsSmall(setup: Setup, e: Engine)
    requires Sound(setup) && OnTheWire(setup.format) && Small(e.out)
    ensures Small(DrainCapture(setup, e).engine.out)
    decreases |e.capture|
  {
    if e.capture != [] {
      DrainOneShrinks(setup, e);
      DrainOneSendsSmall(setup, e);
      DrainSendsSmall(setup, DrainOne(setup, e).engine);
    }
  }

  lemma CallSendsSmall(setup: Setup, e: Engine, call: Call)
    requires Sound(setup) && OnTheWire(setup.format) && Bounded(setup, e) && Small(e.out)
    ensures Small(Perform(setup, e, call).engine.out) && Small(Perform(setup, e, call).polled)
  {
    match call
    case DoConnect(sessionId, playerId) =>
      assert |setup.format.join(Join(sessionId, playerId))| == HEADER_SIZE + JOIN_SIZE;
    case DoDrainTurn => if e.capture != [] { DrainOneSendsSmall(setup, e); DrainOneEvents(setup, e); }
    case DoTick(now) =>
      DrainSendsSmall(setup, e);
      DrainKeepsRest(setup, e);
    case _ =>
  }

  /** No packet sent is larger than a full voice packet. */
  lemma {:induction false} SentIsSmall(setup: Setup, calls: seq<Call>)
    requires Sound(setup) && OnTheWire(setup.format)
    ensures Small(History(setup, calls).polled) && Small(History(setup, calls).engine.out)
    decreases |calls|
  {
    if calls != [] {
      var before := calls[..|calls| - 1];
      SentIsSmall(setup, before);
      CallSendsSmall(setup, History(setup, before).engine, calls[|calls| - 1]);
    }
  }

  /** The gating invariant: whatever calls are made in whatever order, a voice packet in the
      outgoing queue or already polled, read back through the parser, is flagged RADIO only
      together with PTT, and in push-to-talk mode always carries PTT. */
  lemma GatingInvariant(setup: Setup, calls: seq<Call>, p: seq<Byte>)
    requires Sound(setup) && OnTheWire(setup.format)
    requires var t := History(setup, calls); p in t.polled || p in t.engine.out
    ensures |p| <= HEADER_SIZE + MAX_PACKET
    ensures ParseVoice(p).Ok? ==>
              var flags := ParseVoice(p).value.flags;
              && (FlagsIsRadio(flags) ==> FlagsPtt(flags))
              && (setup.mode == PttOnly ==> FlagsPtt(flags))
  {
    SentIsSmall(setup, calls);
    WireReadsBack(setup.format);
    if ParseVoice(p).Ok? {
      assert setup.format.read(p) == Some(ParseVoice(p).value);
      SentFlags(setup, calls, p);
      assert Queued(ParseVoice(p).value) in [Queued(ParseVoice(p).value)];
    }
  }
}
