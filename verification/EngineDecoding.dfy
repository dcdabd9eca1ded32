/** What comes out of the decoders: after every tick the samples shown for a speaker are what
    its decoder makes of everything it has been fed, the packet just popped included. */
module EngineDecoding {
  import opened Words
  import opened Sequences
  import opened BoundedFifo
  import opened WireFormat
  import PacketLayout
  import opened JitterModel
  import opened EngineModel
  import opened EngineSpeakers

  /** The samples in a speaker's buffer are the decoder's, after all it has been fed. */
  ghost predicate ShowsDecoded(setup: Setup, sp: Speaker) {
    && sp.pcmCount <= |sp.pcm|
    && (sp.pcmCount > 0 ==> sp.pcm[..sp.pcmCount] == setup.decode(sp.decoderLog))
  }

  /** One tick of one speaker: what the buffer pops is fed, and decoded at once; if it pops
      nothing, nothing is shown. */
  ghost predicate DecodesIn(setup: Setup, before: Speaker, after: Speaker) {
    && (before.decoderLog < after.decoderLog || after.decoderLog == before.decoderLog)
    && (after.decoderLog == before.decoderLog ==> after.pcmCount == 0)
    && (before.decoderLog < after.decoderLog ==>
          && |after.decoderLog| == |before.decoderLog| + 1
          && after.pcmCount == |setup.decode(after.decoderLog)| <= |after.pcm|
          && after.pcm[..after.pcmCount] == setup.decode(after.decoderLog))
  }

  lemma TickDecodes(setup: Setup, sp: Speaker, now: uint32)
    requires Sound(setup) && SpeakerOk(setup, sp)
    ensures DecodesIn(setup, sp, TickSpeaker(setup, sp, now)) && ShowsDecoded(setup, TickSpeaker(setup, sp, now))
    ensures TickSpeaker(setup, sp, now).decoderLog ==
            sp.decoderLog + (if Pop(sp.jitter).1.Idle? then [] else [Pop(sp.jitter).1])
    ensures TickSpeaker(setup, sp, now).lastRxFlags == sp.lastRxFlags
  {
  }

  // ----- the PCM events of a tick

  /** The PCM events among some events that show speaker k's buffer. */
  function PcmsOf(k: nat, events: seq<Event>): seq<Event> {
    if events == [] then []
    else
      var last := events[|events| - 1];
      PcmsOf(k, events[..|events| - 1]) + if last.PcmEvent? && last.buffer == k then [last] else []
  }

  lemma {:induction false} PcmsConcat(k: nat, a: seq<Event>, b: seq<Event>)
    ensures PcmsOf(k, a + b) == PcmsOf(k, a) + PcmsOf(k, b)
    decreases |b|
  {
    if b == [] {
      assert a + b == a;
    } else {
      assert (a + b)[..|a + b| - 1] == a + b[..|b| - 1];
      PcmsConcat(k, a, b[..|b| - 1]);
    }
  }

  lemma {:induction false} NoPcmsOf(k: nat, events: seq<Event>)
    requires forall ev | ev in events :: !(ev.PcmEvent? && ev.buffer == k)
    ensures PcmsOf(k, events) == []
    decreases |events|
  {
    if events != [] {
      assert events[|events| - 1] in events;
      NoPcmsOf(k, events[..|events| - 1]);
    }
  }

  lemma {:induction false} JoinedPcms(k: nat, batches: seq<seq<Event>>)
    requires forall i | 0 <= i < |batches| && i != k :: PcmsOf(k, batches[i]) == []
    ensures PcmsOf(k, Joined(batches)) == if k < |batches| then PcmsOf(k, batches[k]) else []
    decreases |batches|
  {
    if batches != [] {
      var n := |batches| - 1;
      JoinedPcms(k, batches[..n]);
      PcmsConcat(k, Joined(batches[..n]), batches[n]);
    }
  }

  /** The event for a speaker's samples, from its state after the tick. */
  function EventFor(setup: Setup, k: nat, after: Speaker): seq<Event> {
    if after.pcmCount == 0 then []
    else [PcmEvent((k + 1) % 0x1_0000, setup.sampleRate, after.lastRxFlags, (after.lastRxFlags >> 1) & 0x0F,
                   k, after.pcmCount)]
  }

  lemma SpeakerPcms(setup: Setup, sp: Speaker, i: nat, now: uint32, k: nat)
    requires Sound(setup) && SpeakerOk(setup, sp)
    ensures PcmsOf(k, SpeakerEvents(setup, sp, i, now)) ==
            if i == k then EventFor(setup, k, TickSpeaker(setup, sp, now)) else []
  {
    PcmsConcat(k, TimeoutEvents(sp, i, now), PcmEvents(setup, sp, i));
    NoPcmsOf(k, TimeoutEvents(sp, i, now));
    PacketLayout.FlagBits(false, 0, false, sp.lastRxFlags);
    if i != k {
      NoPcmsOf(k, PcmEvents(setup, sp, i));
    } else {
      OwnPcms(setup, sp, k, now);
    }
  }

  lemma OwnPcms(setup: Setup, sp: Speaker, k: nat, now: uint32)
    requires Sound(setup) && SpeakerOk(setup, sp) && FlagsChannel(sp.lastRxFlags) == (sp.lastRxFlags >> 1) & 0x0F
    ensures PcmsOf(k, PcmEvents(setup, sp, k)) == EventFor(setup, k, TickSpeaker(setup, sp, now))
  {
    var events := PcmEvents(setup, sp, k);
    if events != [] {
      assert events[..0] == [] && PcmsOf(k, []) == [];
    }
  }

  lemma {:induction false} DrainNamesNobody(setup: Setup, e: Engine)
    requires Sound(setup)
    ensures forall ev | ev in DrainCapture(setup, e).attempted :: !ev.SpeakingEvent? && !ev.PcmEvent?
    decreases |e.capture|
  {
    if e.capture != [] {
      DrainOneShrinks(setup, e);
      DrainNamesNobody(setup, DrainOne(setup, e).engine);
    }
  }

  lemma BatchPcms(setup: Setup, e: Engine, now: uint32, k: nat)
    requires Sound(setup) && Bounded(setup, e) && k < |e.speakers|
    ensures PcmsOf(k, Joined(EventsBySpeaker(setup, e.speakers, now))) ==
            EventFor(setup, k, TickSpeaker(setup, e.speakers[k], now))
  {
    var batches := EventsBySpeaker(setup, e.speakers, now);
    forall i | 0 <= i < |batches|
      ensures PcmsOf(k, batches[i]) == if i == k then EventFor(setup, k, TickSpeaker(setup, e.speakers[k], now)) else []
    {
      SpeakerPcms(setup, e.speakers[i], i, now, k);
    }
    JoinedPcms(k, batches);
  }

  /** Every tick, for every speaker: the samples shown afterwards are the decoder's, after the
      packet just popped; nothing is shown if nothing was popped; and there is one PCM event
      for the speaker exactly if samples are shown, with its id, the flags of its last packet,
      and their number. */
  lemma TickShowsDecoded(setup: Setup, e: Engine, now: uint32, k: nat)
    requires Sound(setup) && Bounded(setup, e) && k < |e.speakers|
    ensures var t := Tick(setup, e, now);
            && k < |t.engine.speakers|
            && DecodesIn(setup, e.speakers[k], t.engine.speakers[k])
            && PcmsOf(k, t.attempted) == EventFor(setup, k, t.engine.speakers[k])
  {
    TickSpeakersAt(setup, e, now);
    TickDecodes(setup, e.speakers[k], now);
    DrainNamesNobody(setup, e);
    NoPcmsOf(k, DrainCapture(setup, e).attempted);
    PcmsConcat(k, DrainCapture(setup, e).attempted, Joined(EventsBySpeaker(setup, e.speakers, now)));
    BatchPcms(setup, e, now, k);
  }

  // ----- the order of a tick's events

  /** Some events go through the speakers in turn: `who` names each event's speaker, never
      falls, and repeats only for an off-event and the PCM event right after it. */
  ghost predicate InTurn(events: seq<Event>, who: seq<nat>, upto: nat) {
    && |who| == |events|
    && (forall p | 0 <= p < |who| ::
          && who[p] < upto
          && (events[p] == SpeakingEvent((who[p] + 1) % 0x1_0000, false)
              || (events[p].PcmEvent? && events[p].buffer == who[p])))
    && (forall p, q | 0 <= p < q < |who| ::
          who[p] < who[q] || (who[p] == who[q] && events[p].SpeakingEvent? && events[q].PcmEvent?))
  }

  lemma {:induction false} BatchesInTurn(setup: Setup, speakers: seq<Speaker>, now: uint32, upto: nat)
    returns (who: seq<nat>)
    requires upto <= |speakers|
    ensures InTurn(Joined(EventsBySpeaker(setup, speakers, now)[..upto]), who, upto)
    decreases upto
  {
    who := [];
    if upto > 0 {
      var earlier := BatchesInTurn(setup, speakers, now, upto - 1);
      var batches := EventsBySpeaker(setup, speakers, now);
      assert batches[..upto][..upto - 1] == batches[..upto - 1];
      who := OneMoreBatch(setup, speakers[upto - 1], now, Joined(batches[..upto - 1]), earlier, upto - 1);
    }
  }

  lemma OneMoreBatch(setup: Setup, sp: Speaker, now: uint32, events: seq<Event>, earlier: seq<nat>, i: nat)
    returns (who: seq<nat>)
    requires InTurn(events, earlier, i)
    ensures InTurn(events + SpeakerEvents(setup, sp, i, now), who, i + 1)
  {
    var batch := SpeakerEvents(setup, sp, i, now);
    who := earlier + seq(|batch|, _ => i);
  }

  /** A tick attempts the reports of the drained frames, which concern no speaker, and then the
      speakers' events in turn, an off-event before the PCM event of the same speaker. */
  lemma TickGoesInTurn(setup: Setup, e: Engine, now: uint32) returns (reports: nat, who: seq<nat>)
    requires Sound(setup) && Bounded(setup, e)
    ensures var attempted := Tick(setup, e, now).attempted;
            && reports <= |attempted|
            && (forall p | 0 <= p < reports :: !attempted[p].SpeakingEvent? && !attempted[p].PcmEvent?)
            && InTurn(attempted[reports..], who, setup.maxPlayers)
  {
    var drained := DrainCapture(setup, e);
    reports := |drained.attempted|;
    DrainKeepsRest(setup, e);
    DrainNamesNobody(setup, e);
    var batches := EventsBySpeaker(setup, e.speakers, now);
    who := BatchesInTurn(setup, e.speakers, now, |e.speakers|);
    assert batches[..|e.speakers|] == batches;
    assert Tick(setup, e, now).attempted == drained.attempted + Joined(batches);
  }

  // ----- whole runs

  lemma IngestShowsSame(setup: Setup, e: Engine, data: seq<Byte>, now: uint32, k: nat)
    requires k < |e.speakers| == setup.maxPlayers
    ensures var after := Ingest(setup, e, data, now).engine.speakers;
            && k < |after|
            && after[k].pcm == e.speakers[k].pcm && after[k].pcmCount == e.speakers[k].pcmCount
            && after[k].decoderLog == e.speakers[k].decoderLog
  {
    var addressed := Addressed(setup, data);
    if addressed.Some? {
      IngestOfVoice(setup, e, data, now, addressed.value);
    }
  }

  lemma TickKeepsShown(setup: Setup, e: Engine, now: uint32, k: nat)
    requires Sound(setup) && Bounded(setup, e) && k < |e.speakers|
    ensures var after := Tick(setup, e, now).engine.speakers;
            k < |after| && ShowsDecoded(setup, after[k])
  {
    TickSpeakersAt(setup, e, now);
    TickDecodes(setup, e.speakers[k], now);
  }

  lemma CallShowsDecoded(setup: Setup, e: Engine, call: Call, k: nat)
    requires Sound(setup) && Bounded(setup, e) && k < |e.speakers| && ShowsDecoded(setup, e.speakers[k])
    ensures k < |Perform(setup, e, call).engine.speakers|
    ensures ShowsDecoded(setup, Perform(setup, e, call).engine.speakers[k])
  {
    match call
    case DoTick(now) => TickKeepsShown(setup, e, now, k);
    case DoIngest(data, now) => IngestShowsSame(setup, e, data, now, k);
    case _ => OtherCallsKeepSpeakers(setup, e, call);
  }

  /** After any run, whatever samples are shown for a speaker are what its decoder made of all
      it has been fed. */
  lemma {:induction false} RunShowsDecoded(setup: Setup, calls: seq<Call>, k: nat)
    requires Sound(setup) && k < setup.maxPlayers
    ensures ShowsDecoded(setup, History(setup, calls).engine.speakers[k])
    decreases |calls|
  {
    CreatedBounded(setup);
    if calls != [] {
      var before, call := calls[..|calls| - 1], calls[|calls| - 1];
      assert calls == before + [call];
      RunShowsDecoded(setup, before, k);
      HistoryLast(setup, before, call);
      CallShowsDecoded(setup, History(setup, before).engine, call, k);
    }
  }
}
