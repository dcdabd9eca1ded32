/** Runs of the engine as seen by one speaker: the speaker's state, and the SPEAKING events
    attempted for it, depend only on the packets addressed to it and on the ticks. */
module EngineSpeakers {
  import opened Words
  import opened Sequences
  import opened BoundedFifo
  import opened Packets
  import opened JitterModel
  import opened EngineModel

  datatype SpeakerStep = Got(v: Voice, now: uint32) | Ticked(now: uint32) | Nothing

  function StepOf(setup: Setup, call: Call, k: nat): SpeakerStep {
    match call
    case DoIngest(data, now) =>
      (match Addressed(setup, data)
       case Some(v) => if v.speakerId == k + 1 then Got(v, now) else Nothing
       case None => Nothing)
    case DoTick(now) => Ticked(now)
    case _ => Nothing
  }

  function AfterStep(setup: Setup, sp: Speaker, step: SpeakerStep): Speaker {
    match step
    case Got(v, now) => Arrival(sp, v, now)
    case Ticked(now) => TickSpeaker(setup, sp, now)
    case Nothing => sp
  }

  /** The on/off events a step attempts. */
  function OnOffOf(sp: Speaker, step: SpeakerStep): seq<bool> {
    match step
    case Got(_, _) => if sp.speaking then [] else [true]
    case Ticked(now) => if TimedOut(sp, now) then [false] else []
    case Nothing => []
  }

  function StepsOf(setup: Setup, calls: seq<Call>, k: nat): (steps: seq<SpeakerStep>)
    ensures |steps| == |calls|
  {
    if calls == [] then []
    else StepsOf(setup, calls[..|calls| - 1], k) + [StepOf(setup, calls[|calls| - 1], k)]
  }

  function RunSpeaker(setup: Setup, sp: Speaker, steps: seq<SpeakerStep>): Speaker {
    if steps == [] then sp
    else AfterStep(setup, RunSpeaker(setup, sp, steps[..|steps| - 1]), steps[|steps| - 1])
  }

  function RunOnOffs(setup: Setup, sp: Speaker, steps: seq<SpeakerStep>): seq<bool> {
    if steps == [] then []
    else
      var before := steps[..|steps| - 1];
      RunOnOffs(setup, sp, before) + OnOffOf(RunSpeaker(setup, sp, before), steps[|steps| - 1])
  }

  // ----- on/off events in a log

  /** The on/off values of the SPEAKING events for one speaker id, in order. */
  function OnOffs(id: uint16, events: seq<Event>): seq<bool> {
    if events == [] then []
    else
      var last := events[|events| - 1];
      OnOffs(id, events[..|events| - 1]) + if last.SpeakingEvent? && last.speakerId == id then [last.on] else []
  }

  lemma {:induction false} OnOffsConcat(id: uint16, a: seq<Event>, b: seq<Event>)
    ensures OnOffs(id, a + b) == OnOffs(id, a) + OnOffs(id, b)
  {
    if b == [] {
      assert a + b == a;
    } else {
      assert (a + b)[..|a + b| - 1] == a + b[..|b| - 1];
      OnOffsConcat(id, a, b[..|b| - 1]);
    }
  }

  lemma {:induction false} NoSpeakingNoOnOffs(id: uint16, events: seq<Event>)
    requires forall ev | ev in events :: !ev.SpeakingEvent?
    ensures OnOffs(id, events) == []
  {
    if events != [] {
      assert events[|events| - 1] in events;
      NoSpeakingNoOnOffs(id, events[..|events| - 1]);
    }
  }

  lemma OneEvent(id: uint16, ev: Event)
    ensures OnOffs(id, [ev]) == if ev.SpeakingEvent? && ev.speakerId == id then [ev.on] else []
  {
    assert [ev][..0] == [];
  }

  /** Speakers beyond the 16-bit truncation of `maxPlayers` never receive, so never speak: an
      index that does fits a 16-bit speaker id. */
  ghost predicate OnlyAddressableSpeak(speakers: seq<Speaker>) {
    forall i | 0 <= i < |speakers| && speakers[i].speaking :: i < TWO16 - 1
  }

  // ----- what one call does to one speaker

  ghost predicate Projects(setup: Setup, e: Engine, call: Call, t: Trace, k: nat)
    requires k < |e.speakers| && k < TWO16 - 1
  {
    && |t.engine.speakers| == |e.speakers|
    && t.engine.speakers[k] == AfterStep(setup, e.speakers[k], StepOf(setup, call, k))
    && OnOffs(k + 1, t.attempted) == OnOffOf(e.speakers[k], StepOf(setup, call, k))
  }

  lemma IngestOfVoice(setup: Setup, e: Engine, data: seq<Byte>, now: uint32, v: Voice)
    requires |e.speakers| == setup.maxPlayers && Addressed(setup, data) == Some(v)
    ensures 1 <= v.speakerId <= |e.speakers|
    ensures var t, i := Ingest(setup, e, data, now), v.speakerId - 1;
            && t.engine.speakers == e.speakers[i := Arrival(e.speakers[i], v, now)]
            && t.attempted == if e.speakers[i].speaking then [] else [SpeakingEvent(v.speakerId, true)]
  {
  }

  lemma IngestOfNothing(setup: Setup, e: Engine, data: seq<Byte>, now: uint32, k: nat)
    requires |e.speakers| == setup.maxPlayers && k < |e.speakers| && k < TWO16 - 1
    requires Addressed(setup, data) == None
    ensures Projects(setup, e, DoIngest(data, now), Ingest(setup, e, data, now), k)
  {
  }

  lemma VoiceTraceProjects(setup: Setup, e: Engine, data: seq<Byte>, now: uint32, v: Voice, t: Trace, k: nat)
    requires k < |e.speakers| && k < TWO16 - 1 && 1 <= v.speakerId <= |e.speakers|
    requires Addressed(setup, data) == Some(v)
    requires t.engine.speakers == e.speakers[v.speakerId - 1 := Arrival(e.speakers[v.speakerId - 1], v, now)]
    requires t.attempted == if e.speakers[v.speakerId - 1].speaking then [] else [SpeakingEvent(v.speakerId, true)]
    ensures Projects(setup, e, DoIngest(data, now), t, k)
  {
    VoiceProjects(e.speakers, v, now, k);
    assert StepOf(setup, DoIngest(data, now), k) == if v.speakerId == k + 1 then Got(v, now) else Nothing;
  }

  lemma IngestProjects(setup: Setup, e: Engine, data: seq<Byte>, now: uint32, k: nat)
    requires |e.speakers| == setup.maxPlayers && k < |e.speakers| && k < TWO16 - 1
    ensures Projects(setup, e, DoIngest(data, now), Ingest(setup, e, data, now), k)
  {
    var addressed := Addressed(setup, data);
    match addressed
    case None => IngestOfNothing(setup, e, data, now, k);
    case Some(v) =>
      IngestOfVoice(setup, e, data, now, v);
      VoiceTraceProjects(setup, e, data, now, v, Ingest(setup, e, data, now), k);
  }

  lemma VoiceProjects(speakers: seq<Speaker>, v: Voice, now: uint32, k: nat)
    requires k < |speakers| && k < TWO16 - 1 && 1 <= v.speakerId <= |speakers|
    ensures var i := v.speakerId - 1;
            && speakers[i := Arrival(speakers[i], v, now)][k] ==
                 (if i == k then Arrival(speakers[k], v, now) else speakers[k])
            && OnOffs(k + 1, if speakers[i].speaking then [] else [SpeakingEvent(v.speakerId, true)]) ==
                 if i == k && !speakers[k].speaking then [true] else []
  {
    OneEvent(k + 1, SpeakingEvent(v.speakerId, true));
  }

  lemma IngestKeepsAddressable(setup: Setup, e: Engine, data: seq<Byte>, now: uint32)
    requires |e.speakers| == setup.maxPlayers && OnlyAddressableSpeak(e.speakers)
    ensures OnlyAddressableSpeak(Ingest(setup, e, data, now).engine.speakers)
  {
  }

  lemma {:induction false} DrainIsSilent(setup: Setup, e: Engine)
    requires Sound(setup)
    ensures forall ev | ev in DrainCapture(setup, e).attempted :: !ev.SpeakingEvent?
    decreases |e.capture|
  {
    if e.capture != [] {
      DrainOneShrinks(setup, e);
      DrainIsSilent(setup, DrainOne(setup, e).engine);
    }
  }

  lemma SpeakerOnOffs(setup: Setup, sp: Speaker, i: nat, now: uint32, k: nat)
    requires k < TWO16 - 1 && (sp.speaking ==> i < TWO16 - 1)
    ensures OnOffs(k + 1, SpeakerEvents(setup, sp, i, now)) == if TimedOut(sp, now) && i == k then [false] else []
  {
    OnOffsConcat(k + 1, TimeoutEvents(sp, i, now), PcmEvents(setup, sp, i));
    NoSpeakingNoOnOffs(k + 1, PcmEvents(setup, sp, i));
    if TimedOut(sp, now) {
      OneEvent(k + 1, SpeakingEvent(i + 1, false));
    }
  }

  /** Only one batch speaks about the id. */
  lemma {:induction false} BatchesOnOffsJoined(id: uint16, batches: seq<seq<Event>>, k: nat)
    requires forall i | 0 <= i < |batches| && i != k :: OnOffs(id, batches[i]) == []
    ensures OnOffs(id, Joined(batches)) == if k < |batches| then OnOffs(id, batches[k]) else []
    decreases |batches|
  {
    if batches != [] {
      var n := |batches| - 1;
      BatchesOnOffsJoined(id, batches[..n], k);
      OnOffsConcat(id, Joined(batches[..n]), batches[n]);
    }
  }

  lemma BatchOnOffs(setup: Setup, speakers: seq<Speaker>, now: uint32, k: nat, i: nat)
    requires k < TWO16 - 1 && i < |speakers| && (speakers[i].speaking ==> i < TWO16 - 1)
    ensures OnOffs(k + 1, EventsBySpeaker(setup, speakers, now)[i]) ==
            if TimedOut(speakers[i], now) && i == k then [false] else []
  {
    SpeakerOnOffs(setup, speakers[i], i, now, k);
  }

  ghost predicate OnlyBatchSpeaks(id: uint16, batches: seq<seq<Event>>, k: nat, off: bool) {
    forall i | 0 <= i < |batches| :: OnOffs(id, batches[i]) == if off && i == k then [false] else []
  }

  lemma OneBatchSpeaks(id: uint16, batches: seq<seq<Event>>, k: nat, off: bool)
    requires k < |batches| && OnlyBatchSpeaks(id, batches, k, off)
    ensures OnOffs(id, Joined(batches)) == if off then [false] else []
  {
    BatchesOnOffsJoined(id, batches, k);
  }

  lemma BatchesOnOffs(setup: Setup, speakers: seq<Speaker>, now: uint32, k: nat)
    requires OnlyAddressableSpeak(speakers) && k < |speakers| && k < TWO16 - 1
    ensures |EventsBySpeaker(setup, speakers, now)| == |speakers|
    ensures OnlyBatchSpeaks(k + 1, EventsBySpeaker(setup, speakers, now), k, TimedOut(speakers[k], now))
  {
    forall i | 0 <= i < |speakers|
      ensures OnOffs(k + 1, EventsBySpeaker(setup, speakers, now)[i]) ==
              if TimedOut(speakers[k], now) && i == k then [false] else []
    {
      BatchOnOffs(setup, speakers, now, k, i);
    }
  }

  lemma TickOnOffs(setup: Setup, speakers: seq<Speaker>, now: uint32, k: nat)
    requires OnlyAddressableSpeak(speakers) && k < |speakers| && k < TWO16 - 1
    ensures OnOffs(k + 1, Joined(EventsBySpeaker(setup, speakers, now))) == OnOffOf(speakers[k], Ticked(now))
  {
    BatchesOnOffs(setup, speakers, now, k);
    OneBatchSpeaks(k + 1, EventsBySpeaker(setup, speakers, now), k, TimedOut(speakers[k], now));
  }

  lemma TickSpeakersAt(setup: Setup, e: Engine, now: uint32)
    requires Sound(setup) && Bounded(setup, e)
    ensures var t := Tick(setup, e, now);
            && |t.engine.speakers| == |e.speakers|
            && (forall i | 0 <= i < |e.speakers| :: t.engine.speakers[i] == TickSpeaker(setup, e.speakers[i], now))
            && t.attempted == DrainCapture(setup, e).attempted + Joined(EventsBySpeaker(setup, e.speakers, now))
  {
    DrainKeepsRest(setup, e);
  }

  lemma TickTraceProjects(setup: Setup, e: Engine, now: uint32, t: Trace, drained: seq<Event>, k: nat)
    requires OnlyAddressableSpeak(e.speakers) && k < |e.speakers| && k < TWO16 - 1
    requires forall ev | ev in drained :: !ev.SpeakingEvent?
    requires |t.engine.speakers| == |e.speakers|
    requires t.engine.speakers[k] == TickSpeaker(setup, e.speakers[k], now)
    requires t.attempted == drained + Joined(EventsBySpeaker(setup, e.speakers, now))
    ensures Projects(setup, e, DoTick(now), t, k)
  {
    SilentFront(k + 1, drained, Joined(EventsBySpeaker(setup, e.speakers, now)));
    TickOnOffs(setup, e.speakers, now, k);
    assert StepOf(setup, DoTick(now), k) == Ticked(now);
  }

  lemma SilentFront(id: uint16, drained: seq<Event>, own: seq<Event>)
    requires forall ev | ev in drained :: !ev.SpeakingEvent?
    ensures OnOffs(id, drained + own) == OnOffs(id, own)
  {
    NoSpeakingNoOnOffs(id, drained);
    OnOffsConcat(id, drained, own);
    assert [] + OnOffs(id, own) == OnOffs(id, own);
  }

  lemma TickProjects(setup: Setup, e: Engine, now: uint32, k: nat)
    requires Sound(setup) && Bounded(setup, e) && OnlyAddressableSpeak(e.speakers)
    requires k < |e.speakers| && k < TWO16 - 1
    ensures Projects(setup, e, DoTick(now), Tick(setup, e, now), k)
  {
    TickSpeakersAt(setup, e, now);
    DrainIsSilent(setup, e);
    TickTraceProjects(setup, e, now, Tick(setup, e, now), DrainCapture(setup, e).attempted, k);
  }

  lemma TickKeepsAddressable(setup: Setup, e: Engine, now: uint32)
    requires Sound(setup) && Bounded(setup, e) && OnlyAddressableSpeak(e.speakers)
    ensures OnlyAddressableSpeak(Tick(setup, e, now).engine.speakers)
  {
    TickSpeakersAt(setup, e, now);
  }

  lemma DrainTurnIsSilent(setup: Setup, e: Engine)
    requires Sound(setup)
    ensures DrainTurn(setup, e).engine.speakers == e.speakers
    ensures forall ev | ev in DrainTurn(setup, e).attempted :: !ev.SpeakingEvent?
  {
  }

  lemma OtherCallsKeepSpeakers(setup: Setup, e: Engine, call: Call)
    requires Sound(setup) && Bounded(setup, e) && !call.DoIngest? && !call.DoTick?
    ensures Perform(setup, e, call).engine.speakers == e.speakers
  {
    if call.DoDrainTurn? {
      DrainTurnIsSilent(setup, e);
    }
  }

  lemma OtherCallsProject(setup: Setup, e: Engine, call: Call, k: nat)
    requires Sound(setup) && Bounded(setup, e) && !call.DoIngest? && !call.DoTick?
    requires k < |e.speakers| && k < TWO16 - 1
    ensures Projects(setup, e, call, Perform(setup, e, call), k)
  {
    OtherCallsKeepSpeakers(setup, e, call);
    if call.DoDrainTurn? {
      DrainTurnIsSilent(setup, e);
    }
    NoSpeakingNoOnOffs(k + 1, Perform(setup, e, call).attempted);
  }

  lemma CallProjects(setup: Setup, e: Engine, call: Call, k: nat)
    requires Sound(setup) && Bounded(setup, e) && OnlyAddressableSpeak(e.speakers)
    requires k < |e.speakers| && k < TWO16 - 1
    ensures Projects(setup, e, call, Perform(setup, e, call), k)
    ensures OnlyAddressableSpeak(Perform(setup, e, call).engine.speakers)
  {
    match call
    case DoIngest(data, now) =>
      IngestProjects(setup, e, data, now, k);
      IngestKeepsAddressable(setup, e, data, now);
    case DoTick(now) =>
      TickProjects(setup, e, now, k);
      TickKeepsAddressable(setup, e, now);
    case _ =>
      OtherCallsKeepSpeakers(setup, e, call);
      OtherCallsProject(setup, e, call, k);
  }

  /** A history as speaker `k` alone, run on its own steps, would have it. */
  ghost predicate Projected(setup: Setup, t: Trace, steps: seq<SpeakerStep>, k: nat)
    requires k < TWO16 - 1
  {
    && k < |t.engine.speakers| == setup.maxPlayers
    && OnlyAddressableSpeak(t.engine.speakers)
    && t.engine.speakers[k] == RunSpeaker(setup, NewSpeaker(setup), steps)
    && OnOffs(k + 1, t.attempted) == RunOnOffs(setup, NewSpeaker(setup), steps)
  }

  lemma ProjectedStep(setup: Setup, t: Trace, u: Trace, t': Trace, call: Call, before: seq<SpeakerStep>, k: nat)
    requires k < TWO16 - 1 && Projected(setup, t, before, k)
    requires Projects(setup, t.engine, call, u, k) && OnlyAddressableSpeak(u.engine.speakers)
    requires t'.engine == u.engine && t'.attempted == t.attempted + u.attempted
    ensures Projected(setup, t', before + [StepOf(setup, call, k)], k)
  {
    var steps := before + [StepOf(setup, call, k)];
    assert steps[..|steps| - 1] == before;
    OnOffsConcat(k + 1, t.attempted, u.attempted);
  }

  /** The projection: along any run, speaker `k` and its on/off events are those of the
      speaker alone, run on its own steps. */
  lemma {:induction false} RunProjects(setup: Setup, calls: seq<Call>, k: nat)
    requires Sound(setup) && k < setup.maxPlayers && k < TWO16 - 1
    ensures Projected(setup, History(setup, calls), StepsOf(setup, calls, k), k)
  {
    if calls == [] {
      CreatedBounded(setup);
    } else {
      var earlier, call := calls[..|calls| - 1], calls[|calls| - 1];
      assert calls == earlier + [call];
      var t := History(setup, earlier);
      RunProjects(setup, earlier, k);
      HistoryLast(setup, earlier, call);
      CallProjects(setup, t.engine, call, k);
      var u := Perform(setup, t.engine, call);
      ProjectedStep(setup, t, u, History(setup, calls), call, StepsOf(setup, earlier, k), k);
    }
  }
}
