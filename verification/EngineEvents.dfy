/** The event budget of one tick, and what the PCM events of a tick point at until the next. */
module EngineEvents {
  import opened Words
  import opened Sequences
  import opened BoundedFifo
  import opened JitterModel
  import opened EngineModel
  import opened EngineSpeakers

  function SpeakingCount(speakers: seq<Speaker>): nat {
    if speakers == [] then 0
    else SpeakingCount(speakers[..|speakers| - 1]) + if speakers[|speakers| - 1].speaking then 1 else 0
  }

  lemma {:induction false} SpeakingCountBounded(speakers: seq<Speaker>)
    ensures SpeakingCount(speakers) <= |speakers|
  {
    if speakers != [] {
      SpeakingCountBounded(speakers[..|speakers| - 1]);
    }
  }

  lemma {:induction false} SpeakingCountUpdate(speakers: seq<Speaker>, i: nat, sp: Speaker)
    requires i < |speakers| && sp.speaking
    ensures SpeakingCount(speakers[i := sp]) == SpeakingCount(speakers) + if speakers[i].speaking then 0 else 1
    decreases |speakers|
  {
    var n := |speakers| - 1;
    if i == n {
      assert speakers[i := sp][..n] == speakers[..n];
    } else {
      assert speakers[i := sp][..n] == speakers[..n][i := sp];
      SpeakingCountUpdate(speakers[..n], i, sp);
    }
  }

  // ----- what is attempted is offered to the queue

  predicate LeavesQueue(call: Call) {
    !call.DoPollEvent?
  }

  lemma TickOffers(setup: Setup, e: Engine, now: uint32)
    requires Sound(setup) && Bounded(setup, e)
    ensures Tick(setup, e, now).engine.events == OfferAll(e.events, Tick(setup, e, now).attempted, EVENT_CAP)
  {
    DrainKeepsRest(setup, e);
    var drained := DrainCapture(setup, e);
    OfferAllCompose(e.events, drained.attempted, Joined(EventsBySpeaker(setup, e.speakers, now)), EVENT_CAP);
  }

  /** Every call but the event poll offers the events it attempts to the queue, in order. */
  lemma CallOffers(setup: Setup, e: Engine, call: Call)
    requires Sound(setup) && Bounded(setup, e) && LeavesQueue(call)
    ensures Perform(setup, e, call).engine.events == OfferAll(e.events, Perform(setup, e, call).attempted, EVENT_CAP)
  {
    OfferOne(e.events, ConnectedEvent, EVENT_CAP);
    match call
    case DoConnect(_, _) => OfferOne(e.events, ErrorEvent(ERR_INTERNAL), EVENT_CAP);
    case DoDisconnect => OfferOne(e.events, DisconnectedEvent, EVENT_CAP);
    case DoIngest(data, now) => IngestOffers(setup, e, data, now);
    case DoDrainTurn => if e.capture != [] { DrainOneEvents(setup, e); }
    case DoTick(now) => TickOffers(setup, e, now);
    case _ =>
  }

  lemma IngestOffers(setup: Setup, e: Engine, data: seq<Byte>, now: uint32)
    requires Bounded(setup, e)
    ensures Ingest(setup, e, data, now).engine.events ==
            OfferAll(e.events, Ingest(setup, e, data, now).attempted, EVENT_CAP)
  {
    var addressed := Addressed(setup, data);
    if addressed.Some? {
      OfferOne(e.events, SpeakingEvent(addressed.value.speakerId, true), EVENT_CAP);
    } else {
      OfferOne(e.events, ConnectedEvent, EVENT_CAP);
    }
  }

  // ----- the budget

  /** The events a call attempts besides first packets: one for a connect or disconnect, at
      most one for a drained frame. */
  function OwnEvents(call: Call): nat {
    if call.DoConnect? || call.DoDisconnect? || call.DoDrainTurn? then 1 else 0
  }

  function AllOwnEvents(calls: seq<Call>): nat {
    if calls == [] then 0 else AllOwnEvents(calls[..|calls| - 1]) + OwnEvents(calls[|calls| - 1])
  }

  predicate TurnsAmong(calls: seq<Call>) {
    exists c | c in calls :: c.DoDrainTurn?
  }

  lemma CallBudget(setup: Setup, e: Engine, call: Call)
    requires Sound(setup) && Bounded(setup, e) && !call.DoTick?
    ensures var t := Perform(setup, e, call);
            && |t.attempted| + SpeakingCount(e.speakers) <= SpeakingCount(t.engine.speakers) + OwnEvents(call)
            && (!call.DoDrainTurn? ==>
                  |t.attempted| + SpeakingCount(e.speakers) == SpeakingCount(t.engine.speakers) + OwnEvents(call))
  {
    if call.DoIngest? {
      IngestBudget(setup, e, call.data, call.now);
    } else {
      OtherCallsKeepSpeakers(setup, e, call);
      if call.DoDrainTurn? && e.capture != [] {
        DrainOneEvents(setup, e);
      }
    }
  }

  lemma IngestBudget(setup: Setup, e: Engine, data: seq<Byte>, now: uint32)
    requires Bounded(setup, e)
    ensures var t := Ingest(setup, e, data, now);
            |t.attempted| + SpeakingCount(e.speakers) == SpeakingCount(t.engine.speakers)
  {
    var addressed := Addressed(setup, data);
    if addressed.Some? {
      var i := addressed.value.speakerId - 1;
      SpeakingCountUpdate(e.speakers, i, Arrival(e.speakers[i], addressed.value, now));
    }
  }

  /** Between ticks the events attempted are, besides one for each connect, disconnect and
      frame drained early, exactly the first packets of the speakers that have begun. */
  lemma {:induction false} RunBudget(setup: Setup, e: Engine, calls: seq<Call>)
    requires Sound(setup) && Bounded(setup, e) && forall c | c in calls :: !c.DoTick?
    ensures var t := Run(setup, e, calls);
            && |t.attempted| + SpeakingCount(e.speakers) <= SpeakingCount(t.engine.speakers) + AllOwnEvents(calls)
            && (!TurnsAmong(calls) ==>
                  |t.attempted| + SpeakingCount(e.speakers) == SpeakingCount(t.engine.speakers) + AllOwnEvents(calls))
    decreases |calls|
  {
    if calls != [] {
      var n := |calls| - 1;
      assert calls[n] in calls;
      RunBudget(setup, e, calls[..n]);
      CallBudget(setup, Run(setup, e, calls[..n]).engine, calls[n]);
    }
  }

  lemma {:induction false} BatchesBudget(batches: seq<seq<Event>>)
    requires forall i | 0 <= i < |batches| :: |batches[i]| <= 2
    ensures |Joined(batches)| <= 2 * |batches|
    decreases |batches|
  {
    if batches != [] {
      BatchesBudget(batches[..|batches| - 1]);
    }
  }

  lemma TickBudget(setup: Setup, e: Engine, now: uint32)
    requires Sound(setup) && Bounded(setup, e)
    ensures |Tick(setup, e, now).attempted| <= |e.capture| + 2 * |e.speakers|
  {
    DrainKeepsRest(setup, e);
    TickSpeakersAt(setup, e, now);
    BatchesBudget(EventsBySpeaker(setup, e.speakers, now));
  }

  /** Any calls between ticks and then one tick attempt at most k + 3n events, for n speakers
      and k frames in the capture ring, and one more for each connect, disconnect and frame
      drained early. */
  lemma RoundBudget(setup: Setup, e: Engine, calls: seq<Call>, now: uint32)
    requires Sound(setup) && Bounded(setup, e) && forall c | c in calls :: !c.DoTick?
    ensures var before := Run(setup, e, calls);
            |before.attempted| + |Perform(setup, before.engine, DoTick(now)).attempted|
            <= |before.engine.capture| + 3 * setup.maxPlayers + AllOwnEvents(calls)
  {
    RunBudget(setup, e, calls);
    TickAndSpeakers(setup, Run(setup, e, calls).engine, now);
  }

  lemma TickAndSpeakers(setup: Setup, e: Engine, now: uint32)
    requires Sound(setup) && Bounded(setup, e)
    ensures SpeakingCount(e.speakers) + |Perform(setup, e, DoTick(now)).attempted| <= |e.capture| + 3 * setup.maxPlayers
  {
    SpeakingCountBounded(e.speakers);
    TickBudget(setup, e, now);
  }

  // ----- aliasing

  /** The samples a PCM event shows when it is looked at in a state. */
  function SamplesShown(e: Engine, ev: Event): Option<PcmFrame> {
    if ev.PcmEvent? && ev.buffer < |e.speakers| && ev.sampleCount <= |e.speakers[ev.buffer].pcm| then
      Some(e.speakers[ev.buffer].pcm[..ev.sampleCount])
    else
      None
  }

  lemma NonTicksKeepBuffers(setup: Setup, e: Engine, call: Call)
    requires Sound(setup) && Bounded(setup, e) && !call.DoTick?
    ensures var e' := Perform(setup, e, call).engine;
            |e'.speakers| == |e.speakers| && forall i | 0 <= i < |e.speakers| :: e'.speakers[i].pcm == e.speakers[i].pcm
  {
    if call.DoIngest? {
      var addressed := Addressed(setup, call.data);
      if addressed.Some? {
        IngestOfVoice(setup, e, call.data, call.now, addressed.value);
      }
    } else {
      OtherCallsKeepSpeakers(setup, e, call);
    }
  }

  lemma {:induction false} BuffersStayUntilTick(setup: Setup, e: Engine, calls: seq<Call>, ev: Event)
    requires Sound(setup) && Bounded(setup, e) && forall c | c in calls :: !c.DoTick?
    ensures SamplesShown(Run(setup, e, calls).engine, ev) == SamplesShown(e, ev)
    decreases |calls|
  {
    if calls != [] {
      var n := |calls| - 1;
      assert calls[n] in calls;
      BuffersStayUntilTick(setup, e, calls[..n], ev);
      NonTicksKeepBuffers(setup, Run(setup, e, calls[..n]).engine, calls[n]);
    }
  }

  lemma {:induction false} FromSomeBatch(batches: seq<seq<Event>>, ev: Event) returns (i: nat)
    requires ev in Joined(batches)
    ensures i < |batches| && ev in batches[i]
    decreases |batches|
  {
    var n := |batches| - 1;
    if ev in batches[n] {
      i := n;
    } else {
      i := FromSomeBatch(batches[..n], ev);
    }
  }

  lemma {:induction false} DrainHasNoPcm(setup: Setup, e: Engine)
    requires Sound(setup)
    ensures forall ev | ev in DrainCapture(setup, e).attempted :: !ev.PcmEvent?
    decreases |e.capture|
  {
    if e.capture != [] {
      DrainOneShrinks(setup, e);
      DrainHasNoPcm(setup, DrainOne(setup, e).engine);
    }
  }

  lemma OwnPcmEvent(setup: Setup, sp: Speaker, i: nat, now: uint32, ev: Event)
    requires Sound(setup) && SpeakerOk(setup, sp) && ev.PcmEvent? && ev in SpeakerEvents(setup, sp, i, now)
    ensures ev.buffer == i && !Pop(sp.jitter).1.Idle? && ev.sampleCount == |Decoded(setup, sp)|
    ensures TickSpeaker(setup, sp, now).pcm[..ev.sampleCount] == Decoded(setup, sp)
  {
  }

  lemma FreshPcmEvents(setup: Setup, e: Engine, now: uint32, ev: Event)
    requires Sound(setup) && Bounded(setup, e)
    requires ev.PcmEvent? && ev in Tick(setup, e, now).attempted
    ensures ev.buffer < |e.speakers|
    ensures SamplesShown(Tick(setup, e, now).engine, ev) == Some(Decoded(setup, e.speakers[ev.buffer]))
  {
    TickSpeakersAt(setup, e, now);
    DrainHasNoPcm(setup, e);
    var batches := EventsBySpeaker(setup, e.speakers, now);
    assert ev in Joined(batches);
    var i := FromSomeBatch(batches, ev);
    OwnPcmEvent(setup, e.speakers[i], i, now, ev);
  }

  /** The PCM events of a tick, looked at any time before the next tick and whatever else is
      called, show exactly the samples the speaker's decoder produced in that tick. */
  lemma PcmEventsShowTheirTick(setup: Setup, e: Engine, now: uint32, later: seq<Call>, ev: Event)
    requires Sound(setup) && Bounded(setup, e)
    requires ev.PcmEvent? && ev in Tick(setup, e, now).attempted
    requires forall c | c in later :: !c.DoTick?
    ensures ev.buffer < |e.speakers| && Bounded(setup, Tick(setup, e, now).engine)
    ensures SamplesShown(Run(setup, Tick(setup, e, now).engine, later).engine, ev) ==
            Some(Decoded(setup, e.speakers[ev.buffer]))
  {
    TickKeepsBounds(setup, e, now);
    FreshPcmEvents(setup, e, now, ev);
    BuffersStayUntilTick(setup, Tick(setup, e, now).engine, later, ev);
  }
}
