/** The engine's two queues over whole runs: each is the 256-bounded queue that drops the
    newest element when full, and a poll with too little room takes nothing. */
module EngineQueues {
  import opened Words
  import opened BoundedFifo
  import opened Packets
  import opened EngineModel
  import opened EngineEvents

  type Bytes = seq<Byte>

  // ----- queue operations one after another

  lemma {:induction false} RunQueueConcat<T>(q: seq<T>, a: seq<QueueOp<T>>, b: seq<QueueOp<T>>, capacity: nat)
    ensures RunQueue(q, a + b, capacity) == RunQueue(RunQueue(q, a, capacity), b, capacity)
    ensures Taken(q, a + b, capacity) == Taken(q, a, capacity) + Taken(RunQueue(q, a, capacity), b, capacity)
    decreases |a|
  {
    if a == [] {
      assert a + b == b;
    } else {
      assert (a + b)[0] == a[0] && (a + b)[1..] == a[1..] + b;
      var next := if a[0].Put? then Offer(q, a[0].x, capacity) else TakeOne(q);
      RunQueueConcat(next, a[1..], b, capacity);
    }
  }

  lemma OneOp<T>(q: seq<T>, op: QueueOp<T>, capacity: nat)
    ensures RunQueue(q, [op], capacity) == if op.Put? then Offer(q, op.x, capacity) else TakeOne(q)
    ensures Taken(q, [op], capacity) == if op.Put? then [] else q[..Min(|q|, 1)]
  {
    assert [op][1..] == [];
  }

  function Puts<T>(xs: seq<T>): seq<QueueOp<T>> {
    seq(|xs|, i requires 0 <= i < |xs| => Put(xs[i]))
  }

  lemma {:induction false} PutsOffer<T>(q: seq<T>, xs: seq<T>, capacity: nat)
    requires |q| <= capacity
    ensures RunQueue(q, Puts(xs), capacity) == OfferAll(q, xs, capacity)
    ensures Taken(q, Puts(xs), capacity) == []
    decreases |xs|
  {
    if xs != [] {
      var before, x := xs[..|xs| - 1], xs[|xs| - 1];
      assert Puts(xs) == Puts(before) + [Put(x)];
      PutsOffer(q, before, capacity);
      RunQueueConcat(q, Puts(before), [Put(x)], capacity);
      OneOp(OfferAll(q, before, capacity), Put(x), capacity);
      OfferAllStep(q, before, x, capacity);
      assert xs == before + [x];
    }
  }

  // ----- the outgoing queue

  /** The packets built for drained frames, in order: one for each numbered frame. */
  function Built(format: Format, fates: seq<Fate>): seq<Bytes> {
    if fates == [] then []
    else
      var last := fates[|fates| - 1];
      Built(format, fates[..|fates| - 1]) +
      if last.Queued? || last.DroppedFull? then [format.voice(last.voice)] else []
  }

  lemma {:induction false} BuiltConcat(format: Format, a: seq<Fate>, b: seq<Fate>)
    ensures Built(format, a + b) == Built(format, a) + Built(format, b)
  {
    if b == [] {
      assert a + b == a;
    } else {
      assert (a + b)[..|a + b| - 1] == a + b[..|b| - 1];
      BuiltConcat(format, a, b[..|b| - 1]);
    }
  }

  lemma BuiltOne(format: Format, f: Fate)
    ensures Built(format, [f]) == if f.Queued? || f.DroppedFull? then [format.voice(f.voice)] else []
  {
    assert [f][..0] == [];
  }

  /** What a call does to the outgoing queue: put every packet it builds, take one when a poll
      has the room for it. */
  function OutOps(setup: Setup, e: Engine, call: Call): seq<QueueOp<Bytes>>
    requires Sound(setup)
  {
    match call
    case DoConnect(sessionId, playerId) => [Put(setup.format.join(Join(sessionId, playerId)))]
    case DoDrainTurn => Puts(Built(setup.format, DrainTurn(setup, e).fates))
    case DoTick(_) => Puts(Built(setup.format, DrainCapture(setup, e).fates))
    case DoPollOutgoing(room) => if PollStatus(e, room) == 1 then [Take] else []
    case _ => []
  }

  lemma DrainOneOffers(setup: Setup, e: Engine)
    requires Sound(setup) && e.capture != [] && |e.out| <= OUT_CAP
    ensures var t := DrainOne(setup, e);
            && |t.fates| == 1
            && t.engine.out == (if t.fates[0].Queued? || t.fates[0].DroppedFull?
                                then Offer(e.out, setup.format.voice(t.fates[0].voice), OUT_CAP) else e.out)
  {
  }

  lemma DrainOneBuilds(setup: Setup, e: Engine)
    requires Sound(setup) && e.capture != [] && |e.out| <= OUT_CAP
    ensures DrainOne(setup, e).engine.out == OfferAll(e.out, Built(setup.format, DrainOne(setup, e).fates), OUT_CAP)
    ensures |DrainOne(setup, e).engine.out| <= OUT_CAP
  {
    DrainOneOffers(setup, e);
    var f := DrainOne(setup, e).fates[0];
    assert DrainOne(setup, e).fates == [f];
    BuiltOne(setup.format, f);
    if f.Queued? || f.DroppedFull? {
      var p := setup.format.voice(f.voice);
      OfferAllStep(e.out, [], p, OUT_CAP);
      assert [] + [p] == [p];
    }
  }

  lemma DrainTurnBuilds(setup: Setup, e: Engine)
    requires Sound(setup) && |e.out| <= OUT_CAP
    ensures DrainTurn(setup, e).engine.out == OfferAll(e.out, Built(setup.format, DrainTurn(setup, e).fates), OUT_CAP)
    ensures DrainTurn(setup, e).polled == []
  {
    if e.capture != [] {
      DrainOneBuilds(setup, e);
    }
  }

  lemma {:induction false} DrainBuilds(setup: Setup, e: Engine)
    requires Sound(setup) && |e.out| <= OUT_CAP
    ensures DrainCapture(setup, e).engine.out ==
            OfferAll(e.out, Built(setup.format, DrainCapture(setup, e).fates), OUT_CAP)
    decreases |e.capture|
  {
    if e.capture != [] {
      DrainOneShrinks(setup, e);
      DrainOneBuilds(setup, e);
      var first := DrainOne(setup, e);
      DrainBuilds(setup, first.engine);
      var later := DrainCapture(setup, first.engine).fates;
      BuiltConcat(setup.format, first.fates, later);
      OfferAllCompose(e.out, Built(setup.format, first.fates), Built(setup.format, later), OUT_CAP);
    }
  }

  lemma CallIsOutOps(setup: Setup, e: Engine, call: Call)
    requires Sound(setup) && Bounded(setup, e)
    ensures Perform(setup, e, call).engine.out == RunQueue(e.out, OutOps(setup, e, call), OUT_CAP)
    ensures Perform(setup, e, call).polled == Taken(e.out, OutOps(setup, e, call), OUT_CAP)
  {
    match call
    case DoConnect(sessionId, playerId) =>
      OneOp(e.out, Put(setup.format.join(Join(sessionId, playerId))), OUT_CAP);
    case DoDrainTurn =>
      DrainTurnBuilds(setup, e);
      PutsOffer(e.out, Built(setup.format, DrainTurn(setup, e).fates), OUT_CAP);
    case DoTick(now) =>
      DrainKeepsRest(setup, e);
      DrainBuilds(setup, e);
      PutsOffer(e.out, Built(setup.format, DrainCapture(setup, e).fates), OUT_CAP);
    case DoPollOutgoing(room) =>
      OneOp<Bytes>(e.out, Take, OUT_CAP);
    case _ =>
  }

  function RunOutOps(setup: Setup, calls: seq<Call>): seq<QueueOp<Bytes>>
    requires Sound(setup)
  {
    if calls == [] then []
    else
      var before := calls[..|calls| - 1];
      RunOutOps(setup, before) + OutOps(setup, History(setup, before).engine, calls[|calls| - 1])
  }

  /** Over any run the outgoing queue holds, and the polls returned, what the bounded queue
      holds and returns for the same operations. */
  lemma {:induction false} OutgoingIsBoundedQueue(setup: Setup, calls: seq<Call>)
    requires Sound(setup)
    ensures History(setup, calls).engine.out == RunQueue([], RunOutOps(setup, calls), OUT_CAP)
    ensures History(setup, calls).polled == Taken([], RunOutOps(setup, calls), OUT_CAP)
  {
    if calls != [] {
      var before, call := calls[..|calls| - 1], calls[|calls| - 1];
      OutgoingIsBoundedQueue(setup, before);
      var e := History(setup, before).engine;
      CallIsOutOps(setup, e, call);
      RunQueueConcat([], RunOutOps(setup, before), OutOps(setup, e, call), OUT_CAP);
    }
  }

  /** So every packet that found room comes out once, in order. */
  lemma PolledThenQueued(setup: Setup, calls: seq<Call>)
    requires Sound(setup)
    ensures History(setup, calls).polled + History(setup, calls).engine.out ==
            Admitted([], RunOutOps(setup, calls), OUT_CAP)
  {
    OutgoingIsBoundedQueue(setup, calls);
    FifoConservation([], RunOutOps(setup, calls), OUT_CAP);
  }

  // ----- the event queue

  function EventOps(setup: Setup, e: Engine, call: Call): seq<QueueOp<Event>>
    requires Sound(setup) && Bounded(setup, e)
  {
    if call.DoPollEvent? then [Take] else Puts(Perform(setup, e, call).attempted)
  }

  function RunEventOps(setup: Setup, e: Engine, calls: seq<Call>): seq<QueueOp<Event>>
    requires Sound(setup) && Bounded(setup, e)
  {
    if calls == [] then []
    else
      var before := calls[..|calls| - 1];
      RunEventOps(setup, e, before) + EventOps(setup, Run(setup, e, before).engine, calls[|calls| - 1])
  }

  lemma CallIsEventOps(setup: Setup, e: Engine, call: Call)
    requires Sound(setup) && Bounded(setup, e)
    ensures Perform(setup, e, call).engine.events == RunQueue(e.events, EventOps(setup, e, call), EVENT_CAP)
  {
    if call.DoPollEvent? {
      OneOp<Event>(e.events, Take, EVENT_CAP);
    } else {
      CallOffers(setup, e, call);
      PutsOffer(e.events, Perform(setup, e, call).attempted, EVENT_CAP);
    }
  }

  /** Over any run from any state the event queue is the bounded queue of the events attempted. */
  lemma {:induction false} EventsAreBoundedQueue(setup: Setup, e: Engine, calls: seq<Call>)
    requires Sound(setup) && Bounded(setup, e)
    ensures Run(setup, e, calls).engine.events == RunQueue(e.events, RunEventOps(setup, e, calls), EVENT_CAP)
    decreases |calls|
  {
    if calls != [] {
      var before, call := calls[..|calls| - 1], calls[|calls| - 1];
      EventsAreBoundedQueue(setup, e, before);
      var e1 := Run(setup, e, before).engine;
      CallIsEventOps(setup, e1, call);
      RunQueueConcat(e.events, RunEventOps(setup, e, before), EventOps(setup, e1, call), EVENT_CAP);
    }
  }

  function PutOf<T>(op: QueueOp<T>): seq<T> {
    if op.Put? then [op.x] else []
  }

  /** What the puts of a run put. */
  function PutBy<T>(ops: seq<QueueOp<T>>): seq<T>
    decreases |ops|
  {
    if ops == [] then [] else PutOf(ops[0]) + PutBy(ops[1..])
  }

  lemma {:induction false} PutByConcat<T>(a: seq<QueueOp<T>>, b: seq<QueueOp<T>>)
    ensures PutBy(a + b) == PutBy(a) + PutBy(b)
    decreases |a|
  {
    if a == [] {
      assert a + b == b;
    } else {
      var rest := a[1..];
      PutByConcat(rest, b);
      assert (a + b)[0] == a[0] && (a + b)[1..] == rest + b;
      assert PutOf(a[0]) + (PutBy(rest) + PutBy(b)) == PutOf(a[0]) + PutBy(rest) + PutBy(b);
    }
  }

  lemma {:induction false} PutByPuts<T>(xs: seq<T>)
    ensures PutBy(Puts(xs)) == xs
    decreases |xs|
  {
    if xs != [] {
      assert Puts(xs)[1..] == Puts(xs[1..]);
      PutByPuts(xs[1..]);
    }
  }

  /** With room for everything that is put, everything is admitted. */
  lemma {:induction false} AllAdmitted<T>(q: seq<T>, ops: seq<QueueOp<T>>, capacity: nat)
    requires |q| + |PutBy(ops)| <= capacity
    ensures Admitted(q, ops, capacity) == PutBy(ops)
    decreases |ops|
  {
    if ops != [] {
      AllAdmitted(if ops[0].Put? then Offer(q, ops[0].x, capacity) else TakeOne(q), ops[1..], capacity);
    }
  }

  lemma EventOpsPut(setup: Setup, e: Engine, call: Call)
    requires Sound(setup) && Bounded(setup, e)
    ensures PutBy(EventOps(setup, e, call)) == Perform(setup, e, call).attempted
  {
    if call.DoPollEvent? {
      var take: seq<QueueOp<Event>> := [Take];
      assert take[1..] == [] && PutBy(take) == [];
    } else {
      PutByPuts(Perform(setup, e, call).attempted);
    }
  }

  lemma {:induction false} EventsPut(setup: Setup, e: Engine, calls: seq<Call>)
    requires Sound(setup) && Bounded(setup, e)
    ensures PutBy(RunEventOps(setup, e, calls)) == Run(setup, e, calls).attempted
    decreases |calls|
  {
    if calls != [] {
      var before, call := calls[..|calls| - 1], calls[|calls| - 1];
      assert calls == before + [call];
      var e1 := Run(setup, e, before).engine;
      EventsPut(setup, e, before);
      RunLastCall(setup, e, before, call);
      EventOpsPut(setup, e1, call);
      PutByConcat(RunEventOps(setup, e, before), EventOps(setup, e1, call));
    }
  }

  /** What the event polls of a run returned, starting from an empty queue. */
  function EventsPolled(setup: Setup, e: Engine, calls: seq<Call>): seq<Event>
    requires Sound(setup) && Bounded(setup, e)
  {
    Taken([], RunEventOps(setup, e, calls), EVENT_CAP)
  }

  lemma SmallRunLosesNothing(setup: Setup, e: Engine, calls: seq<Call>)
    requires Sound(setup) && Bounded(setup, e) && e.events == []
    requires |Run(setup, e, calls).attempted| <= EVENT_CAP
    ensures EventsPolled(setup, e, calls) + Run(setup, e, calls).engine.events == Run(setup, e, calls).attempted
  {
    var ops := RunEventOps(setup, e, calls);
    EventsAreBoundedQueue(setup, e, calls);
    EventsPut(setup, e, calls);
    AllAdmitted([], ops, EVENT_CAP);
    FifoConservation([], ops, EVENT_CAP);
  }

  /** From a drained event queue, any calls and then a tick: if k + 3n events, and one for each
      connect, disconnect and frame drained early, fit the queue, then none is lost: what was
      polled and what is queued are all events attempted, in order. With 80 speakers and 16
      frames they fit. */
  lemma NoEventIsLost(setup: Setup, e: Engine, calls: seq<Call>, now: uint32)
    requires Sound(setup) && Bounded(setup, e) && e.events == [] && forall c | c in calls :: !c.DoTick?
    ensures var before := Run(setup, e, calls);
            var round := Run(setup, e, calls + [DoTick(now)]);
            && |round.attempted| <= |before.engine.capture| + 3 * setup.maxPlayers + AllOwnEvents(calls)
            && (|before.engine.capture| + 3 * setup.maxPlayers + AllOwnEvents(calls) <= 256 ==>
                  EventsPolled(setup, e, calls + [DoTick(now)]) + round.engine.events == round.attempted)
            && (setup.maxPlayers <= 80 && AllOwnEvents(calls) == 0 ==>
                  |before.engine.capture| + 3 * setup.maxPlayers + AllOwnEvents(calls) <= 256)
  {
    RoundBudget(setup, e, calls, now);
    RunLastCall(setup, e, calls, DoTick(now));
    if |Run(setup, e, calls + [DoTick(now)]).attempted| <= EVENT_CAP {
      SmallRunLosesNothing(setup, e, calls + [DoTick(now)]);
    }
  }

  // ----- polls with too little room

  predicate LeavesHead(head: Bytes, call: Call) {
    call.DoPollOutgoing? ==> call.room < |head|
  }

  lemma CallLeavesHead(setup: Setup, e: Engine, call: Call)
    requires Sound(setup) && Bounded(setup, e) && e.out != [] && LeavesHead(e.out[0], call)
    ensures e.out <= Perform(setup, e, call).engine.out && Perform(setup, e, call).polled == []
  {
    if call.DoTick? {
      DrainKeepsRest(setup, e);
      DrainBuilds(setup, e);
    } else if call.DoDrainTurn? {
      DrainTurnBuilds(setup, e);
    }
  }

  /** Whatever else is called, polls with less room than the first packet needs change nothing
      about it: it is what the next poll with enough room returns. */
  lemma {:induction false} SmallPollsKeepPacket(setup: Setup, e: Engine, calls: seq<Call>, room: nat)
    requires Sound(setup) && Bounded(setup, e) && e.out != []
    requires forall c | c in calls :: LeavesHead(e.out[0], c)
    ensures var t := Run(setup, e, calls);
            && e.out <= t.engine.out && t.polled == []
            && PollOutgoing(t.engine, room) == if room < |e.out[0]| then Quiet(t.engine)
                                               else Quiet(t.engine.(out := t.engine.out[1..])).(polled := [e.out[0]])
    decreases |calls|
  {
    if calls != [] {
      var before, call := calls[..|calls| - 1], calls[|calls| - 1];
      SmallPollsKeepPacket(setup, e, before, room);
      assert call in calls;
      CallLeavesHead(setup, Run(setup, e, before).engine, call);
    }
  }
}
