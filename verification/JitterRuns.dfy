/** Runs of a jitter buffer, with the unwrapped position of the play cursor tracked beside
    the 16-bit one, and bounded-skew delivery: what a run owes to each packet, and for
    exactly which arrival windows it does so. */
module JitterRuns {
  import opened Words
  import opened JitterModel

  /** `Arrive` carries the unwrapped sequence number; the buffer sees it modulo 2^16. */
  datatype Op = Arrive(number: nat, payload: seq<Byte>) | Play

  /** A buffer and the unwrapped number its cursor stands for. */
  datatype Tracked = Tracked(jb: JitterState, n: nat)

  ghost predicate InStep(t: Tracked) {
    Placed(t.jb) && (t.jb.started ==> t.jb.next == t.n % TWO16)
  }

  function Start(): Tracked {
    Tracked(Initial(), 0)
  }

  function After(t: Tracked, op: Op): Tracked {
    match op
    case Arrive(number, payload) =>
      Tracked(Push(t.jb, number % TWO16, payload),
              if !t.jb.started && Accepted(payload) then number else t.n)
    case Play =>
      Tracked(Pop(t.jb).0, if Pop(t.jb).1.Idle? then t.n else t.n + 1)
  }

  function Run(t: Tracked, ops: seq<Op>): Tracked
    decreases |ops|
  {
    if ops == [] then t else Run(After(t, ops[0]), ops[1..])
  }

  /** The results of the pops of a run, idle ones included. */
  function Results(t: Tracked, ops: seq<Op>): seq<PopResult>
    decreases |ops|
  {
    if ops == [] then []
    else (if ops[0].Play? then [Pop(t.jb).1] else []) + Results(After(t, ops[0]), ops[1..])
  }

  function Plays(ops: seq<Op>): nat {
    if ops == [] then 0 else (if ops[0].Play? then 1 else 0) + Plays(ops[1..])
  }

  lemma StepKeepsInStep(t: Tracked, op: Op)
    requires InStep(t)
    ensures InStep(After(t, op))
    ensures t.jb.started ==> After(t, op).jb.started
  {
    match op
    case Arrive(number, payload) => OperationsKeepPlacement(t.jb, number % TWO16, payload);
    case Play =>
      OperationsKeepPlacement(t.jb, 0, []);
      AddThenWrap(t.n, 1);
  }

  lemma {:induction false} RunKeepsInStep(t: Tracked, ops: seq<Op>)
    requires InStep(t)
    ensures InStep(Run(t, ops))
    decreases |ops|
  {
    if ops != [] {
      StepKeepsInStep(t, ops[0]);
      RunKeepsInStep(After(t, ops[0]), ops[1..]);
    }
  }

  lemma {:induction false} RunConcat(t: Tracked, a: seq<Op>, b: seq<Op>)
    ensures Run(t, a + b) == Run(Run(t, a), b)
    ensures Results(t, a + b) == Results(t, a) + Results(Run(t, a), b)
    decreases |a|
  {
    if a == [] {
      assert a + b == b;
    } else {
      assert (a + b)[1..] == a[1..] + b;
      RunConcat(After(t, a[0]), a[1..], b);
    }
  }

  // ----- bounded skew

  /** Every accepted arrival of the run lies between `late` numbers behind the cursor and
      `early` numbers ahead of it. The first one sets the cursor and is unconstrained. */
  ghost predicate WithinSkew(t: Tracked, ops: seq<Op>, late: nat, early: nat)
    decreases |ops|
  {
    ops != [] ==>
      && (ops[0].Arrive? && Accepted(ops[0].payload) && t.jb.started ==>
            t.n - late <= ops[0].number <= t.n + early)
      && WithinSkew(After(t, ops[0]), ops[1..], late, early)
  }

  /** The payload last accepted for `u`, starting from what was known before. */
  function LastArrived(ops: seq<Op>, u: nat, known: Option<seq<Byte>>): Option<seq<Byte>> {
    if ops == [] then known
    else if ops[0].Arrive? && ops[0].number == u && Accepted(ops[0].payload) then
      LastArrived(ops[1..], u, Some(ops[0].payload))
    else
      LastArrived(ops[1..], u, known)
  }

  /** A number is played as its payload, or as one concealment when none is known. */
  function Verdict(known: Option<seq<Byte>>): PopResult {
    match known
    case Some(payload) => Frame(payload)
    case None => Conceal
  }

  function OnePayload(op: Op, u: nat, p: seq<Byte>): seq<Byte> {
    if op.Arrive? && op.number == u && Accepted(op.payload) then op.payload else p
  }

  ghost predicate Buffered(jb: JitterState, u: nat, p: seq<Byte>) {
    jb.table[u % CAP] == Some(Packet(u % TWO16, p))
  }

  /** While the cursor has not passed `u`, one step keeps it buffered and moves the cursor
      on every pop. */
  lemma StepTowards(t: Tracked, op: Op, u: nat, p: seq<Byte>, late: nat, early: nat)
    requires InStep(t) && t.jb.started && Buffered(t.jb, u, p)
    requires late + early < CAP && t.n <= u <= t.n + early
    requires op.Arrive? && Accepted(op.payload) ==> t.n - late <= op.number <= t.n + early
    requires op.Play? ==> t.n < u
    ensures var t' := After(t, op);
            && Buffered(t'.jb, u, OnePayload(op, u, p))
            && t'.n == t.n + (if op.Play? then 1 else 0)
            && t'.jb.started
    ensures op.Play? ==> !Pop(t.jb).1.Idle?
  {
    var t' := After(t, op);
    match op
    case Arrive(v, payload) =>
      if Accepted(payload) {
        SlotSurvivesWrap(v);
        if v % CAP == u % CAP {
          SameSlotNear(u, v);
        }
      }
    case Play =>
      FutureUnwrapped(t.jb, t.n);
      SlotSurvivesWrap(t.n);
      assert Holds(t.jb, u);
      if t.n % CAP == u % CAP {
        SameSlotNear(u, t.n);
      }
  }

  /** From any state that buffers `u` within the window: the pop that reaches `u` returns
      the bytes last accepted for it, and no pop before it is idle. */
  lemma {:induction false} ReachesBuffered(t: Tracked, ops: seq<Op>, u: nat, p: seq<Byte>, late: nat, early: nat)
    requires InStep(t) && t.jb.started && Buffered(t.jb, u, p)
    requires late + early < CAP && t.n <= u <= t.n + early
    requires WithinSkew(t, ops, late, early) && Plays(ops) == u - t.n
    ensures Run(t, ops).n == u
    ensures Pop(Run(t, ops).jb).1 == Verdict(LastArrived(ops, u, Some(p)))
    ensures Idle !in Results(t, ops)
    decreases |ops|
  {
    if ops == [] {
      FutureUnwrapped(t.jb, t.n);
      SlotSurvivesWrap(t.n);
    } else {
      var op := ops[0];
      StepTowards(t, op, u, p, late, early);
      StepKeepsInStep(t, op);
      ReachesBuffered(After(t, op), ops[1..], u, OnePayload(op, u, p), late, early);
    }
  }

  /** A whole run from an empty buffer: `before`, the arrival of `u`, then `after` with just
      the pops that bring the cursor to `u`. The next pop is the one that reaches `u`. */
  ghost predicate Delivers(before: seq<Op>, u: nat, p: seq<Byte>, after: seq<Op>) {
    Pop(Run(Start(), before + [Arrive(u, p)] + after).jb).1 == Verdict(LastArrived(after, u, Some(p)))
  }

  ghost predicate DeliveryCase(before: seq<Op>, u: nat, p: seq<Byte>, after: seq<Op>, late: nat, early: nat) {
    var arrived := Run(Start(), before + [Arrive(u, p)]);
    && Accepted(p)
    && WithinSkew(Start(), before + [Arrive(u, p)] + after, late, early)
    && arrived.n <= u
    && Plays(after) == u - arrived.n
  }

  lemma {:induction false} WithinSkewConcat(t: Tracked, a: seq<Op>, b: seq<Op>, late: nat, early: nat)
    ensures WithinSkew(t, a + b, late, early) <==>
            WithinSkew(t, a, late, early) && WithinSkew(Run(t, a), b, late, early)
    decreases |a|
  {
    if a == [] {
      assert a + b == b;
    } else {
      assert (a + b)[1..] == a[1..] + b;
      WithinSkewConcat(After(t, a[0]), a[1..], b, late, early);
    }
  }

  /** Bounded-skew delivery. If every accepted push of a run lies within [next-late, next+early]
      with late + early <= 127, then a packet pushed at or ahead of the cursor is returned,
      with the bytes last pushed for it, by the pop that reaches it: at most early+1 pops
      later, none of them idle. */
  lemma BoundedSkewDelivery(before: seq<Op>, u: nat, p: seq<Byte>, after: seq<Op>, late: nat, early: nat)
    requires late + early <= 127
    requires DeliveryCase(before, u, p, after, late, early)
    ensures Delivers(before, u, p, after)
    ensures Plays(after) + 1 <= early + 1
    ensures Idle !in Results(Run(Start(), before + [Arrive(u, p)]), after)
  {
    var pushed := before + [Arrive(u, p)];
    var t0 := Run(Start(), before);
    var t := Run(Start(), pushed);
    RunConcat(Start(), before, [Arrive(u, p)]);
    assert t == After(t0, Arrive(u, p)) by {
      assert Run(t0, [Arrive(u, p)]) == Run(After(t0, Arrive(u, p)), []);
    }
    WithinSkewConcat(Start(), pushed, after, late, early);
    WithinSkewConcat(Start(), before, [Arrive(u, p)], late, early);
    RunKeepsInStep(Start(), pushed);
    RunConcat(Start(), pushed, after);
    SlotSurvivesWrap(u);
    ReachesBuffered(t, after, u, p, late, early);
  }

  // ----- the window bound is exact

  function Repeat(k: nat): seq<Op> {
    if k == 0 then [] else [Play] + Repeat(k - 1)
  }

  lemma {:induction false} RepeatedIdle(t: Tracked, k: nat, u: nat, p: seq<Byte>, late: nat, early: nat)
    requires Pop(t.jb).1.Idle?
    ensures Run(t, Repeat(k)) == t
    ensures Plays(Repeat(k)) == k
    ensures LastArrived(Repeat(k), u, Some(p)) == Some(p)
    ensures WithinSkew(t, Repeat(k), late, early)
  {
    if k > 0 {
      RepeatedIdle(t, k - 1, u, p, late, early);
      assert Repeat(k)[1..] == Repeat(k - 1);
      assert After(t, Play) == t;
    }
  }

  /** With a window of 128 the first packet can be evicted by the number 128 away. */
  lemma EvictedAtOnce(late: nat, early: nat, p: seq<Byte>)
    requires Accepted(p) && (late >= CAP || early >= CAP)
    ensures exists before, u, after :: DeliveryCase(before, u, p, after, late, early) && !Delivers(before, u, p, after)
  {
    var evictor: nat := if late >= CAP then 72 else 328;
    var t := After(Start(), Arrive(200, p));
    var end := After(t, Arrive(evictor, p));
    assert Run(Start(), [] + [Arrive(200, p)]) == Run(t, []);
    assert WithinSkew(end, [], late, early);
    assert WithinSkew(t, [Arrive(evictor, p)], late, early);
    assert ([] + [Arrive(200, p)] + [Arrive(evictor, p)])[1..] == [Arrive(evictor, p)];
    assert Run(t, [Arrive(evictor, p)]) == Run(end, []);
    assert Run(Start(), [] + [Arrive(200, p)] + [Arrive(evictor, p)]) == end;
    assert end.jb.table[200 % CAP].value.seqNo != 200;
    assert DeliveryCase([], 200, p, [Arrive(evictor, p)], late, early);
    assert !Delivers([], 200, p, [Arrive(evictor, p)]);
  }

  /** The state that holds the packet 200 to be played next, and the packet 200+e. */
  function TwoBuffered(e: nat, p: seq<Byte>): Tracked {
    After(After(Start(), Arrive(200, p)), Arrive(200 + e, p))
  }

  lemma EvictedState(e: nat, p: seq<Byte>)
    requires Accepted(p) && 1 <= e < CAP
    ensures After(TwoBuffered(e, p), Arrive(72 + e, p)).jb ==
            JitterState(Empty()[72 := Some(Packet(200, p))][(72 + e) % CAP := Some(Packet(72 + e, p))], 200, true)
    ensures TwoBuffered(e, p).jb.started && TwoBuffered(e, p).n == 200
  {
    assert (200 + e) % CAP == (72 + e) % CAP;
    var one := Empty()[72 := Some(Packet(200, p))];
    assert After(Start(), Arrive(200, p)).jb == JitterState(one, 200, true);
    assert TwoBuffered(e, p).jb == JitterState(one[(72 + e) % CAP := Some(Packet(200 + e, p))], 200, true);
  }

  lemma PlaysFirst(jb: JitterState, stale: nat, p: seq<Byte>)
    requires 73 <= stale < 200
    requires jb == JitterState(Empty()[72 := Some(Packet(200, p))][stale % CAP := Some(Packet(stale, p))], 200, true)
    ensures Pop(jb) == (JitterState(Empty()[stale % CAP := Some(Packet(stale, p))], 201, true), Frame(p))
  {
    assert stale % CAP != 72;
    assert Holds(jb, 200);
    assert jb.table[72 := None] == Empty()[stale % CAP := Some(Packet(stale, p))];
  }

  /** A packet 128-e late evicts 200+e; once 200 has played, the stale slot leaves the buffer idle. */
  lemma EvictedRun(e: nat, p: seq<Byte>, late: nat, early: nat)
    requires Accepted(p) && 1 <= e <= early && e < CAP && CAP - e <= late
    ensures var t, after := TwoBuffered(e, p), [Arrive(72 + e, p)] + Repeat(e);
            && Plays(after) == e
            && WithinSkew(t, after, late, early)
            && Pop(Run(t, after).jb).1 == Idle
  {
    var t, stale: nat := TwoBuffered(e, p), 72 + e;
    var t1 := After(t, Arrive(stale, p));
    var t2 := After(t1, Play);
    EvictedState(e, p);
    PlaysFirst(t1.jb, stale, p);
    StaleIsIdle(t2.jb, stale, p);
    RepeatedIdle(t2, e - 1, 0, p, late, early);
    assert Repeat(e)[1..] == Repeat(e - 1);
    assert Run(t1, Repeat(e)) == t2 && Plays(Repeat(e)) == e && WithinSkew(t1, Repeat(e), late, early);
    assert ([Arrive(stale, p)] + Repeat(e))[1..] == Repeat(e);
  }

  lemma EvictedAhead(late: nat, early: nat, p: seq<Byte>)
    requires Accepted(p) && early < CAP <= late + early && late < CAP
    ensures exists before, u, after :: DeliveryCase(before, u, p, after, late, early) && !Delivers(before, u, p, after)
  {
    var u: nat := 200 + early;
    var before, after := [Arrive(200, p)], [Arrive(72 + early, p)] + Repeat(early);
    var t0, t := After(Start(), Arrive(200, p)), TwoBuffered(early, p);
    EvictedRun(early, p, late, early);
    assert (before + [Arrive(u, p)])[1..] == [Arrive(u, p)];
    assert Run(t0, [Arrive(u, p)]) == Run(t, []);
    assert Run(Start(), before + [Arrive(u, p)]) == t;
    assert WithinSkew(t, [], late, early);
    assert WithinSkew(t0, [Arrive(u, p)], late, early);
    WithinSkewConcat(Start(), before + [Arrive(u, p)], after, late, early);
    RunConcat(Start(), before + [Arrive(u, p)], after);
    assert DeliveryCase(before, u, p, after, late, early) && !Delivers(before, u, p, after);
  }

  lemma StaleIsIdle(jb: JitterState, stale: nat, p: seq<Byte>)
    requires 73 <= stale < 200
    requires jb == JitterState(Empty()[stale % CAP := Some(Packet(stale, p))], 201, true)
    ensures Pop(jb).1 == Idle
  {
    FutureUnwrapped(jb, 201);
    forall u: nat | Holds(jb, u)
      ensures u < 201 || u > 201 + CAP
    {
      assert u % CAP == stale % CAP && u % TWO16 == stale;
      if u >= 201 {
        assert u >= TWO16;
      }
    }
  }

  /** The exact condition: every delivery case delivers if and only if the window of
      arrivals holds at most 128 numbers. */
  lemma SkewBoundExact(late: nat, early: nat)
    ensures (forall before, u, p, after | DeliveryCase(before, u, p, after, late, early) ::
               Delivers(before, u, p, after))
            <==> late + early <= 127
  {
    if late + early <= 127 {
      forall before, u, p, after | DeliveryCase(before, u, p, after, late, early)
        ensures Delivers(before, u, p, after)
      {
        BoundedSkewDelivery(before, u, p, after, late, early);
      }
    } else {
      var p: seq<Byte> := [0];
      if late >= CAP || early >= CAP {
        EvictedAtOnce(late, early, p);
      } else {
        EvictedAhead(late, early, p);
      }
      var before, u, after :| DeliveryCase(before, u, p, after, late, early) && !Delivers(before, u, p, after);
    }
  }
}
