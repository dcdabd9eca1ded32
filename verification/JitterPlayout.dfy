/** When no packet is late, the 128-slot table with 16-bit numbers is exactly a map from
    unwrapped numbers to payloads, and a whole run has a closed form: number by number, the
    last payload that arrived for it or one concealment. */
module JitterPlayout {
  import opened Words
  import opened JitterModel
  import opened JitterRuns
  import opened JitterDrain

  /** The abstract playout queue: the next number to play and the packets waiting. */
  datatype Playout = Playout(n: nat, pending: map<nat, seq<Byte>>)

  ghost predicate InWindow(q: Playout) {
    forall u | u in q.pending :: q.n <= u < q.n + CAP && Accepted(q.pending[u])
  }

  /** The one number of the window n .. n+127 that belongs to a slot. */
  function WindowNumber(n: nat, slot: nat): nat {
    n + (slot - n) % CAP
  }

  lemma WindowNumberUnique(n: nat, u: nat)
    requires n <= u < n + CAP
    ensures WindowNumber(n, u % CAP) == u
  {
    var d := (u % CAP - n) % CAP;
    assert u % CAP - n == CAP * ((u % CAP - n) / CAP) + d;
    var k := (u % CAP - n) / CAP;
    assert u == CAP * (u / CAP) + u % CAP;
    assert u - n - d == CAP * (u / CAP + k);
    assert -CAP < u - n - d < CAP;
  }

  lemma WindowNumberSlot(n: nat, slot: nat)
    requires slot < CAP
    ensures WindowNumber(n, slot) % CAP == slot
  {
    var d := (slot - n) % CAP;
    Remainder128(n + d, -((slot - n) / CAP), slot);
  }

  function SlotOf(q: Playout, slot: nat): Option<Packet> {
    var u := WindowNumber(q.n, slot);
    if u in q.pending then Some(Packet(u % TWO16, q.pending[u])) else None
  }

  function Concrete(q: Playout): JitterState {
    JitterState(seq(CAP, slot requires 0 <= slot < CAP => SlotOf(q, slot)), q.n % TWO16, true)
  }

  function Tracking(q: Playout): Tracked {
    Tracked(Concrete(q), q.n)
  }

  function PlayOne(q: Playout): (Playout, PopResult) {
    if q.n in q.pending then (Playout(q.n + 1, q.pending - {q.n}), Frame(q.pending[q.n]))
    else if q.pending != map[] then (q.(n := q.n + 1), Conceal)
    else (q, Idle)
  }

  function AfterOp(q: Playout, op: Op): Playout {
    match op
    case Arrive(number, payload) =>
      if Accepted(payload) then q.(pending := q.pending[number := payload]) else q
    case Play => PlayOne(q).0
  }

  lemma ConcreteHolds(q: Playout, u: nat)
    requires InWindow(q) && q.n <= u < q.n + CAP
    ensures Holds(Concrete(q), u) <==> u in q.pending
    ensures Concrete(q).table[u % CAP] == if u in q.pending then Some(Packet(u % TWO16, q.pending[u])) else None
  {
    WindowNumberUnique(q.n, u);
  }

  lemma ConcretePlaced(q: Playout)
    requires InWindow(q)
    ensures InStep(Tracking(q))
  {
    forall slot | 0 <= slot < CAP && Concrete(q).table[slot].Some?
      ensures Concrete(q).table[slot].value.seqNo % CAP == slot
    {
      WindowNumberSlot(q.n, slot);
      SlotSurvivesWrap(WindowNumber(q.n, slot));
    }
  }

  lemma ArriveRefines(q: Playout, u: nat, payload: seq<Byte>)
    requires InWindow(q) && Accepted(payload) && q.n <= u < q.n + CAP
    ensures InWindow(AfterOp(q, Arrive(u, payload)))
    ensures After(Tracking(q), Arrive(u, payload)) == Tracking(AfterOp(q, Arrive(u, payload)))
  {
    var q' := AfterOp(q, Arrive(u, payload));
    var pushed := Push(Concrete(q), u % TWO16, payload);
    SlotSurvivesWrap(u);
    WindowNumberUnique(q.n, u);
    forall slot | 0 <= slot < CAP
      ensures pushed.table[slot] == SlotOf(q', slot)
    {
      WindowNumberSlot(q.n, slot);
    }
    assert pushed.table == Concrete(q').table;
  }

  /** Moving the window by one changes only the slot it leaves. */
  lemma WindowMoves(n: nat, slot: nat)
    requires slot < CAP
    ensures WindowNumber(n + 1, slot) == if slot == n % CAP then n + CAP else WindowNumber(n, slot)
  {
    WindowNumberSlot(n, slot);
    WindowNumberSlot(n + 1, slot);
    if slot == n % CAP {
      Remainder128(n + CAP, n / CAP + 1, slot);
      WindowNumberUnique(n + 1, n + CAP);
    } else {
      assert WindowNumber(n, slot) != n;
      WindowNumberUnique(n + 1, WindowNumber(n, slot));
    }
  }

  lemma LookaheadRefines(q: Playout)
    requires InWindow(q) && q.n !in q.pending
    ensures HasFuture(Concrete(q)) <==> q.pending != map[]
  {
    var jb := Concrete(q);
    FutureUnwrapped(jb, q.n);
    if u :| u in q.pending {
      ConcreteHolds(q, u);
      assert HasFuture(jb);
    } else if HasFuture(jb) {
      var u: nat :| q.n < u < q.n + CAP && Holds(jb, u);
      ConcreteHolds(q, u);
    }
  }

  lemma CursorMoves(q: Playout)
    requires InWindow(q)
    ensures Concrete(Playout(q.n + 1, q.pending - {q.n})).table == Concrete(q).table[q.n % CAP := None]
  {
    var q' := Playout(q.n + 1, q.pending - {q.n});
    forall slot | 0 <= slot < CAP
      ensures SlotOf(q', slot) == if slot == q.n % CAP then None else SlotOf(q, slot)
    {
      WindowMoves(q.n, slot);
      WindowNumberSlot(q.n, slot);
    }
  }

  lemma PlayRefines(q: Playout)
    requires InWindow(q)
    ensures InWindow(PlayOne(q).0)
    ensures Pop(Concrete(q)) == (Concrete(PlayOne(q).0), PlayOne(q).1)
  {
    var jb := Concrete(q);
    HoldsUnwrapped(jb, q.n);
    SlotSurvivesWrap(q.n);
    ConcreteHolds(q, q.n);
    AddThenWrap(q.n, 1);
    CursorMoves(q);
    if q.n !in q.pending {
      LookaheadRefines(q);
      assert q.pending - {q.n} == q.pending;
      assert jb.table[q.n % CAP := None] == jb.table;
    }
  }

  lemma StepRefines(q: Playout, ops: seq<Op>)
    requires ops != [] && InWindow(q) && WithinSkew(Tracking(q), ops, 0, CAP - 1)
    ensures InWindow(AfterOp(q, ops[0]))
    ensures After(Tracking(q), ops[0]) == Tracking(AfterOp(q, ops[0]))
    ensures WithinSkew(Tracking(AfterOp(q, ops[0])), ops[1..], 0, CAP - 1)
    ensures ops[0].Play? ==> Pop(Concrete(q)).1 == PlayOne(q).1
  {
    match ops[0]
    case Arrive(number, payload) =>
      if Accepted(payload) {
        ArriveRefines(q, number, payload);
      }
    case Play => PlayRefines(q);
  }

  /** Exact refinement: along any run whose accepted arrivals are never late nor more than
      127 early, the buffer is the concrete form of the playout queue, and a pop is idle
      exactly when the table is empty. */
  lemma {:induction false} RunRefines(q: Playout, ops: seq<Op>)
    requires InWindow(q) && WithinSkew(Tracking(q), ops, 0, CAP - 1)
    ensures InWindow(RunPlayout(q, ops))
    ensures Run(Tracking(q), ops) == Tracking(RunPlayout(q, ops))
    ensures Results(Tracking(q), ops) == PlayoutResults(q, ops)
    ensures var jb := Run(Tracking(q), ops).jb;
            Pop(jb).1.Idle? <==> jb.table == Empty()
    decreases |ops|
  {
    if ops == [] {
      PlayRefines(q);
      if u :| u in q.pending {
        ConcreteHolds(q, u);
      } else {
        assert Concrete(q).table == Empty();
      }
    } else {
      StepRefines(q, ops);
      RunRefines(AfterOp(q, ops[0]), ops[1..]);
    }
  }

  function RunPlayout(q: Playout, ops: seq<Op>): Playout
    decreases |ops|
  {
    if ops == [] then q else RunPlayout(AfterOp(q, ops[0]), ops[1..])
  }

  function PlayoutResults(q: Playout, ops: seq<Op>): seq<PopResult>
    decreases |ops|
  {
    if ops == [] then []
    else (if ops[0].Play? then [PlayOne(q).1] else []) + PlayoutResults(AfterOp(q, ops[0]), ops[1..])
  }

  // ----- the closed form of a run

  function Lookup(m: map<nat, seq<Byte>>, u: nat): Option<seq<Byte>> {
    if u in m then Some(m[u]) else None
  }

  /** What the run knows about `u` in the end: the packet waiting at its start, or a later one. */
  function Owed(q: Playout, ops: seq<Op>, u: nat): Option<seq<Byte>> {
    LastArrived(ops, u, Lookup(q.pending, u))
  }

  /** The pops of a run that returned 1. */
  function Played(results: seq<PopResult>): seq<PopResult> {
    if results == [] then []
    else (if results[0].Idle? then [] else [results[0]]) + Played(results[1..])
  }

  lemma {:induction false} NothingArrivesForThePast(q: Playout, ops: seq<Op>, u: nat, known: Option<seq<Byte>>)
    requires InWindow(q) && WithinSkew(Tracking(q), ops, 0, CAP - 1) && u < q.n
    ensures LastArrived(ops, u, known) == known
    decreases |ops|
  {
    if ops != [] {
      StepRefines(q, ops);
      var q' := AfterOp(q, ops[0]);
      NothingArrivesForThePast(q', ops[1..], u, known);
    }
  }

  /** Every number the cursor passed was played once, in order, as the last payload that
      arrived for it or as one concealment; every other packet that arrived is waiting. */
  ghost predicate PlayedInOrder(q: Playout, ops: seq<Op>, end: Playout, played: seq<PopResult>) {
    && end.n == q.n + |played|
    && (forall k | 0 <= k < |played| ::
          played[k] == Verdict(Owed(q, ops, q.n + k)))
    && (forall u | u >= end.n ::
          Lookup(end.pending, u) == Owed(q, ops, u))
  }

  lemma OwedAfterStep(q: Playout, op: Op, rest: seq<Op>, u: nat)
    requires u >= AfterOp(q, op).n
    ensures Owed(q, [op] + rest, u) == Owed(AfterOp(q, op), rest, u)
  {
    assert ([op] + rest)[1..] == rest;
  }

  lemma OwedAtCursor(q: Playout, rest: seq<Op>)
    requires InWindow(q) && WithinSkew(Tracking(PlayOne(q).0), rest, 0, CAP - 1)
    requires !PlayOne(q).1.Idle?
    ensures Verdict(Owed(q, [Play] + rest, q.n)) == PlayOne(q).1
  {
    assert ([Play] + rest)[1..] == rest;
    PlayRefines(q);
    NothingArrivesForThePast(PlayOne(q).0, rest, q.n, Lookup(q.pending, q.n));
  }

  lemma QuietStepExtends(q: Playout, op: Op, rest: seq<Op>, end: Playout, played: seq<PopResult>)
    requires AfterOp(q, op).n == q.n && PlayedInOrder(AfterOp(q, op), rest, end, played)
    ensures PlayedInOrder(q, [op] + rest, end, played)
  {
    forall u: nat | u >= q.n
      ensures Owed(q, [op] + rest, u) == Owed(AfterOp(q, op), rest, u)
    {
      OwedAfterStep(q, op, rest, u);
    }
  }

  lemma PlayExtends(q: Playout, rest: seq<Op>, end: Playout, played: seq<PopResult>)
    requires InWindow(q) && WithinSkew(Tracking(PlayOne(q).0), rest, 0, CAP - 1)
    requires !PlayOne(q).1.Idle? && PlayedInOrder(PlayOne(q).0, rest, end, played)
    ensures PlayedInOrder(q, [Play] + rest, end, [PlayOne(q).1] + played)
  {
    var (q', r) := PlayOne(q);
    OwedAtCursor(q, rest);
    forall u: nat | u >= q'.n
      ensures Owed(q, [Play] + rest, u) == Owed(q', rest, u)
    {
      OwedAfterStep(q, Play, rest, u);
    }
    forall k | 0 <= k < 1 + |played|
      ensures ([r] + played)[k] == Verdict(Owed(q, [Play] + rest, q.n + k))
    {
      if k > 0 {
        assert played[k - 1] == Verdict(Owed(q', rest, q'.n + (k - 1)));
      }
    }
  }

  lemma {:induction false} RunPlaysInOrder(q: Playout, ops: seq<Op>)
    requires InWindow(q) && WithinSkew(Tracking(q), ops, 0, CAP - 1)
    ensures PlayedInOrder(q, ops, RunPlayout(q, ops), Played(Results(Tracking(q), ops)))
    decreases |ops|
  {
    if ops != [] {
      var op, rest := ops[0], ops[1..];
      var q' := AfterOp(q, op);
      assert ops == [op] + rest;
      StepRefines(q, ops);
      RunPlaysInOrder(q', rest);
      var later := Results(Tracking(q'), rest);
      if op.Play? {
        assert ([PlayOne(q).1] + later)[1..] == later;
      } else {
        assert [] + later == later;
      }
      if op.Play? && !PlayOne(q).1.Idle? {
        PlayExtends(q, rest, RunPlayout(q', rest), Played(later));
      } else {
        QuietStepExtends(q, op, rest, RunPlayout(q', rest), Played(later));
        assert [] + Played(later) == Played(later);
      }
    }
  }

  function Waiting(u: nat, known: Option<seq<Byte>>): Option<Packet> {
    match known
    case Some(payload) => Some(Packet(u % TWO16, payload))
    case None => None
  }

  /** Counting from `first`, and never past the furthest arrival: each pop that returned 1
      played the next number, as the last payload that arrived for it or one concealment, and
      the slots of the window hold just the packets that arrived and wait. */
  ghost predicate FedInOrder(arrivals: seq<Op>, first: nat, end: Tracked, played: seq<PopResult>) {
    && end.n == first + |played|
    && (played != [] ==> exists u: nat :: LastArrived(arrivals, u, None).Some? && end.n <= u + 1)
    && (forall k | 0 <= k < |played| :: played[k] == Verdict(LastArrived(arrivals, first + k, None)))
    && (forall u | end.n <= u < end.n + CAP ::
          end.jb.table[u % CAP] == Waiting(u, LastArrived(arrivals, u, None)))
  }

  lemma ConcreteFedInOrder(q: Playout, ops: seq<Op>, arrivals: seq<Op>, end: Playout, played: seq<PopResult>)
    requires InWindow(end) && PlayedInOrder(q, ops, end, played) && BehindArrivals(q, ops, end.n)
    requires forall u: nat :: Owed(q, ops, u) == LastArrived(arrivals, u, None)
    ensures FedInOrder(arrivals, q.n, Tracking(end), played)
  {
    if played != [] {
      var u: nat :| Owed(q, ops, u).Some? && end.n <= u + 1;
      assert LastArrived(arrivals, u, None).Some?;
    }
    forall u | end.n <= u < end.n + CAP
      ensures Concrete(end).table[u % CAP] == Waiting(u, LastArrived(arrivals, u, None))
    {
      ConcreteHolds(end, u);
      assert Lookup(end.pending, u) == Owed(q, ops, u);
    }
  }

  lemma {:induction false} KnownStaysKnown(ops: seq<Op>, u: nat, known: Option<seq<Byte>>)
    requires known.Some?
    ensures LastArrived(ops, u, known).Some?
  {
    if ops != [] {
      if ops[0].Arrive? && ops[0].number == u && Accepted(ops[0].payload) {
        KnownStaysKnown(ops[1..], u, Some(ops[0].payload));
      } else {
        KnownStaysKnown(ops[1..], u, known);
      }
    }
  }

  /** The cursor never gets past the packets: it stops behind the furthest arrival. */
  ghost predicate BehindArrivals(q: Playout, ops: seq<Op>, n: nat) {
    n > q.n ==> exists u: nat :: Owed(q, ops, u).Some? && n <= u + 1
  }

  lemma {:induction false} CursorStaysBehind(q: Playout, ops: seq<Op>)
    requires InWindow(q) && WithinSkew(Tracking(q), ops, 0, CAP - 1)
    ensures BehindArrivals(q, ops, RunPlayout(q, ops).n) && RunPlayout(q, ops).n >= q.n
    decreases |ops|
  {
    if ops != [] {
      var op, rest := ops[0], ops[1..];
      var q' := AfterOp(q, op);
      var n := RunPlayout(q, ops).n;
      assert ops == [op] + rest;
      StepRefines(q, ops);
      CursorStaysBehind(q', rest);
      if n > q'.n {
        var u: nat :| Owed(q', rest, u).Some? && n <= u + 1;
        OwedAfterStep(q, op, rest, u);
        assert Owed(q, ops, u).Some?;
      } else if n > q.n {
        OwedAtCursor(q, rest);
        if q.n !in q.pending {
          var u :| u in q.pending;
          KnownStaysKnown(ops, u, Lookup(q.pending, u));
          assert Owed(q, ops, u).Some?;
        } else {
          KnownStaysKnown(ops, q.n, Lookup(q.pending, q.n));
          assert Owed(q, ops, q.n).Some?;
        }
      }
    }
  }

  /** The playout theorem, from an empty buffer: the first accepted arrival sets the cursor;
      if from then on nothing is late, the decoder is fed number after number from there. */
  lemma PlayoutTheorem(first: nat, payload: seq<Byte>, ops: seq<Op>)
    requires Accepted(payload)
    requires WithinSkew(Start(), [Arrive(first, payload)] + ops, 0, CAP - 1)
    ensures var all := [Arrive(first, payload)] + ops;
            FedInOrder(all, first, Run(Start(), all), Played(Results(Start(), all)))
  {
    var all := [Arrive(first, payload)] + ops;
    var q := Playout(first, map[first := payload]);
    FromFirstArrival(first, payload, ops);
    RunRefines(q, ops);
    RunPlaysInOrder(q, ops);
    CursorStaysBehind(q, ops);
    forall u: nat
      ensures Owed(q, ops, u) == LastArrived(all, u, None)
    {
      assert all[1..] == ops;
    }
    ConcreteFedInOrder(q, ops, all, RunPlayout(q, ops), Played(Results(Tracking(q), ops)));
  }

  /** The number of the first accepted arrival of a run. */
  function FirstNumber(ops: seq<Op>): Option<nat> {
    if ops == [] then None
    else if ops[0].Arrive? && Accepted(ops[0].payload) then Some(ops[0].number)
    else FirstNumber(ops[1..])
  }

  /** The same for any run: pops and refused packets before the first arrival do nothing. */
  lemma {:induction false} PlayoutFromStart(ops: seq<Op>)
    requires FirstNumber(ops).Some? && WithinSkew(Start(), ops, 0, CAP - 1)
    ensures FedInOrder(ops, FirstNumber(ops).value, Run(Start(), ops), Played(Results(Start(), ops)))
    decreases |ops|
  {
    var op, rest := ops[0], ops[1..];
    assert ops == [op] + rest;
    if op.Arrive? && Accepted(op.payload) {
      PlayoutTheorem(op.number, op.payload, rest);
    } else {
      assert After(Start(), op) == Start();
      PlayoutFromStart(rest);
      assert Played(Results(Start(), ops)) == Played(Results(Start(), rest)) by {
        if op.Play? {
          assert ([Idle] + Results(Start(), rest))[1..] == Results(Start(), rest);
          assert [] + Played(Results(Start(), rest)) == Played(Results(Start(), rest));
        } else {
          assert [] + Results(Start(), rest) == Results(Start(), rest);
        }
      }
      assert forall u: nat :: LastArrived(ops, u, None) == LastArrived(rest, u, None);
      var end, played := Run(Start(), rest), Played(Results(Start(), rest));
      SameArrivals(rest, ops, FirstNumber(rest).value, end, played);
    }
  }

  lemma SameArrivals(a: seq<Op>, b: seq<Op>, first: nat, end: Tracked, played: seq<PopResult>)
    requires FedInOrder(a, first, end, played)
    requires forall u: nat :: LastArrived(b, u, None) == LastArrived(a, u, None)
    ensures FedInOrder(b, first, end, played)
  {
    if played != [] {
      var u: nat :| LastArrived(a, u, None).Some? && end.n <= u + 1;
      assert LastArrived(b, u, None).Some?;
    }
  }

  lemma FirstArrival(first: nat, payload: seq<Byte>)
    requires Accepted(payload)
    ensures InWindow(Playout(first, map[first := payload]))
    ensures After(Start(), Arrive(first, payload)) == Tracking(Playout(first, map[first := payload]))
  {
    var q := Playout(first, map[first := payload]);
    SlotSurvivesWrap(first);
    WindowNumberUnique(first, first);
    forall slot | 0 <= slot < CAP
      ensures SlotOf(q, slot) == if slot == first % CAP then Some(Packet(first % TWO16, payload)) else None
    {
      WindowNumberSlot(first, slot);
    }
    assert After(Start(), Arrive(first, payload)).jb.table == Concrete(q).table;
  }

  lemma FromFirstArrival(first: nat, payload: seq<Byte>, ops: seq<Op>)
    requires Accepted(payload)
    ensures var all, q := [Arrive(first, payload)] + ops, Playout(first, map[first := payload]);
            && InWindow(q)
            && Run(Start(), all) == Run(Tracking(q), ops)
            && Results(Start(), all) == Results(Tracking(q), ops)
            && (WithinSkew(Start(), all, 0, CAP - 1) ==> WithinSkew(Tracking(q), ops, 0, CAP - 1))
  {
    FirstArrival(first, payload);
    assert ([Arrive(first, payload)] + ops)[1..] == ops;
  }

  /** Draining takes exactly the distance to the furthest waiting packet, at most 128 pops. */
  lemma {:induction false} DrainToFurthest(q: Playout, last: nat)
    requires InWindow(q) && last in q.pending && forall u | u in q.pending :: u <= last
    ensures Placed(Concrete(q)) && DrainLength(Concrete(q)) == last - q.n + 1 <= CAP
    decreases last - q.n
  {
    ConcretePlaced(q);
    PlayRefines(q);
    var q' := PlayOne(q).0;
    if q.n < last {
      DrainToFurthest(q', last);
    } else {
      assert q'.pending == map[];
      PlayRefines(q');
      ConcretePlaced(q');
    }
  }
}
