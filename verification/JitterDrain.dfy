/** Draining a jitter buffer with no further pushes: how many pops succeed before the
    buffer is idle for good, the worst case over all states, and a run that reaches it. */
module JitterDrain {
  import opened Words
  import opened JitterModel
  import opened JitterRuns

  ghost function ValidSlots(jb: JitterState): set<nat> {
    set s: nat | s < CAP && jb.table[s].Some?
  }

  /** Distance from the cursor to the nearest buffered packet in its window, 128 if none. */
  function NearestFrom(jb: JitterState, ahead: nat): (d: nat)
    requires ahead <= CAP
    ensures ahead <= d <= CAP
    ensures d < CAP ==> HoldsAhead(jb, d)
    ensures forall a: nat | ahead <= a < d :: !HoldsAhead(jb, a)
    decreases CAP - ahead
  {
    if ahead == CAP || HoldsAhead(jb, ahead) then ahead else NearestFrom(jb, ahead + 1)
  }

  function Nearest(jb: JitterState): nat {
    NearestFrom(jb, 0)
  }

  /** The lexicographic measure (valid slots, distance to the nearest packet) as a number:
      after a packet has played, the next one is at most 126 away, because the number 128
      past the played one shares its emptied slot. */
  ghost function Measure(jb: JitterState): nat {
    if !jb.started || Nearest(jb) == CAP then 0
    else Nearest(jb) + 1 + 127 * (if ValidSlots(jb) == {} then 0 else |ValidSlots(jb)| - 1)
  }

  lemma ValidSlotsBounded(jb: JitterState)
    ensures |ValidSlots(jb)| <= CAP
  {
    BoundedSetSize(ValidSlots(jb), CAP);
  }

  lemma {:induction false} BoundedSetSize(s: set<nat>, k: nat)
    requires forall x | x in s :: x < k
    ensures |s| <= k
  {
    if k == 0 {
      assert s == {};
    } else {
      BoundedSetSize(s - {k - 1}, k - 1);
    }
  }

  lemma IdleIffFarOrUnstarted(jb: JitterState)
    requires Placed(jb)
    ensures Pop(jb).1.Idle? <==> Measure(jb) == 0
  {
    FutureUnwrapped(jb, jb.next);
    if jb.started && Nearest(jb) < CAP {
      assert HoldsAhead(jb, Nearest(jb));
    }
    if HasFuture(jb) {
      var a: nat :| 1 <= a < CAP && HoldsAhead(jb, a);
    }
  }

  /** Moving the cursor by one shifts every distance by one. */
  lemma AheadShifts(jb: JitterState, next: JitterState, a: nat)
    requires next.next == (jb.next + 1) % TWO16
    ensures HoldsAhead(next, a) == Holds(next, (jb.next + 1 + a) % TWO16)
    ensures next.table == jb.table ==> HoldsAhead(next, a) == HoldsAhead(jb, a + 1)
  {
    AddThenWrap(jb.next + 1, a);
    assert jb.next + 1 + a == jb.next + (a + 1);
  }

  lemma NearestIs(jb: JitterState, d: nat)
    requires d < CAP && HoldsAhead(jb, d)
    requires forall a: nat | a < d :: !HoldsAhead(jb, a)
    ensures Nearest(jb) == d
  {
  }

  lemma ConcealMovesCloser(jb: JitterState)
    requires Placed(jb) && Pop(jb).1.Conceal?
    ensures Nearest(Pop(jb).0) == Nearest(jb) - 1
    ensures ValidSlots(Pop(jb).0) == ValidSlots(jb)
  {
    IdleIffFarOrUnstarted(jb);
    NearestShifts(jb, Pop(jb).0);
  }

  lemma NearestShifts(jb: JitterState, next: JitterState)
    requires next.next == (jb.next + 1) % TWO16 && next.table == jb.table
    requires 0 < Nearest(jb) < CAP
    ensures Nearest(next) == Nearest(jb) - 1
  {
    var d := Nearest(jb);
    AheadShifts(jb, next, d - 1);
    forall a: nat | a < d - 1
      ensures !HoldsAhead(next, a)
    {
      AheadShifts(jb, next, a);
    }
    NearestIs(next, d - 1);
  }

  /** The number 128 past a played packet shares its slot, which is now empty. */
  lemma PlayedSlotIsFar(jb: JitterState, next: JitterState)
    requires next.next == (jb.next + 1) % TWO16 && next.table[jb.next % CAP].None?
    ensures !HoldsAhead(next, 127)
  {
    AheadShifts(jb, next, 127);
    SlotSurvivesWrap(jb.next + CAP);
    Remainder128(jb.next + CAP, jb.next / CAP + 1, jb.next % CAP);
  }

  lemma FrameFreesOneSlot(jb: JitterState)
    requires Placed(jb) && Pop(jb).1.Frame?
    ensures jb.next % CAP in ValidSlots(jb)
    ensures ValidSlots(Pop(jb).0) == ValidSlots(jb) - {jb.next % CAP}
  {
  }

  lemma NextGapIsShorter(jb: JitterState)
    requires Placed(jb) && Pop(jb).1.Frame?
    ensures var next := Pop(jb).0;
            Nearest(next) <= 126 || Nearest(next) == CAP
  {
    PlayedSlotIsFar(jb, Pop(jb).0);
  }

  lemma NearInhabits(jb: JitterState)
    requires Nearest(jb) < CAP
    ensures ValidSlots(jb) != {}
  {
    assert ((jb.next + Nearest(jb)) % TWO16) % CAP in ValidSlots(jb);
  }

  lemma MeasureDecreases(jb: JitterState)
    requires Placed(jb) && !Pop(jb).1.Idle?
    ensures Measure(Pop(jb).0) < Measure(jb)
  {
    IdleIffFarOrUnstarted(jb);
    var next := Pop(jb).0;
    if Pop(jb).1.Conceal? {
      ConcealMovesCloser(jb);
    } else {
      FrameFreesOneSlot(jb);
      NextGapIsShorter(jb);
      if Nearest(next) < CAP {
        NearInhabits(next);
      }
    }
  }

  lemma MeasureBounded(jb: JitterState)
    ensures Measure(jb) <= 16257
  {
    ValidSlotsBounded(jb);
  }

  /** The number of pops that return 1 when nothing more arrives. */
  ghost function DrainLength(jb: JitterState): nat
    requires Placed(jb)
    decreases Measure(jb)
  {
    if Pop(jb).1.Idle? then 0
    else
      MeasureDecreases(jb);
      OperationsKeepPlacement(jb, 0, []);
      1 + DrainLength(Pop(jb).0)
  }

  function PopMany(jb: JitterState, k: nat): JitterState
    decreases k
  {
    if k == 0 then jb else PopMany(Pop(jb).0, k - 1)
  }

  lemma {:induction false} DrainLengthBounded(jb: JitterState)
    requires Placed(jb)
    ensures DrainLength(jb) <= Measure(jb)
    decreases Measure(jb)
  {
    if !Pop(jb).1.Idle? {
      MeasureDecreases(jb);
      OperationsKeepPlacement(jb, 0, []);
      DrainLengthBounded(Pop(jb).0);
    }
  }

  /** The k-th pop is idle exactly when k has reached the drain length: all earlier pops
      return 1, all later ones 0. */
  lemma {:induction false} IdleExactlyAfterDrain(jb: JitterState, k: nat)
    requires Placed(jb)
    ensures Pop(PopMany(jb, k)).1.Idle? <==> k >= DrainLength(jb)
    decreases k
  {
    OperationsKeepPlacement(jb, 0, []);
    IdleIsStable(jb);
    if !Pop(jb).1.Idle? {
      MeasureDecreases(jb);
    }
    if k > 0 {
      IdleExactlyAfterDrain(Pop(jb).0, k - 1);
    }
  }

  /** Drain termination over every run: from any reachable state, at most 16257 pops return
      1, and from then on every pop returns 0. */
  lemma DrainTerminates(ops: seq<Op>, k: nat)
    ensures var jb := Run(Start(), ops).jb;
            && Placed(jb)
            && DrainLength(jb) <= 16257
            && (Pop(PopMany(jb, k)).1.Idle? <==> k >= DrainLength(jb))
  {
    RunKeepsInStep(Start(), ops);
    var jb := Run(Start(), ops).jb;
    DrainLengthBounded(jb);
    MeasureBounded(jb);
    IdleExactlyAfterDrain(jb, k);
  }

  // ----- the bound is reached

  /** 128 packets, 127 numbers apart, in 128 different slots. */
  function Spread(k: nat): nat {
    128 + 127 * k
  }

  /** The packet of `Spread` that lands in a slot. */
  function SpreadIn(slot: nat): nat
    requires slot < CAP
  {
    if slot == 0 then 0 else CAP - slot
  }

  lemma SpreadSlots(k: nat)
    requires k < CAP
    ensures SpreadIn(Spread(k) % CAP) == k
    ensures Spread(k) < TWO16
  {
    if k == 0 {
      assert Spread(0) % CAP == 0;
    } else {
      Remainder128(Spread(k), k, CAP - k);
    }
  }

  /** The table that still holds the packets from..127 of the spread. */
  function SpreadTable(from: nat, p: seq<Byte>): Table {
    seq(CAP, slot requires 0 <= slot < CAP =>
      if SpreadIn(slot) >= from then Some(Packet(Spread(SpreadIn(slot)) % TWO16, p)) else None)
  }

  function SpreadState(from: nat, distance: nat, p: seq<Byte>): JitterState
    requires from < CAP && distance < CAP
  {
    JitterState(SpreadTable(from, p), (Spread(from) - distance) % TWO16, true)
  }

  lemma SpreadHolds(from: nat, distance: nat, p: seq<Byte>, u: nat)
    requires from < CAP && distance < CAP && u < TWO16
    ensures Holds(SpreadState(from, distance, p), u) <==> exists k: nat | from <= k < CAP :: u == Spread(k)
  {
    if k: nat :| from <= k < CAP && u == Spread(k) {
      SpreadSlots(k);
    }
    if Holds(SpreadState(from, distance, p), u) {
      var k := SpreadIn(u % CAP);
      SpreadSlots(k);
      assert u == Spread(k);
    }
  }

  lemma SpreadPlaced(from: nat, distance: nat, p: seq<Byte>)
    requires from < CAP && distance < CAP && Accepted(p)
    ensures Placed(SpreadState(from, distance, p))
  {
    var jb := SpreadState(from, distance, p);
    forall s | 0 <= s < CAP && jb.table[s].Some?
      ensures jb.table[s].value.seqNo % CAP == s
    {
      SpreadSlots(SpreadIn(s));
    }
  }

  lemma SpreadConceals(from: nat, distance: nat, p: seq<Byte>)
    requires from < CAP && 0 < distance < CAP
    ensures Pop(SpreadState(from, distance, p)) == (SpreadState(from, distance - 1, p), Conceal)
  {
    SpreadCursor(from, distance, p);
    SpreadWantIsMissing(from, distance, p);
    SpreadComes(from, distance, p);
  }

  lemma SpreadCursor(from: nat, distance: nat, p: seq<Byte>)
    requires from < CAP && 0 < distance < CAP
    ensures SpreadState(from, distance, p).next == Spread(from) - distance
    ensures SpreadState(from, distance - 1, p).next == (SpreadState(from, distance, p).next + 1) % TWO16
  {
    SpreadSlots(from);
  }

  lemma SpreadComes(from: nat, distance: nat, p: seq<Byte>)
    requires from < CAP && 0 < distance < CAP
    ensures HasFuture(SpreadState(from, distance, p))
  {
    SpreadSlots(from);
    SpreadCursor(from, distance, p);
    SpreadHolds(from, distance, p, Spread(from));
    assert HoldsAhead(SpreadState(from, distance, p), distance);
  }

  /** The numbers are 127 apart, so the cursor is at none of them. */
  lemma SpreadWantIsMissing(from: nat, distance: nat, p: seq<Byte>)
    requires from < CAP && 0 < distance < CAP
    ensures !Holds(SpreadState(from, distance, p), SpreadState(from, distance, p).next)
  {
    SpreadSlots(from);
    SpreadHolds(from, distance, p, SpreadState(from, distance, p).next);
  }

  lemma SpreadPlays(from: nat, p: seq<Byte>)
    requires from < CAP
    ensures Pop(SpreadState(from, 0, p)) == (JitterState(SpreadTable(from + 1, p), Spread(from) + 1, true), Frame(p))
  {
    var jb := SpreadState(from, 0, p);
    SpreadSlots(from);
    SpreadHolds(from, 0, p, Spread(from));
    var after := jb.table[Spread(from) % CAP := None];
    forall s | 0 <= s < CAP
      ensures after[s] == SpreadTable(from + 1, p)[s]
    {
      if SpreadIn(s) == from {
        assert s == Spread(from) % CAP;
      }
    }
    assert after == SpreadTable(from + 1, p);
  }

  lemma NothingBufferedIsIdle(jb: JitterState)
    requires jb.table == Empty()
    ensures Pop(jb).1.Idle? && (jb.started ==> Placed(jb))
  {
    assert forall u: nat :: !Holds(jb, u);
    assert forall a: nat :: !HoldsAhead(jb, a);
  }

  lemma {:induction false} SpreadDrain(from: nat, distance: nat, p: seq<Byte>)
    requires from < CAP && distance < CAP && Accepted(p)
    ensures Placed(SpreadState(from, distance, p))
    ensures DrainLength(SpreadState(from, distance, p)) == distance + 1 + 127 * (127 - from)
    decreases CAP - from, distance
  {
    SpreadPlaced(from, distance, p);
    if distance > 0 {
      SpreadConceals(from, distance, p);
      SpreadDrain(from, distance - 1, p);
    } else {
      SpreadPlays(from, p);
      var next := Pop(SpreadState(from, 0, p)).0;
      if from + 1 < CAP {
        SpreadSlots(from + 1);
        assert next == SpreadState(from + 1, 126, p);
        SpreadDrain(from + 1, 126, p);
      } else {
        assert next.table == Empty();
        NothingBufferedIsIdle(next);
      }
    }
  }

  function SpreadArrivals(k: nat, p: seq<Byte>): seq<Op> {
    if k == 0 then [] else SpreadArrivals(k - 1, p) + [Arrive(Spread(k - 1), p)]
  }

  lemma {:induction false} SpreadArrived(t: Tracked, k: nat, p: seq<Byte>)
    requires k <= CAP && Accepted(p) && t.jb == JitterState(Empty(), 1, true)
    ensures var jb := Run(t, SpreadArrivals(k, p)).jb;
            && jb.next == 1 && jb.started
            && forall slot | 0 <= slot < CAP :: jb.table[slot] ==
                 if SpreadIn(slot) < k then Some(Packet(Spread(SpreadIn(slot)) % TWO16, p)) else None
  {
    if k > 0 {
      SpreadArrived(t, k - 1, p);
      RunConcat(t, SpreadArrivals(k - 1, p), [Arrive(Spread(k - 1), p)]);
      SpreadSlots(k - 1);
      var before := Run(t, SpreadArrivals(k - 1, p));
      assert Run(before, [Arrive(Spread(k - 1), p)]) == Run(After(before, Arrive(Spread(k - 1), p)), []);
    }
  }

  /** The bound of `DrainTerminates` is attained: packet 0 arrives and plays, 128 packets
      127 apart arrive, and the next 16257 pops all return 1. */
  lemma DrainBoundIsReached(p: seq<Byte>)
    requires Accepted(p)
    ensures var jb := Run(Start(), [Arrive(0, p), Play] + SpreadArrivals(CAP, p)).jb;
            Placed(jb) && DrainLength(jb) == 16257
  {
    var t1 := After(Start(), Arrive(0, p));
    var t2 := After(t1, Play);
    assert Holds(t1.jb, 0);
    assert t2.jb == JitterState(Empty(), 1, true);
    assert [Arrive(0, p), Play][1..] == [Play];
    assert Run(t1, [Play]) == Run(t2, []);
    RunConcat(Start(), [Arrive(0, p), Play], SpreadArrivals(CAP, p));
    SpreadArrived(t2, CAP, p);
    var jb := Run(t2, SpreadArrivals(CAP, p)).jb;
    assert jb.table == SpreadTable(0, p);
    assert jb == SpreadState(0, 127, p);
    SpreadDrain(0, 127, p);
  }
}
