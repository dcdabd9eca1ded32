/** For exactly which runs the table answers like the record of everything that arrived:
    the runs that show the conditions of JitterHistory.dfy cannot be relaxed, among them the
    replay of a straggler when the 16-bit numbers come round. */
module JitterReplay {
  import opened Words
  import opened JitterModel
  import opened JitterRuns
  import opened JitterPlayout
  import opened JitterHistory

  /** Every run of an arrival window that plays at most `played` numbers answers rightly. */
  ghost predicate AllAnswer(late: nat, early: nat, played: nat) {
    forall ops | WithinSkew(Start(), ops, late, early) && |PlayedBy(ops)| <= played :: AnswersHeard(ops)
  }

  /** Every such run plays the right payloads and concealments. */
  ghost predicate AllPlayHeard(late: nat, early: nat, played: nat) {
    forall ops | WithinSkew(Start(), ops, late, early) && |PlayedBy(ops)| <= played :: FramesHeard(ops)
  }

  lemma LastPopCounts(before: seq<Op>)
    ensures AnswersHeard(before + [Play]) ==>
            Pop(Run(Start(), before).jb).1 == Answer(Heard(before), Run(Start(), before).n)
    ensures FramesHeard(before + [Play]) ==>
              Pop(Run(Start(), before).jb).1 in {Idle, Verdict(Lookup(Heard(before), Run(Start(), before).n))}
  {
    var ops := before + [Play];
    assert ops[|before|].Play? && ops[..|before|] == before;
  }

  /** The run of two arrivals. */
  lemma TwoArrivals(a: nat, b: nat, p: seq<Byte>, q: seq<Byte>, late: nat, early: nat)
    requires Accepted(p) && Accepted(q) && a - late <= b <= a + early
    ensures var ops := [Arrive(a, p), Arrive(b, q)];
            && Run(Start(), ops) == Tracked(Push(Push(Initial(), a % TWO16, p), b % TWO16, q), a)
            && WithinSkew(Start(), ops, late, early)
            && Heard(ops) == map[a := p][b := q]
            && FirstNumber(ops) == Some(a)
  {
    var one := [Arrive(a, p)];
    assert [] + [Arrive(a, p)] == one && one + [Arrive(b, q)] == [Arrive(a, p), Arrive(b, q)];
    RunLast([], Arrive(a, p));
    SkewLast([], Arrive(a, p), late, early);
    RunLast(one, Arrive(b, q));
    SkewLast(one, Arrive(b, q), late, early);
    assert map[][a := p] == map[a := p];
  }

  // ----- windows of more than 128 numbers

  lemma OtherRoundIsIdle(a: nat, b: nat, p: seq<Byte>)
    requires (a == 128 && b == 0) || (a == 0 && b == 128)
    ensures Pop(JitterState(Empty()[0 := Some(Packet(b, p))], a, true)).1 == Idle
  {
    var jb := JitterState(Empty()[0 := Some(Packet(b, p))], a, true);
    FutureUnwrapped(jb, a);
    forall u: nat | Holds(jb, u)
      ensures u % CAP == 0 && u % TWO16 == b
    {
    }
  }

  /** The packet 128 away takes the slot of the one at the cursor, which is never played. */
  lemma EvictedUnplayed(late: nat, early: nat, played: nat, p: seq<Byte>)
    requires Accepted(p) && (late >= CAP || early >= CAP)
    ensures !AllAnswer(late, early, played)
  {
    var a: nat, b: nat := if late >= CAP then 128 else 0, if late >= CAP then 0 else 128;
    var before := [Arrive(a, p), Arrive(b, p)];
    TwoArrivals(a, b, p, p, late, early);
    assert Empty()[0 := Some(Packet(a, p))][0 := Some(Packet(b, p))] == Empty()[0 := Some(Packet(b, p))];
    OtherRoundIsIdle(a, b, p);
    CursorCounts(before);
    assert a in Heard(before);
    IdleIsWrong(before, late, early, played);
  }

  /** A packet 128-e late evicts the one e ahead; when the cursor comes nothing is played. */
  lemma EvictedAheadUnplayed(late: nat, early: nat, played: nat, p: seq<Byte>)
    requires Accepted(p) && played >= 1 && late < CAP && early < CAP <= late + early
    ensures !AllAnswer(late, early, played)
  {
    var ahead: nat, stale: nat := 200 + early, 72 + early;
    var two, three := [Arrive(200, p), Arrive(ahead, p)], [Arrive(200, p), Arrive(ahead, p), Arrive(stale, p)];
    TwoArrivals(200, ahead, p, p, late, early);
    assert Run(Start(), two) == TwoBuffered(early, p);
    assert two + [Arrive(stale, p)] == three;
    RunLast(two, Arrive(stale, p));
    SkewLast(two, Arrive(stale, p), late, early);
    EvictedState(early, p);
    var t := Run(Start(), three);
    PlaysFirst(t.jb, stale, p);
    EvictedAheadEnds(three, t, stale, ahead, late, early, played, p);
  }

  lemma EvictedAheadEnds(three: seq<Op>, t: Tracked, stale: nat, ahead: nat, late: nat, early: nat, played: nat,
                         p: seq<Byte>)
    requires played >= 1 && 73 <= stale < 200 && ahead > 200
    requires t == Run(Start(), three) && t.n == 200 && WithinSkew(Start(), three, late, early)
    requires Pop(t.jb) == (JitterState(Empty()[stale % CAP := Some(Packet(stale, p))], 201, true), Frame(p))
    requires ahead in Heard(three) && FirstNumber(three) == Some(200)
    ensures !AllAnswer(late, early, played)
  {
    var before := three + [Play];
    RunLast(three, Play);
    SkewLast(three, Play, late, early);
    CursorCounts(three);
    PlayedByLast(three, Play);
    StaleIsIdle(Run(Start(), before).jb, stale, p);
    assert ahead in Heard(before) && ahead >= Run(Start(), before).n;
    IdleIsWrong(before, late, early, played);
  }

  /** An idle pop though something at or after the cursor was heard. */
  lemma IdleIsWrong(before: seq<Op>, late: nat, early: nat, played: nat)
    requires WithinSkew(Start(), before, late, early) && |PlayedBy(before)| <= played
    requires Pop(Run(Start(), before).jb).1.Idle?
    requires exists u | u in Heard(before) :: u >= Run(Start(), before).n
    ensures !AllAnswer(late, early, played)
  {
    SkewLast(before, Play, late, early);
    PlayedByLast(before, Play);
    LastPopCounts(before);
    assert WithinSkew(Start(), before + [Play], late, early) && |PlayedBy(before + [Play])| <= played;
  }

  // ----- a straggler stays until the numbers come round

  /** Packet 0 sits in its slot; the cursor stands at `u`, whose packet is buffered unless it
      shares that slot. */
  function Leftover(u: nat, stale: seq<Byte>, p: seq<Byte>): Tracked {
    var table := Empty()[0 := Some(Packet(0, stale))];
    var buffered := if u % CAP == 0 then table else table[u % CAP := Some(Packet(u % TWO16, p))];
    Tracked(JitterState(buffered, u % TWO16, true), u)
  }

  /** The packet after `u` arrives, unless it is a multiple of 128 and lost; then one pop. */
  function Onward(u: nat, p: seq<Byte>): seq<Op> {
    if (u + 1) % CAP == 0 then [Play] else [Arrive(u + 1, p), Play]
  }

  /** The first packet has number `first`; packet 0 arrives after it, `first` numbers late, and
      nothing else is late nor more than one early. The cursor ends at `u`. */
  function Straggling(first: nat, u: nat, stale: seq<Byte>, p: seq<Byte>): seq<Op>
    decreases u
  {
    if u <= first then [Arrive(first, p), Arrive(0, stale)] else Straggling(first, u - 1, stale, p) + Onward(u - 1, p)
  }

  lemma LeftoverPops(u: nat, stale: seq<Byte>, p: seq<Byte>)
    requires 1 <= u < TWO16 && u % CAP != 0
    ensures Pop(Leftover(u, stale, p).jb) ==
            (JitterState(Empty()[0 := Some(Packet(0, stale))], (u + 1) % TWO16, true), Frame(p))
  {
    var jb := Leftover(u, stale, p).jb;
    assert Holds(jb, jb.next);
    assert jb.table[u % CAP := None] == Empty()[0 := Some(Packet(0, stale))];
  }

  lemma NextPlays(u: nat, stale: seq<Byte>, p: seq<Byte>, t1: Tracked)
    requires 1 <= u < TWO16 && Accepted(p) && (u + 1) % CAP != 0
    requires t1 == After(Leftover(u, stale, p), Arrive(u + 1, p))
    ensures After(t1, Play) == Leftover(u + 1, stale, p)
  {
    assert u + 1 < TWO16;
    var jb := t1.jb;
    assert jb.table[(u + 1) % CAP] == Some(Packet(u + 1, p));
    if u % CAP == 0 {
      assert !Holds(jb, u);
      assert HoldsAhead(jb, 1);
    } else {
      assert Holds(jb, u);
      assert jb.table[u % CAP := None] == Leftover(u + 1, stale, p).jb.table;
    }
  }

  /** What the run has heard: packet 0 and numbers up to the cursor that do not share its slot. */
  ghost predicate OnlyToCursor(heard: map<nat, seq<Byte>>, u: nat) {
    forall v | v in heard :: v == 0 || (v <= u && v % CAP != 0)
  }

  ghost predicate Straggled(ops: seq<Op>, u: nat, stale: seq<Byte>, p: seq<Byte>, late: nat, early: nat) {
    && Run(Start(), ops) == Leftover(u, stale, p)
    && WithinSkew(Start(), ops, late, early)
    && OnlyToCursor(Heard(ops), u)
  }

  lemma OnwardStep(ops: seq<Op>, u: nat, stale: seq<Byte>, p: seq<Byte>, late: nat, early: nat)
    requires 1 <= u < TWO16 && Accepted(p) && early >= 1
    requires Straggled(ops, u, stale, p, late, early)
    ensures Straggled(ops + Onward(u, p), u + 1, stale, p, late, early)
  {
    if (u + 1) % CAP == 0 {
      LeftoverPops(u, stale, p);
      RunLast(ops, Play);
      SkewLast(ops, Play, late, early);
    } else {
      OnwardWithPacket(ops, u, stale, p, late, early);
      assert ops + Onward(u, p) == ops + [Arrive(u + 1, p)] + [Play];
    }
  }

  lemma OnwardWithPacket(ops: seq<Op>, u: nat, stale: seq<Byte>, p: seq<Byte>, late: nat, early: nat)
    requires 1 <= u < TWO16 && Accepted(p) && early >= 1 && (u + 1) % CAP != 0
    requires Straggled(ops, u, stale, p, late, early)
    ensures Straggled(ops + [Arrive(u + 1, p)] + [Play], u + 1, stale, p, late, early)
  {
    var op := Arrive(u + 1, p);
    RunLast(ops, op);
    SkewLast(ops, op, late, early);
    NextPlays(u, stale, p, Run(Start(), ops + [op]));
    RunLast(ops + [op], Play);
    SkewLast(ops + [op], Play, late, early);
  }

  lemma StragglerArrives(late: nat, early: nat, stale: seq<Byte>, p: seq<Byte>)
    requires Accepted(stale) && Accepted(p) && 1 <= late < CAP
    ensures Straggled(Straggling(late, late, stale, p), late, stale, p, late, early)
  {
    TwoArrivals(late, 0, p, stale, late, early);
    TwoSlots(late, p, stale);
  }

  lemma TwoSlots(late: nat, p: seq<Byte>, stale: seq<Byte>)
    requires Accepted(stale) && Accepted(p) && 1 <= late < CAP
    ensures Push(Push(Initial(), late, p), 0, stale) == Leftover(late, stale, p).jb
  {
    assert Empty()[late := Some(Packet(late, p))][0 := Some(Packet(0, stale))]
        == Empty()[0 := Some(Packet(0, stale))][late := Some(Packet(late, p))];
  }

  lemma {:induction false} StragglerStays(late: nat, early: nat, u: nat, stale: seq<Byte>, p: seq<Byte>)
    requires Accepted(stale) && Accepted(p) && 1 <= late < CAP && early >= 1 && late <= u <= TWO16
    ensures Straggled(Straggling(late, u, stale, p), u, stale, p, late, early)
    decreases u
  {
    if u == late {
      StragglerArrives(late, early, stale, p);
    } else {
      StragglerStays(late, early, u - 1, stale, p);
      OnwardStep(Straggling(late, u - 1, stale, p), u - 1, stale, p, late, early);
    }
  }

  lemma StragglingPlays(late: nat, early: nat, u: nat, stale: seq<Byte>, p: seq<Byte>)
    requires Accepted(stale) && Accepted(p) && 1 <= late < CAP && early >= 1 && late <= u <= TWO16
    ensures |PlayedBy(Straggling(late, u, stale, p))| == u - late
  {
    StragglerStays(late, early, u, stale, p);
    StragglerFirst(late, u, stale, p);
    CursorCounts(Straggling(late, u, stale, p));
  }

  lemma {:induction false} StragglerFirst(late: nat, u: nat, stale: seq<Byte>, p: seq<Byte>)
    requires Accepted(p)
    ensures FirstNumber(Straggling(late, u, stale, p)) == Some(late)
    decreases u
  {
    if u > late {
      StragglerFirst(late, u - 1, stale, p);
      var before := Straggling(late, u - 1, stale, p);
      if u % CAP == 0 {
        FirstNumberLast(before, Play);
      } else {
        FirstNumberLast(before, Arrive(u, p));
        FirstNumberLast(before + [Arrive(u, p)], Play);
        assert before + Onward(u - 1, p) == before + [Arrive(u, p)] + [Play];
      }
    }
  }

  /** The straggler is played where packet 65536 never arrived. */
  lemma StragglerIsReplayed(late: nat, early: nat, stale: seq<Byte>, p: seq<Byte>)
    requires Accepted(stale) && Accepted(p) && 1 <= late < CAP && early >= 1
    ensures var ops := Straggling(late, TWO16, stale, p);
            && WithinSkew(Start(), ops + [Play], late, early)
            && Run(Start(), ops).n == TWO16 && TWO16 !in Heard(ops)
            && Pop(Run(Start(), ops).jb).1 == Frame(stale)
            && |PlayedBy(ops + [Play])| == TWO16 + 1 - late
  {
    var ops := Straggling(late, TWO16, stale, p);
    StragglerStays(late, early, TWO16, stale, p);
    StragglingPlays(late, early, TWO16, stale, p);
    SkewLast(ops, Play, late, early);
    PlayedByLast(ops, Play);
  }

  /** Before that, as soon as it is in the look-ahead, it conceals where nothing is to come:
      at number 65410, once packet 65409 has been played. */
  lemma StragglerConceals(late: nat, early: nat, stale: seq<Byte>, p: seq<Byte>)
    requires Accepted(stale) && Accepted(p) && 1 <= late < CAP && early >= 1
    ensures var ops := Straggling(late, LONGEST_RUN - 1, stale, p) + [Play];
            && WithinSkew(Start(), ops + [Play], late, early)
            && Answer(Heard(ops), Run(Start(), ops).n) == Idle
            && Pop(Run(Start(), ops).jb).1 == Conceal
            && |PlayedBy(ops + [Play])| == LONGEST_RUN + 1 - late
  {
    var before := Straggling(late, LONGEST_RUN - 1, stale, p);
    var ops := before + [Play];
    StragglerLastPlays(late, early, stale, p);
    StaleAhead(Run(Start(), ops).jb, stale);
    SkewLast(ops, Play, late, early);
    PlayedByLast(ops, Play);
  }

  lemma StragglerLastPlays(late: nat, early: nat, stale: seq<Byte>, p: seq<Byte>)
    requires Accepted(stale) && Accepted(p) && 1 <= late < CAP && early >= 1
    ensures var ops := Straggling(late, LONGEST_RUN - 1, stale, p) + [Play];
            && WithinSkew(Start(), ops, late, early)
            && OnlyToCursor(Heard(ops), LONGEST_RUN - 1)
            && Run(Start(), ops) == Tracked(JitterState(Empty()[0 := Some(Packet(0, stale))], LONGEST_RUN, true),
                                            LONGEST_RUN)
            && |PlayedBy(ops)| == LONGEST_RUN - late
  {
    var before := Straggling(late, LONGEST_RUN - 1, stale, p);
    StragglerStays(late, early, LONGEST_RUN - 1, stale, p);
    StragglingPlays(late, early, LONGEST_RUN - 1, stale, p);
    LeftoverPops(LONGEST_RUN - 1, stale, p);
    SkewLast(before, Play, late, early);
    PlayedByLast(before, Play);
    RunLast(before, Play);
  }

  lemma StaleAhead(jb: JitterState, stale: seq<Byte>)
    requires jb == JitterState(Empty()[0 := Some(Packet(0, stale))], LONGEST_RUN, true)
    ensures Pop(jb).1 == Conceal
  {
    assert HoldsAhead(jb, 126);
    assert !Holds(jb, LONGEST_RUN);
  }

  // ----- the exact conditions

  /** As long as nothing has been played the first packet is in its slot, if nothing comes
      from 128 numbers away. */
  lemma {:induction false} FirstStays(ops: seq<Op>, late: nat, early: nat)
    requires late < CAP && early < CAP && FirstNumber(ops).Some? && WithinSkew(Start(), ops, late, early)
    requires PlayedBy(ops) == []
    ensures Run(Start(), ops).jb.started && Run(Start(), ops).jb.next == Run(Start(), ops).n % TWO16
    ensures Holds(Run(Start(), ops).jb, Run(Start(), ops).n)
    decreases |ops|
  {
    var before, op := ops[..|ops| - 1], ops[|ops| - 1];
    assert ops == before + [op];
    FirstNumberLast(before, op);
    SkewLast(before, op, late, early);
    RunLast(before, op);
    PlayedByLast(before, op);
    if FirstNumber(before) == None {
      NothingHeard(before);
      SlotSurvivesWrap(op.number);
    } else {
      FirstStays(before, late, early);
      FirstStaysStep(Run(Start(), before), op, late, early);
    }
  }

  lemma FirstStaysStep(t: Tracked, op: Op, late: nat, early: nat)
    requires late < CAP && early < CAP && t.jb.started && t.jb.next == t.n % TWO16 && Holds(t.jb, t.n)
    requires op.Arrive? && Accepted(op.payload) ==> t.n - late <= op.number <= t.n + early
    ensures op.Play? ==> Pop(t.jb).1.Frame?
    ensures op.Arrive? ==> After(t, op).jb.started && After(t, op).jb.next == t.n % TWO16 && Holds(After(t, op).jb, t.n)
  {
    match op
    case Arrive(u, payload) =>
      if Accepted(payload) {
        SlotSurvivesWrap(u);
        if u % CAP == t.n % CAP {
          SameSlotNear(u, t.n);
        }
      }
    case Play => HoldsUnwrapped(t.jb, t.n);
  }

  /** So a run that plays nothing has no pop after its first arrival. */
  lemma NothingPlayedAnswers(ops: seq<Op>, late: nat, early: nat)
    requires late < CAP && early < CAP && WithinSkew(Start(), ops, late, early) && PlayedBy(ops) == []
    ensures AnswersHeard(ops)
  {
    forall i | 0 <= i < |ops| && ops[i].Play?
      ensures Pop(Run(Start(), ops[..i]).jb).1 == Answer(Heard(ops[..i]), Run(Start(), ops[..i]).n)
    {
      PrefixToPop(ops, i, late, early);
      PlayedByLast(ops[..i], Play);
      if FirstNumber(ops[..i]) == None {
        NothingHeard(ops[..i]);
      } else {
        FirstStays(ops[..i], late, early);
        FirstStaysStep(Run(Start(), ops[..i]), Play, late, early);
      }
    }
  }

  /** When all runs of an arrival window that play at most `played` numbers answer rightly. */
  predicate Answerable(late: nat, early: nat, played: nat) {
    if played == 0 then late < CAP && early < CAP
    else late + early < CAP && ShortEnough(late, early, played, LONGEST_RUN)
  }

  /** The exact condition. Every pop of every run of an arrival window answers from what has
      arrived before it if and only if the window has at most 128 numbers and packets are
      never late, or never early, or no more than 65410 - late numbers are played; or, if
      nothing at all is played, no packet is 128 numbers from the cursor. */
  lemma AnswersExact(late: nat, early: nat, played: nat)
    ensures AllAnswer(late, early, played) <==> Answerable(late, early, played)
  {
    var p: seq<Byte> := [0];
    if Answerable(late, early, played) {
      forall ops | WithinSkew(Start(), ops, late, early) && |PlayedBy(ops)| <= played
        ensures AnswersHeard(ops)
      {
        if played == 0 {
          NothingPlayedAnswers(ops, late, early);
        } else {
          AnswersFromRecord(ops, late, early);
        }
      }
    } else if late >= CAP || early >= CAP {
      EvictedUnplayed(late, early, played, p);
    } else if late + early >= CAP {
      EvictedAheadUnplayed(late, early, played, p);
    } else {
      StragglerConceals(late, early, p, p);
      LastPopCounts(Straggling(late, LONGEST_RUN - 1, p, p) + [Play]);
    }
  }

  /** And what is played, idle pops and concealments in excess aside, is right if and only if
      packets are never late, or never early, or no more than 65536 - late numbers are played. */
  lemma FramesExact(late: nat, early: nat, played: nat)
    requires late + early < CAP
    ensures AllPlayHeard(late, early, played) <==> ShortEnough(late, early, played, TWO16)
  {
    var p: seq<Byte> := [0];
    if ShortEnough(late, early, played, TWO16) {
      forall ops | WithinSkew(Start(), ops, late, early) && |PlayedBy(ops)| <= played
        ensures FramesHeard(ops)
      {
        FramesFromRecord(ops, late, early);
      }
    } else {
      StragglerIsReplayed(late, early, p, p);
      LastPopCounts(Straggling(late, TWO16, p, p));
    }
  }
}
