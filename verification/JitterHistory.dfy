/** What every pop of a run answers, late packets included: the table against the unbounded
    record of everything that has arrived so far. The record forgets nothing and knows no
    slots and no 16-bit numbers; the theorem says for which runs the table answers like it. */
module JitterHistory {
  import opened Words
  import opened JitterModel
  import opened JitterRuns
  import opened JitterPlayout

  /** The payload last accepted for each number. */
  function Heard(ops: seq<Op>): map<nat, seq<Byte>> {
    if ops == [] then map[]
    else
      var before, op := Heard(ops[..|ops| - 1]), ops[|ops| - 1];
      if op.Arrive? && Accepted(op.payload) then before[op.number := op.payload] else before
  }

  /** What a pop at number `n` should answer: the packet if it has been heard, a concealment
      if a later one has, else nothing. */
  function Answer(heard: map<nat, seq<Byte>>, n: nat): PopResult {
    if n in heard then Frame(heard[n])
    else if exists u | u in heard :: u > n then Conceal
    else Idle
  }

  /** Each pop of the run answers from what has arrived before it. */
  ghost predicate AnswersHeard(ops: seq<Op>) {
    forall i | 0 <= i < |ops| && ops[i].Play? ::
      Pop(Run(Start(), ops[..i]).jb).1 == Answer(Heard(ops[..i]), Run(Start(), ops[..i]).n)
  }

  /** Each pop of the run that returns 1 plays the payload heard for its number, or one
      concealment if none was. */
  ghost predicate FramesHeard(ops: seq<Op>) {
    forall i | 0 <= i < |ops| && ops[i].Play? ::
      Pop(Run(Start(), ops[..i]).jb).1 in {Idle, Verdict(Lookup(Heard(ops[..i]), Run(Start(), ops[..i]).n))}
  }

  // ----- the table and the record

  /** The packet in slot `s` is the one heard for some number from `lo` on. */
  ghost predicate FromHeard(p: Packet, s: nat, heard: map<nat, seq<Byte>>, lo: int) {
    exists v: nat :: v in heard && lo <= v && v % CAP == s && p == Packet(v % TWO16, heard[v])
  }

  ghost predicate SlotsHeard(jb: JitterState, heard: map<nat, seq<Byte>>, lo: int) {
    forall s | 0 <= s < CAP && jb.table[s].Some? :: FromHeard(jb.table[s].value, s, heard, lo)
  }

  /** Everything heard from the cursor on is buffered; nothing was heard beyond the window;
      and the table holds only what was heard, of numbers from `lo` on. */
  ghost predicate Remembers(t: Tracked, heard: map<nat, seq<Byte>>, lo: int, early: nat) {
    && t.jb.started && t.jb.next == t.n % TWO16
    && (forall u | u in heard && t.n <= u :: Buffered(t.jb, u, heard[u]))
    && (forall u | u in heard :: u <= t.n + early)
    && SlotsHeard(t.jb, heard, lo)
  }

  /** A number less than 2^16 past `lo` is told from all numbers in the table. */
  lemma HoldsIsHeard(t: Tracked, heard: map<nat, seq<Byte>>, lo: int, early: nat, u: nat)
    requires Remembers(t, heard, lo, early) && early < CAP
    requires t.n <= u < lo + TWO16
    ensures Holds(t.jb, u) <==> u in heard
  {
    if Holds(t.jb, u) {
      var s := u % CAP;
      assert FromHeard(t.jb.table[s].value, s, heard, lo);
      var v: nat :| v in heard && lo <= v && v % CAP == s && t.jb.table[s].value == Packet(v % TWO16, heard[v]);
      SameWordNear(u, v);
    }
    if u in heard {
      assert Buffered(t.jb, u, heard[u]);
    }
  }

  /** Nothing heard from the cursor on is missed. */
  lemma HeardIsPlayed(t: Tracked, heard: map<nat, seq<Byte>>, lo: int, early: nat)
    requires Remembers(t, heard, lo, early) && early < CAP
    ensures t.n in heard ==> Pop(t.jb).1 == Frame(heard[t.n])
    ensures Answer(heard, t.n).Conceal? ==> !Pop(t.jb).1.Idle?
  {
    FutureUnwrapped(t.jb, t.n);
    SlotSurvivesWrap(t.n);
    if t.n in heard {
      assert Buffered(t.jb, t.n, heard[t.n]);
    } else if u :| u in heard && u > t.n {
      assert Buffered(t.jb, u, heard[u]);
      assert Holds(t.jb, u);
    }
  }

  /** A frame is played only for a number that was heard. */
  lemma FrameWasHeard(t: Tracked, heard: map<nat, seq<Byte>>, lo: int, early: nat)
    requires Remembers(t, heard, lo, early) && early < CAP && t.n < lo + TWO16
    ensures Pop(t.jb).1.Frame? <==> t.n in heard
  {
    HeardIsPlayed(t, heard, lo, early);
    HoldsIsHeard(t, heard, lo, early, t.n);
    HoldsUnwrapped(t.jb, t.n);
  }

  /** The whole look-ahead is told from stale numbers: the table answers like the record. */
  lemma AnswersWhileClear(t: Tracked, heard: map<nat, seq<Byte>>, lo: int, early: nat)
    requires Remembers(t, heard, lo, early) && early < CAP && t.n + 127 < lo + TWO16
    ensures Pop(t.jb).1 == Answer(heard, t.n)
  {
    HeardIsPlayed(t, heard, lo, early);
    FrameWasHeard(t, heard, lo, early);
    FutureUnwrapped(t.jb, t.n);
    if u: nat :| t.n < u < t.n + CAP && Holds(t.jb, u) {
      HoldsIsHeard(t, heard, lo, early, u);
    }
  }

  // ----- steps

  lemma ArrivalSlots(jb: JitterState, heard: map<nat, seq<Byte>>, lo: int, u: nat, payload: seq<Byte>)
    requires SlotsHeard(jb, heard, lo) && lo <= u && Accepted(payload)
    ensures SlotsHeard(Push(jb, u % TWO16, payload), heard[u := payload], lo)
  {
    SlotSurvivesWrap(u);
    var after, heard' := Push(jb, u % TWO16, payload), heard[u := payload];
    forall s | 0 <= s < CAP && after.table[s].Some?
      ensures FromHeard(after.table[s].value, s, heard', lo)
    {
      if s == u % CAP {
        assert after.table[s].value == Packet(u % TWO16, heard'[u]);
      } else {
        assert FromHeard(jb.table[s].value, s, heard, lo);
        var v: nat :| v in heard && lo <= v && v % CAP == s && jb.table[s].value == Packet(v % TWO16, heard[v]);
        assert v in heard' && heard'[v] == heard[v];
      }
    }
  }

  lemma ArrivalKeeps(t: Tracked, heard: map<nat, seq<Byte>>, lo: int, late: nat, early: nat, u: nat, payload: seq<Byte>)
    requires Remembers(t, heard, lo, early) && late + early < CAP && Accepted(payload)
    requires lo <= t.n - late <= u <= t.n + early
    ensures Remembers(After(t, Arrive(u, payload)), heard[u := payload], lo, early)
  {
    var t', heard' := After(t, Arrive(u, payload)), heard[u := payload];
    SlotSurvivesWrap(u);
    ArrivalSlots(t.jb, heard, lo, u, payload);
    forall w | w in heard' && t.n <= w
      ensures Buffered(t'.jb, w, heard'[w])
    {
      if w != u {
        assert Buffered(t.jb, w, heard[w]);
        if w % CAP == u % CAP {
          SameSlotNear(w, u);
        }
      }
    }
  }

  lemma PopSlots(jb: JitterState, heard: map<nat, seq<Byte>>, lo: int)
    requires SlotsHeard(jb, heard, lo)
    ensures SlotsHeard(Pop(jb).0, heard, lo)
  {
    forall s | 0 <= s < CAP && Pop(jb).0.table[s].Some?
      ensures FromHeard(Pop(jb).0.table[s].value, s, heard, lo)
    {
      assert Pop(jb).0.table[s] == jb.table[s];
    }
  }

  lemma PopKeeps(t: Tracked, heard: map<nat, seq<Byte>>, lo: int, early: nat)
    requires Remembers(t, heard, lo, early) && early < CAP
    ensures Remembers(After(t, Play), heard, lo, early)
  {
    var t' := After(t, Play);
    PopSlots(t.jb, heard, lo);
    AddThenWrap(t.n, 1);
    SlotSurvivesWrap(t.n);
    forall w | w in heard && t'.n <= w
      ensures Buffered(t'.jb, w, heard[w])
    {
      assert Buffered(t.jb, w, heard[w]);
      if t'.n > t.n && w % CAP == t.n % CAP {
        SameSlotNear(w, t.n);
      }
    }
  }

  /** The lowest number may be raised when the table does not hold it. */
  lemma RaiseLowest(t: Tracked, heard: map<nat, seq<Byte>>, lo: int, early: nat)
    requires Remembers(t, heard, lo, early)
    requires lo >= 0 ==> lo !in heard || t.jb.table[lo % CAP].None?
    ensures Remembers(t, heard, lo + 1, early)
  {
    forall s | 0 <= s < CAP && t.jb.table[s].Some?
      ensures FromHeard(t.jb.table[s].value, s, heard, lo + 1)
    {
      assert FromHeard(t.jb.table[s].value, s, heard, lo);
      var v: nat :| v in heard && lo <= v && v % CAP == s && t.jb.table[s].value == Packet(v % TWO16, heard[v]);
      assert v != lo;
    }
  }

  /** The lowest number the table may hold. With no late packets it is the cursor; with none
      early every number is played, so one slot round behind the cursor; else it is the
      oldest number that could arrive after the first. */
  function LowestFor(late: nat, early: nat, first: nat, n: nat): int {
    if late == 0 then n else if early == 0 then n - CAP else first - late
  }

  lemma PlayedIsGone(t: Tracked)
    requires t.jb.started && t.jb.next == t.n % TWO16 && Pop(t.jb).1.Frame?
    ensures After(t, Play).jb.table[t.n % CAP].None?
  {
    SlotSurvivesWrap(t.n);
  }

  /** With no late packets the table never holds a number behind the cursor. */
  lemma NoLateRises(t: Tracked, heard: map<nat, seq<Byte>>, early: nat)
    requires Remembers(t, heard, t.n, early) && early < CAP
    ensures Remembers(After(t, Play), heard, After(t, Play).n, early)
  {
    PopKeeps(t, heard, t.n, early);
    FrameWasHeard(t, heard, t.n, early);
    if Pop(t.jb).1.Frame? {
      PlayedIsGone(t);
    }
    if !Pop(t.jb).1.Idle? {
      RaiseLowest(After(t, Play), heard, t.n, early);
    }
  }

  /** With no early packets every pop that returns 1 plays a packet, which leaves its slot. */
  lemma NoEarlyRises(t: Tracked, heard: map<nat, seq<Byte>>)
    requires Remembers(t, heard, t.n - CAP, 0)
    ensures Remembers(After(t, Play), heard, After(t, Play).n - CAP, 0)
  {
    PopKeeps(t, heard, t.n - CAP, 0);
    AnswersWhileClear(t, heard, t.n - CAP, 0);
    if !Pop(t.jb).1.Idle? {
      PlayedIsGone(t);
      if t.n >= CAP {
        Remainder128(t.n - CAP, t.n / CAP - 1, t.n % CAP);
      }
      RaiseLowest(After(t, Play), heard, t.n - CAP, 0);
    }
  }

  lemma PlayKeepsLowest(t: Tracked, heard: map<nat, seq<Byte>>, late: nat, early: nat, first: nat)
    requires Remembers(t, heard, LowestFor(late, early, first, t.n), early) && late + early < CAP
    ensures var t' := After(t, Play); Remembers(t', heard, LowestFor(late, early, first, t'.n), early)
  {
    if late == 0 {
      NoLateRises(t, heard, early);
    } else if early == 0 {
      NoEarlyRises(t, heard);
    } else {
      PopKeeps(t, heard, first - late, early);
    }
  }

  // ----- whole runs

  lemma RunLast(ops: seq<Op>, op: Op)
    ensures Run(Start(), ops + [op]) == After(Run(Start(), ops), op)
    ensures Heard(ops + [op]) ==
            if op.Arrive? && Accepted(op.payload) then Heard(ops)[op.number := op.payload] else Heard(ops)
  {
    var t := Run(Start(), ops);
    RunConcat(Start(), ops, [op]);
    assert Run(t, [op]) == Run(After(t, op), []);
    assert (ops + [op])[..|ops|] == ops;
  }

  lemma SkewLast(ops: seq<Op>, op: Op, late: nat, early: nat)
    ensures WithinSkew(Start(), ops + [op], late, early) <==>
            && WithinSkew(Start(), ops, late, early)
            && (op.Arrive? && Accepted(op.payload) && Run(Start(), ops).jb.started ==>
                  Run(Start(), ops).n - late <= op.number <= Run(Start(), ops).n + early)
  {
    var t := Run(Start(), ops);
    WithinSkewConcat(Start(), ops, [op], late, early);
    assert WithinSkew(After(t, op), [], late, early);
  }

  lemma {:induction false} FirstNumberLast(ops: seq<Op>, op: Op)
    ensures FirstNumber(ops + [op]) ==
            if FirstNumber(ops).Some? then FirstNumber(ops)
            else if op.Arrive? && Accepted(op.payload) then Some(op.number) else None
    decreases |ops|
  {
    if ops == [] {
      assert [op][1..] == [];
    } else {
      assert (ops + [op])[1..] == ops[1..] + [op];
      FirstNumberLast(ops[1..], op);
    }
  }

  /** Before the first arrival there is nothing, and pops do nothing. */
  lemma {:induction false} NothingHeard(ops: seq<Op>)
    requires FirstNumber(ops) == None
    ensures Run(Start(), ops) == Start() && Heard(ops) == map[]
    decreases |ops|
  {
    if ops != [] {
      var before, op := ops[..|ops| - 1], ops[|ops| - 1];
      assert ops == before + [op];
      FirstNumberLast(before, op);
      NothingHeard(before);
      RunLast(before, op);
    }
  }

  lemma FirstIsRemembered(first: nat, payload: seq<Byte>, late: nat, early: nat)
    requires Accepted(payload)
    ensures Remembers(After(Start(), Arrive(first, payload)), map[first := payload],
                      LowestFor(late, early, first, first), early)
    ensures After(Start(), Arrive(first, payload)).n == first
  {
    var t := After(Start(), Arrive(first, payload));
    SlotSurvivesWrap(first);
    ArrivalSlots(Initial(), map[], first, first, payload);
    assert map[][first := payload] == map[first := payload];
    forall s | 0 <= s < CAP && t.jb.table[s].Some?
      ensures FromHeard(t.jb.table[s].value, s, map[first := payload], LowestFor(late, early, first, first))
    {
      assert FromHeard(t.jb.table[s].value, s, map[first := payload], first);
    }
  }

  /** Along any run with late + early <= 127 the table remembers. */
  lemma {:induction false} RunRemembers(ops: seq<Op>, late: nat, early: nat)
    requires late + early < CAP && FirstNumber(ops).Some? && WithinSkew(Start(), ops, late, early)
    ensures var t, first := Run(Start(), ops), FirstNumber(ops).value;
            first <= t.n && Remembers(t, Heard(ops), LowestFor(late, early, first, t.n), early)
    decreases |ops|
  {
    var before, op := ops[..|ops| - 1], ops[|ops| - 1];
    assert ops == before + [op];
    FirstNumberLast(before, op);
    SkewLast(before, op, late, early);
    RunLast(before, op);
    if FirstNumber(before) == None {
      NothingHeard(before);
      FirstIsRemembered(op.number, op.payload, late, early);
      assert map[][op.number := op.payload] == map[op.number := op.payload];
    } else {
      RunRemembers(before, late, early);
      var t, first := Run(Start(), before), FirstNumber(before).value;
      match op
      case Arrive(u, payload) =>
        if Accepted(payload) {
          ArrivalKeeps(t, Heard(before), LowestFor(late, early, first, t.n), late, early, u, payload);
        }
      case Play => PlayKeepsLowest(t, Heard(before), late, early, first);
    }
  }

  // ----- how far a run has come

  lemma {:induction false} PlayedConcat(a: seq<PopResult>, b: seq<PopResult>)
    ensures Played(a + b) == Played(a) + Played(b)
    decreases |a|
  {
    if a == [] {
      assert a + b == b;
    } else {
      assert (a + b)[1..] == a[1..] + b;
      PlayedConcat(a[1..], b);
    }
  }

  lemma OneResult(t: Tracked, op: Op)
    ensures Results(t, [op]) == if op.Play? then [Pop(t.jb).1] else []
  {
    assert Results(After(t, op), []) == [];
  }

  /** The pops of a run from the start that returned 1. */
  function PlayedBy(ops: seq<Op>): seq<PopResult> {
    Played(Results(Start(), ops))
  }

  lemma PlayedByLast(ops: seq<Op>, op: Op)
    ensures var r := Pop(Run(Start(), ops).jb).1;
            PlayedBy(ops + [op]) == PlayedBy(ops) + if op.Play? && !r.Idle? then [r] else []
  {
    var t := Run(Start(), ops);
    RunConcat(Start(), ops, [op]);
    OneResult(t, op);
    PlayedConcat(Results(Start(), ops), Results(t, [op]));
    var r := Pop(t.jb).1;
    assert Played([r]) == if r.Idle? then [] else [r];
  }

  /** The cursor counts the pops that returned 1, from the first number on. */
  lemma {:induction false} CursorCounts(ops: seq<Op>)
    ensures FirstNumber(ops).Some? ==> Run(Start(), ops).n == FirstNumber(ops).value + |PlayedBy(ops)|
    ensures FirstNumber(ops) == None ==> PlayedBy(ops) == []
    decreases |ops|
  {
    if ops != [] {
      var before, op := ops[..|ops| - 1], ops[|ops| - 1];
      assert ops == before + [op];
      CursorCounts(before);
      FirstNumberLast(before, op);
      RunLast(before, op);
      PlayedByLast(before, op);
      if FirstNumber(before) == None {
        NothingHeard(before);
      } else {
        StartedAfterFirst(before);
      }
    }
  }

  lemma {:induction false} StartedAfterFirst(ops: seq<Op>)
    requires FirstNumber(ops).Some?
    ensures Run(Start(), ops).jb.started
    decreases |ops|
  {
    var before, op := ops[..|ops| - 1], ops[|ops| - 1];
    assert ops == before + [op];
    FirstNumberLast(before, op);
    RunLast(before, op);
    if FirstNumber(before).Some? {
      StartedAfterFirst(before);
    }
  }

  lemma PrefixOfRun(a: seq<Op>, b: seq<Op>, late: nat, early: nat)
    requires WithinSkew(Start(), a + b, late, early)
    ensures WithinSkew(Start(), a, late, early)
    ensures |PlayedBy(a)| <= |PlayedBy(a + b)|
  {
    WithinSkewConcat(Start(), a, b, late, early);
    RunConcat(Start(), a, b);
    PlayedConcat(Results(Start(), a), Results(Run(Start(), a), b));
  }

  lemma PrefixToPop(ops: seq<Op>, i: nat, late: nat, early: nat)
    requires i < |ops| && ops[i].Play? && WithinSkew(Start(), ops, late, early)
    ensures WithinSkew(Start(), ops[..i], late, early)
    ensures |PlayedBy(ops[..i] + [Play])| <= |PlayedBy(ops)|
  {
    assert ops == (ops[..i] + [Play]) + ops[i + 1..];
    PrefixOfRun(ops[..i] + [Play], ops[i + 1..], late, early);
    PrefixOfRun(ops[..i], [Play], late, early);
  }

  // ----- the edge of the look-ahead

  /** The slot just behind the cursor, which the last look-ahead number shares, is free or
      holds the number just behind; or something ahead has been heard. */
  ghost predicate EdgeClear(t: Tracked, heard: map<nat, seq<Byte>>) {
    t.n >= 1 ==>
      var behind := t.jb.table[(t.n - 1) % CAP];
      || behind.None?
      || behind.value.seqNo == (t.n - 1) % TWO16
      || exists u | u in heard :: u >= t.n
  }

  /** One more number may be told from the table when the edge is clear. */
  lemma AnswersToEdge(t: Tracked, heard: map<nat, seq<Byte>>, lo: int, early: nat)
    requires Remembers(t, heard, lo, early) && early < CAP && -CAP < lo && t.n + 127 <= lo + TWO16
             && EdgeClear(t, heard)
    ensures Pop(t.jb).1 == Answer(heard, t.n)
  {
    if t.n + 127 < lo + TWO16 {
      AnswersWhileClear(t, heard, lo, early);
    } else {
      HeardIsPlayed(t, heard, lo, early);
      FrameWasHeard(t, heard, lo, early);
      if Pop(t.jb).1.Conceal? {
        EdgeConceals(t, heard, lo, early);
      }
    }
  }

  lemma EdgeConceals(t: Tracked, heard: map<nat, seq<Byte>>, lo: int, early: nat)
    requires Remembers(t, heard, lo, early) && early < CAP && -CAP < lo && t.n + 127 == lo + TWO16
             && EdgeClear(t, heard)
    requires Pop(t.jb).1.Conceal? && t.n !in heard
    ensures exists u | u in heard :: u > t.n
  {
    FutureUnwrapped(t.jb, t.n);
    var u: nat :| t.n < u < t.n + CAP && Holds(t.jb, u);
    if u < lo + TWO16 {
      HoldsIsHeard(t, heard, lo, early, u);
    } else {
      assert u == t.n - 1 + CAP;
      Remainder128(u, (t.n - 1) / CAP + 1, (t.n - 1) % CAP);
      if u % TWO16 == (t.n - 1) % TWO16 {
        SameWordNear(u, t.n - 1);
      }
    }
  }

  lemma ArrivalKeepsEdge(t: Tracked, heard: map<nat, seq<Byte>>, late: nat, early: nat, u: nat, payload: seq<Byte>)
    requires t.jb.started && EdgeClear(t, heard) && 1 <= late && late + early < CAP && Accepted(payload)
    requires t.n - late <= u <= t.n + early
    ensures EdgeClear(After(t, Arrive(u, payload)), heard[u := payload])
  {
    SlotSurvivesWrap(u);
    if t.n >= 1 && u % CAP == (t.n - 1) % CAP {
      SameSlotNear(u, t.n - 1);
    }
    if w :| w in heard && w >= t.n {
      assert w in heard[u := payload];
    }
  }

  lemma PopKeepsEdge(t: Tracked, heard: map<nat, seq<Byte>>)
    requires t.jb.started && t.jb.next == t.n % TWO16 && EdgeClear(t, heard)
    requires Pop(t.jb).1 == Answer(heard, t.n)
    ensures EdgeClear(After(t, Play), heard)
  {
    if Pop(t.jb).1.Frame? {
      PlayedIsGone(t);
    }
  }

  lemma FirstEdge(first: nat, payload: seq<Byte>)
    requires Accepted(payload)
    ensures EdgeClear(After(Start(), Arrive(first, payload)), map[first := payload])
  {
    SlotSurvivesWrap(first);
    if first >= 1 && (first - 1) % CAP == first % CAP {
      SameSlotNear(first - 1, first);
    }
  }

  const LONGEST_RUN := TWO16 - 126

  lemma {:induction false} RunEdge(ops: seq<Op>, late: nat, early: nat)
    requires 1 <= late && late + early < CAP && FirstNumber(ops).Some? && WithinSkew(Start(), ops, late, early)
    requires |PlayedBy(ops)| <= LONGEST_RUN - late
    ensures EdgeClear(Run(Start(), ops), Heard(ops))
    decreases |ops|, 0
  {
    var before, op := ops[..|ops| - 1], ops[|ops| - 1];
    assert ops == before + [op];
    FirstNumberLast(before, op);
    SkewLast(before, op, late, early);
    RunLast(before, op);
    if FirstNumber(before) == None {
      NothingHeard(before);
      FirstEdge(op.number, op.payload);
      assert map[][op.number := op.payload] == map[op.number := op.payload];
    } else {
      PlayedByLast(before, op);
      RunEdge(before, late, early);
      StartedAfterFirst(before);
      var t := Run(Start(), before);
      match op
      case Arrive(u, payload) =>
        if Accepted(payload) {
          ArrivalKeepsEdge(t, Heard(before), late, early, u, payload);
        }
      case Play =>
        if !Pop(t.jb).1.Idle? {
          NextAnswers(before, late, early);
          RunRemembers(before, late, early);
          PopKeepsEdge(t, Heard(before));
        }
    }
  }

  // ----- the theorems

  /** The next pop, when it returns 1 and late numbers are still far below. */
  lemma {:induction false} NextAnswers(ops: seq<Op>, late: nat, early: nat)
    requires 1 <= late && late + early < CAP && FirstNumber(ops).Some? && WithinSkew(Start(), ops, late, early)
    requires |PlayedBy(ops)| < LONGEST_RUN - late
    ensures Pop(Run(Start(), ops).jb).1 == Answer(Heard(ops), Run(Start(), ops).n)
    decreases |ops|, 1
  {
    RunRemembers(ops, late, early);
    RunEdge(ops, late, early);
    CursorCounts(ops);
    var first := FirstNumber(ops).value;
    if early == 0 {
      AnswersWhileClear(Run(Start(), ops), Heard(ops), Run(Start(), ops).n - CAP, early);
    } else {
      AnswersToEdge(Run(Start(), ops), Heard(ops), first - late, early);
    }
  }

  /** Which runs the table is told to be right for: nothing late, or nothing early, or not
      too many numbers played. */
  predicate ShortEnough(late: nat, early: nat, played: nat, bound: int) {
    late == 0 || early == 0 || played <= bound - late
  }

  /** After any run the next pop answers from the record, if it is idle or the run still is
      short enough with it. */
  lemma PopAnswers(ops: seq<Op>, late: nat, early: nat)
    requires late + early < CAP && WithinSkew(Start(), ops, late, early)
    requires ShortEnough(late, early, |PlayedBy(ops + [Play])|, LONGEST_RUN)
    ensures Pop(Run(Start(), ops).jb).1 == Answer(Heard(ops), Run(Start(), ops).n)
  {
    var t := Run(Start(), ops);
    if FirstNumber(ops) == None {
      NothingHeard(ops);
    } else {
      RunRemembers(ops, late, early);
      var lo := LowestFor(late, early, FirstNumber(ops).value, t.n);
      HeardIsPlayed(t, Heard(ops), lo, early);
      if !Pop(t.jb).1.Idle? {
        if late == 0 || early == 0 {
          AnswersWhileClear(t, Heard(ops), lo, early);
        } else {
          PlayedByLast(ops, Play);
          NextAnswers(ops, late, early);
        }
      }
    }
  }

  /** The record theorem. In a run whose accepted arrivals are at most `late` behind and
      `early` ahead of the cursor, late + early <= 127, every pop answers from what has
      arrived before it: the last payload accepted for its number, one concealment if only
      later numbers were heard, else nothing. If packets may be both late and early, this
      holds while no more than 65410 - late numbers are played. */
  lemma AnswersFromRecord(ops: seq<Op>, late: nat, early: nat)
    requires late + early < CAP && WithinSkew(Start(), ops, late, early)
    requires ShortEnough(late, early, |PlayedBy(ops)|, LONGEST_RUN)
    ensures AnswersHeard(ops)
  {
    forall i | 0 <= i < |ops| && ops[i].Play?
      ensures Pop(Run(Start(), ops[..i]).jb).1 == Answer(Heard(ops[..i]), Run(Start(), ops[..i]).n)
    {
      PrefixToPop(ops, i, late, early);
      PopAnswers(ops[..i], late, early);
    }
  }

  lemma PopPlaysHeard(ops: seq<Op>, late: nat, early: nat)
    requires late + early < CAP && WithinSkew(Start(), ops, late, early)
    requires ShortEnough(late, early, |PlayedBy(ops + [Play])|, TWO16)
    ensures Pop(Run(Start(), ops).jb).1 in {Idle, Verdict(Lookup(Heard(ops), Run(Start(), ops).n))}
  {
    var t := Run(Start(), ops);
    if FirstNumber(ops) == None {
      NothingHeard(ops);
    } else if !Pop(t.jb).1.Idle? {
      RunRemembers(ops, late, early);
      var lo := LowestFor(late, early, FirstNumber(ops).value, t.n);
      PlayedByLast(ops, Play);
      CursorCounts(ops);
      HeardIsPlayed(t, Heard(ops), lo, early);
      FrameWasHeard(t, Heard(ops), lo, early);
    }
  }

  /** What is played, concealments in excess aside, stays right even longer: while no more than
      65536 - late numbers are played. */
  lemma FramesFromRecord(ops: seq<Op>, late: nat, early: nat)
    requires late + early < CAP && WithinSkew(Start(), ops, late, early)
    requires ShortEnough(late, early, |PlayedBy(ops)|, TWO16)
    ensures FramesHeard(ops)
  {
    forall i | 0 <= i < |ops| && ops[i].Play?
      ensures Pop(Run(Start(), ops[..i]).jb).1 in {Idle, Verdict(Lookup(Heard(ops[..i]), Run(Start(), ops[..i]).n))}
    {
      PrefixToPop(ops, i, late, early);
      PopPlaysHeard(ops[..i], late, early);
    }
  }

  // ----- the record is what arrived last

  lemma {:induction false} LastArrivedAppend(ops: seq<Op>, op: Op, u: nat, known: Option<seq<Byte>>)
    ensures LastArrived(ops + [op], u, known) ==
            if op.Arrive? && op.number == u && Accepted(op.payload) then Some(op.payload)
            else LastArrived(ops, u, known)
    decreases |ops|
  {
    if ops == [] {
      assert [op][1..] == [];
    } else {
      assert (ops + [op])[1..] == ops[1..] + [op];
      var op0 := ops[0];
      var known' := if op0.Arrive? && op0.number == u && Accepted(op0.payload) then Some(op0.payload) else known;
      LastArrivedAppend(ops[1..], op, u, known');
    }
  }

  lemma {:induction false} HeardIsLastArrived(ops: seq<Op>, u: nat)
    ensures Lookup(Heard(ops), u) == LastArrived(ops, u, None)
    decreases |ops|
  {
    if ops != [] {
      var before, op := ops[..|ops| - 1], ops[|ops| - 1];
      assert ops == before + [op];
      HeardIsLastArrived(before, u);
      LastArrivedAppend(before, op, u, None);
    }
  }
}
