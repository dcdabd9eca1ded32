/** End to end: one engine captures and sends, another receives. What the receiver's decoder
    is fed and when, stated in terms of what the sender's encoder produced and of which
    datagrams have been delivered. */
module Loopback {
  import opened Words
  import opened Packets
  import opened JitterModel
  import opened JitterRuns
  import opened JitterPlayout
  import opened JitterHistory
  import opened EngineModel
  import opened EngineSequence
  import opened EngineSpeakers
  import opened EngineReception
  import EngineDecoding

  /** The steps of a speaker as operations on its jitter buffer, each arrival under an
      unwrapped number. */
  function OpsOf(steps: seq<SpeakerStep>, numbers: seq<nat>): seq<Op>
    requires |steps| == |numbers|
  {
    if steps == [] then []
    else
      var n := |steps| - 1;
      OpsOf(steps[..n], numbers[..n]) + match steps[n]
                                        case Got(v, _) => [Arrive(numbers[n], v.payload)]
                                        case Ticked(_) => [Play]
                                        case Nothing => []
  }

  ghost predicate Labelled(steps: seq<SpeakerStep>, numbers: seq<nat>) {
    |steps| == |numbers| && forall i | 0 <= i < |steps| && steps[i].Got? :: steps[i].v.seqNo == numbers[i] % TWO16
  }

  ghost predicate Follows(sp: Speaker, ops: seq<Op>) {
    && sp.jitter == JitterRuns.Run(Start(), ops).jb
    && sp.decoderLog == PlayedBy(ops)
  }

  lemma FollowsOne(setup: Setup, sp: Speaker, ops: seq<Op>, step: SpeakerStep, op: Op)
    requires Follows(sp, ops)
    requires match step
             case Got(v, _) => op.Arrive? && op.payload == v.payload && v.seqNo == op.number % TWO16
             case Ticked(_) => op.Play?
             case Nothing => false
    ensures Follows(AfterStep(setup, sp, step), ops + [op])
  {
    RunLast(ops, op);
    PlayedByLast(ops, op);
  }

  /** The decoder's inputs are the pops that returned 1 of the speaker's jitter buffer. */
  lemma {:induction false} SpeakerFollowsJitter(setup: Setup, steps: seq<SpeakerStep>, numbers: seq<nat>)
    requires Labelled(steps, numbers)
    ensures Follows(RunSpeaker(setup, NewSpeaker(setup), steps), OpsOf(steps, numbers))
    decreases |steps|
  {
    if steps != [] {
      var n := |steps| - 1;
      var ops := OpsOf(steps[..n], numbers[..n]);
      SpeakerFollowsJitter(setup, steps[..n], numbers[..n]);
      var before := RunSpeaker(setup, NewSpeaker(setup), steps[..n]);
      match steps[n]
      case Got(v, _) => FollowsOne(setup, before, ops, steps[n], Arrive(numbers[n], v.payload));
      case Ticked(_) => FollowsOne(setup, before, ops, steps[n], Play);
      case Nothing => assert ops + [] == ops;
    }
  }

  // ----- the sender's numbers

  /** The fates of the encoded frames, in order: the index is the unwrapped number. */
  function Numbered(fates: seq<Fate>): seq<Fate> {
    if fates == [] then []
    else
      var k := |fates| - 1;
      Numbered(fates[..k]) + if WasEncoded(fates[k]) then [fates[k]] else []
  }

  lemma {:induction false} NumberedCount(fates: seq<Fate>)
    ensures |Numbered(fates)| == EncodedCount(fates)
  {
    if fates != [] {
      NumberedCount(fates[..|fates| - 1]);
    }
  }

  /** A frame's fate is found under its number. */
  lemma {:induction false} FoundUnderNumber(fates: seq<Fate>, j: nat)
    requires j < |fates| && WasEncoded(fates[j])
    ensures Number(fates, j) < |Numbered(fates)| && Numbered(fates)[Number(fates, j)] == fates[j]
    decreases |fates|
  {
    var k := |fates| - 1;
    if j < k {
      FoundUnderNumber(fates[..k], j);
      assert fates[..k][..j] == fates[..j];
    } else {
      NumberedCount(fates[..k]);
    }
  }

  /** Every numbered frame has an acceptable payload and its number on the wire. */
  ghost predicate WellNumbered(sent: seq<Fate>) {
    forall u | 0 <= u < |sent| ::
      WasEncoded(sent[u]) && Accepted(sent[u].voice.payload) && sent[u].voice.seqNo == u % TWO16
  }

  lemma {:induction false} FittingIsWellNumbered(setup: Setup, frames: seq<PcmFrame>, fates: seq<Fate>)
    requires Sound(setup) && |fates| <= |frames| && forall n | 0 < n <= |fates| :: FateFits(setup, frames, fates[..n])
    ensures WellNumbered(Numbered(fates))
    decreases |fates|
  {
    if fates != [] {
      var k := |fates| - 1;
      var rest := fates[..k];
      forall n | 0 < n <= |rest|
        ensures FateFits(setup, frames, rest[..n])
      {
        assert rest[..n] == fates[..n];
      }
      FittingIsWellNumbered(setup, frames, rest);
      assert fates[..|fates|] == fates && FateFits(setup, frames, fates);
      NumberedCount(rest);
    }
  }

  lemma SentIsWellNumbered(setup: Setup, calls: seq<Call>)
    requires Sound(setup) && ReadsBack(setup.format)
    ensures WellNumbered(Numbered(History(setup, calls).fates))
  {
    RunConserves(setup, calls);
    var t := History(setup, calls);
    FittingIsWellNumbered(setup, t.captured, t.fates);
  }

  /** The payload of a number is what the encoder made of the captured frames up to that one,
      gated frames left out. */
  lemma PayloadsAreEncodedCapture(setup: Setup, calls: seq<Call>, j: nat)
    requires Sound(setup) && ReadsBack(setup.format)
    requires var t := History(setup, calls); j < |t.fates| && WasEncoded(t.fates[j])
    ensures var t := History(setup, calls);
            && j < |t.captured|
            && setup.encode(EncoderInputs(t.captured, t.fates[..j + 1])) == Encoded(t.fates[j].voice.payload)
            && Number(t.fates, j) < |Numbered(t.fates)|
            && Numbered(t.fates)[Number(t.fates, j)] == t.fates[j]
  {
    RunConserves(setup, calls);
    var t := History(setup, calls);
    assert FateFits(setup, t.captured, t.fates[..j + 1]);
    FoundUnderNumber(t.fates, j);
  }

  // ----- the network

  /** Every packet a speaker got is one the sender queued, labelled with its number. The
      network may lose, repeat and reorder them. */
  ghost predicate Carries(sent: seq<Fate>, steps: seq<SpeakerStep>, numbers: seq<nat>) {
    && |steps| == |numbers|
    && forall i | 0 <= i < |steps| && steps[i].Got? :: numbers[i] < |sent| && sent[numbers[i]] == Queued(steps[i].v)
  }

  ghost predicate Arrived(steps: seq<SpeakerStep>, numbers: seq<nat>, u: nat)
    requires |steps| == |numbers|
  {
    exists i :: 0 <= i < |steps| && steps[i].Got? && numbers[i] == u
  }

  lemma ArrivedStep(steps: seq<SpeakerStep>, numbers: seq<nat>, u: nat)
    requires |steps| == |numbers| && steps != []
    ensures var n := |steps| - 1;
            Arrived(steps, numbers, u) <==> Arrived(steps[..n], numbers[..n], u) || (steps[n].Got? && numbers[n] == u)
  {
    var n := |steps| - 1;
    if i :| 0 <= i < |steps| && steps[i].Got? && numbers[i] == u {
      if i < n {
        assert steps[..n][i].Got? && numbers[..n][i] == u;
      }
    }
    if Arrived(steps[..n], numbers[..n], u) {
      var i :| 0 <= i < n && steps[..n][i].Got? && numbers[..n][i] == u;
      assert steps[i].Got? && numbers[i] == u;
    }
  }

  lemma CarriesPrefix(sent: seq<Fate>, steps: seq<SpeakerStep>, numbers: seq<nat>)
    requires Carries(sent, steps, numbers) && steps != []
    ensures Carries(sent, steps[..|steps| - 1], numbers[..|steps| - 1])
  {
  }

  lemma CarriedIsLabelled(sent: seq<Fate>, steps: seq<SpeakerStep>, numbers: seq<nat>)
    requires WellNumbered(sent) && Carries(sent, steps, numbers)
    ensures Labelled(steps, numbers)
  {
  }

  /** What the buffer's record knows about a number is whether its packet arrived, and then
      the payload the sender gave it. */
  lemma {:induction false} HeardIsSent(sent: seq<Fate>, steps: seq<SpeakerStep>, numbers: seq<nat>, u: nat)
    requires WellNumbered(sent) && Carries(sent, steps, numbers)
    ensures u in Heard(OpsOf(steps, numbers)) <==> Arrived(steps, numbers, u)
    ensures Arrived(steps, numbers, u) ==>
              u < |sent| && sent[u].Queued? && Heard(OpsOf(steps, numbers))[u] == sent[u].voice.payload
    decreases |steps|
  {
    if steps != [] {
      var n := |steps| - 1;
      var ops := OpsOf(steps[..n], numbers[..n]);
      CarriesPrefix(sent, steps, numbers);
      HeardIsSent(sent, steps[..n], numbers[..n], u);
      ArrivedStep(steps, numbers, u);
      match steps[n]
      case Got(v, _) => RunLast(ops, Arrive(numbers[n], v.payload));
      case Ticked(_) => RunLast(ops, Play);
      case Nothing => assert ops + [] == ops;
    }
  }

  // ----- what the decoder should be fed

  /** At the turn of number `u`, given what has arrived so far: its payload, one concealment
      if only later packets are there, else nothing. */
  ghost function Expected(sent: seq<Fate>, steps: seq<SpeakerStep>, numbers: seq<nat>, u: nat): PopResult
    requires WellNumbered(sent) && |steps| == |numbers|
  {
    if u < |sent| && Arrived(steps, numbers, u) then Frame(sent[u].voice.payload)
    else if exists w: nat :: w > u && Arrived(steps, numbers, w) then Conceal
    else Idle
  }

  /** Number after number from `first`, one turn per tick. */
  ghost function ExpectedFeed(sent: seq<Fate>, steps: seq<SpeakerStep>, numbers: seq<nat>, first: nat): seq<PopResult>
    requires WellNumbered(sent) && |steps| == |numbers|
  {
    if steps == [] then []
    else
      var n := |steps| - 1;
      var before := ExpectedFeed(sent, steps[..n], numbers[..n], first);
      if steps[n].Ticked? then before + Fed(Expected(sent, steps[..n], numbers[..n], first + |before|)) else before
  }

  function Fed(r: PopResult): seq<PopResult> {
    if r.Idle? then [] else [r]
  }

  lemma ExpectedIsAnswer(sent: seq<Fate>, steps: seq<SpeakerStep>, numbers: seq<nat>, u: nat)
    requires WellNumbered(sent) && Carries(sent, steps, numbers)
    ensures Expected(sent, steps, numbers, u) == Answer(Heard(OpsOf(steps, numbers)), u)
  {
    var heard := Heard(OpsOf(steps, numbers));
    HeardIsSent(sent, steps, numbers, u);
    forall w: nat
      ensures w in heard <==> Arrived(steps, numbers, w)
    {
      HeardIsSent(sent, steps, numbers, w);
    }
  }

  /** What the jitter buffer plays next, after any steps, is what is expected. */
  lemma NextIsExpected(sent: seq<Fate>, steps: seq<SpeakerStep>, numbers: seq<nat>, first: nat, late: nat, early: nat)
    requires WellNumbered(sent) && Carries(sent, steps, numbers)
    requires FirstNumber(OpsOf(steps, numbers)) in {None, Some(first)}
    requires late + early < CAP && WithinSkew(Start(), OpsOf(steps, numbers), late, early)
    requires ShortEnough(late, early, |PlayedBy(OpsOf(steps, numbers) + [Play])|, LONGEST_RUN)
    ensures var ops := OpsOf(steps, numbers);
            Pop(JitterRuns.Run(Start(), ops).jb).1 == Expected(sent, steps, numbers, first + |PlayedBy(ops)|)
  {
    var ops := OpsOf(steps, numbers);
    PopAnswers(ops, late, early);
    CursorCounts(ops);
    ExpectedIsAnswer(sent, steps, numbers, first + |PlayedBy(ops)|);
    if FirstNumber(ops) == None {
      NothingHeard(ops);
    }
  }

  /** A run within its skew that is short enough, its first number being `first` if any. */
  ghost predicate InRange(ops: seq<Op>, first: nat, late: nat, early: nat) {
    && FirstNumber(ops) in {None, Some(first)}
    && late + early < CAP && WithinSkew(Start(), ops, late, early)
    && ShortEnough(late, early, |PlayedBy(ops)|, LONGEST_RUN)
  }

  lemma OpsStep(steps: seq<SpeakerStep>, numbers: seq<nat>)
    requires |steps| == |numbers| && steps != []
    ensures var n := |steps| - 1;
            var ops := OpsOf(steps[..n], numbers[..n]);
            match steps[n]
            case Got(v, _) => OpsOf(steps, numbers) == ops + [Arrive(numbers[n], v.payload)]
            case Ticked(_) => OpsOf(steps, numbers) == ops + [Play]
            case Nothing => OpsOf(steps, numbers) == ops
  {
  }

  lemma InRangeBefore(steps: seq<SpeakerStep>, numbers: seq<nat>, first: nat, late: nat, early: nat)
    requires |steps| == |numbers| && steps != [] && InRange(OpsOf(steps, numbers), first, late, early)
    ensures InRange(OpsOf(steps[..|steps| - 1], numbers[..|steps| - 1]), first, late, early)
    ensures !steps[|steps| - 1].Ticked? ==>
              PlayedBy(OpsOf(steps, numbers)) == PlayedBy(OpsOf(steps[..|steps| - 1], numbers[..|steps| - 1]))
  {
    var n := |steps| - 1;
    var ops := OpsOf(steps[..n], numbers[..n]);
    OpsStep(steps, numbers);
    match steps[n]
    case Got(v, _) => BeforeLast(ops, Arrive(numbers[n], v.payload), late, early);
    case Ticked(_) => BeforeLast(ops, Play, late, early);
    case Nothing =>
  }

  /** What the jitter buffer has played is what was expected. */
  lemma {:induction false} FeedIsExpected(sent: seq<Fate>, steps: seq<SpeakerStep>, numbers: seq<nat>, first: nat,
                                          late: nat, early: nat)
    requires WellNumbered(sent) && Carries(sent, steps, numbers) && InRange(OpsOf(steps, numbers), first, late, early)
    ensures PlayedBy(OpsOf(steps, numbers)) == ExpectedFeed(sent, steps, numbers, first)
    decreases |steps|
  {
    if steps != [] {
      var n := |steps| - 1;
      CarriesPrefix(sent, steps, numbers);
      InRangeBefore(steps, numbers, first, late, early);
      FeedIsExpected(sent, steps[..n], numbers[..n], first, late, early);
      if steps[n].Ticked? {
        TickIsFed(sent, steps, numbers, first, late, early);
      }
    }
  }

  lemma TickFeeds(sent: seq<Fate>, steps: seq<SpeakerStep>, numbers: seq<nat>, first: nat, late: nat, early: nat)
    requires WellNumbered(sent) && |steps| == |numbers| && steps != [] && steps[|steps| - 1].Ticked?
    requires var n := |steps| - 1;
             Carries(sent, steps[..n], numbers[..n]) && InRange(OpsOf(steps[..n], numbers[..n]), first, late, early)
    requires ShortEnough(late, early, |PlayedBy(OpsOf(steps, numbers))|, LONGEST_RUN)
    ensures var n := |steps| - 1;
            var log := PlayedBy(OpsOf(steps[..n], numbers[..n]));
            PlayedBy(OpsOf(steps, numbers)) == log + Fed(Expected(sent, steps[..n], numbers[..n], first + |log|))
  {
    OpsStep(steps, numbers);
    NextIsFed(sent, steps[..|steps| - 1], numbers[..|steps| - 1], first, late, early);
  }

  lemma TickIsFed(sent: seq<Fate>, steps: seq<SpeakerStep>, numbers: seq<nat>, first: nat, late: nat, early: nat)
    requires WellNumbered(sent) && |steps| == |numbers| && steps != [] && steps[|steps| - 1].Ticked?
    requires var n := |steps| - 1;
             && Carries(sent, steps[..n], numbers[..n]) && InRange(OpsOf(steps[..n], numbers[..n]), first, late, early)
             && PlayedBy(OpsOf(steps[..n], numbers[..n])) == ExpectedFeed(sent, steps[..n], numbers[..n], first)
    requires ShortEnough(late, early, |PlayedBy(OpsOf(steps, numbers))|, LONGEST_RUN)
    ensures PlayedBy(OpsOf(steps, numbers)) == ExpectedFeed(sent, steps, numbers, first)
  {
    TickFeeds(sent, steps, numbers, first, late, early);
  }

  lemma NextIsFed(sent: seq<Fate>, steps: seq<SpeakerStep>, numbers: seq<nat>, first: nat, late: nat, early: nat)
    requires WellNumbered(sent) && Carries(sent, steps, numbers) && InRange(OpsOf(steps, numbers), first, late, early)
    requires ShortEnough(late, early, |PlayedBy(OpsOf(steps, numbers) + [Play])|, LONGEST_RUN)
    ensures var ops := OpsOf(steps, numbers);
            PlayedBy(ops + [Play]) == PlayedBy(ops) + Fed(Expected(sent, steps, numbers, first + |PlayedBy(ops)|))
  {
    NextIsExpected(sent, steps, numbers, first, late, early);
    PlayedByLast(OpsOf(steps, numbers), Play);
  }

  lemma BeforeLast(ops: seq<Op>, op: Op, late: nat, early: nat)
    requires WithinSkew(Start(), ops + [op], late, early)
    ensures WithinSkew(Start(), ops, late, early)
    ensures FirstNumber(ops) in {None, FirstNumber(ops + [op])}
    ensures var r := Pop(JitterRuns.Run(Start(), ops).jb).1;
            PlayedBy(ops + [op]) == PlayedBy(ops) + if op.Play? then Fed(r) else []
  {
    SkewLast(ops, op, late, early);
    FirstNumberLast(ops, op);
    PlayedByLast(ops, op);
  }

  // ----- arrivals on time

  /** The unwrapped number the buffer is to play next. */
  function Cursor(steps: seq<SpeakerStep>, numbers: seq<nat>): nat
    requires |steps| == |numbers|
  {
    JitterRuns.Run(Start(), OpsOf(steps, numbers)).n
  }

  /** The packet was delivered when the buffer had not gone past its number. */
  ghost predicate OnTime(steps: seq<SpeakerStep>, numbers: seq<nat>, u: nat)
    requires |steps| == |numbers|
  {
    exists i :: 0 <= i < |steps| && steps[i].Got? && numbers[i] == u && Cursor(steps[..i], numbers[..i]) <= u
  }

  lemma OnTimeStep(steps: seq<SpeakerStep>, numbers: seq<nat>, u: nat)
    requires |steps| == |numbers| && steps != []
    ensures var n := |steps| - 1;
            OnTime(steps, numbers, u) <==>
            || OnTime(steps[..n], numbers[..n], u)
            || (steps[n].Got? && numbers[n] == u && Cursor(steps[..n], numbers[..n]) <= u)
  {
    var n := |steps| - 1;
    var earlier, labels := steps[..n], numbers[..n];
    if i :| 0 <= i < |steps| && steps[i].Got? && numbers[i] == u && Cursor(steps[..i], numbers[..i]) <= u {
      if i < n {
        assert earlier[..i] == steps[..i] && labels[..i] == numbers[..i];
        assert earlier[i].Got? && labels[i] == u;
      }
    }
    if OnTime(earlier, labels, u) {
      var i :| 0 <= i < n && earlier[i].Got? && labels[i] == u && Cursor(earlier[..i], labels[..i]) <= u;
      assert earlier[..i] == steps[..i] && labels[..i] == numbers[..i];
      assert steps[i].Got? && numbers[i] == u;
    }
  }

  lemma CursorGrows(steps: seq<SpeakerStep>, numbers: seq<nat>)
    requires |steps| == |numbers| && steps != []
    ensures Cursor(steps[..|steps| - 1], numbers[..|steps| - 1]) <= Cursor(steps, numbers)
  {
    var n := |steps| - 1;
    var ops := OpsOf(steps[..n], numbers[..n]);
    OpsStep(steps, numbers);
    match steps[n]
    case Got(v, _) => RunLast(ops, Arrive(numbers[n], v.payload)); NotStartedAtZero(ops);
    case Ticked(_) => RunLast(ops, Play);
    case Nothing =>
  }

  lemma NotStartedAtZero(ops: seq<Op>)
    ensures !JitterRuns.Run(Start(), ops).jb.started ==> JitterRuns.Run(Start(), ops).n == 0
  {
    if FirstNumber(ops) == None {
      NothingHeard(ops);
    } else {
      StartedAfterFirst(ops);
    }
  }

  /** What has arrived before its turn is over has arrived on time. */
  lemma {:induction false} ArrivedBeforeTurn(steps: seq<SpeakerStep>, numbers: seq<nat>, u: nat)
    requires |steps| == |numbers| && Cursor(steps, numbers) <= u
    ensures Arrived(steps, numbers, u) <==> OnTime(steps, numbers, u)
    decreases |steps|
  {
    if steps != [] {
      CursorGrows(steps, numbers);
      ArrivedBeforeTurn(steps[..|steps| - 1], numbers[..|steps| - 1], u);
      ArrivedStep(steps, numbers, u);
      OnTimeStep(steps, numbers, u);
    }
  }

  /** With no late packets, what arrives arrives on time. */
  lemma {:induction false} NoneLateOnTime(sent: seq<Fate>, steps: seq<SpeakerStep>, numbers: seq<nat>, early: nat,
                                          u: nat)
    requires WellNumbered(sent) && Carries(sent, steps, numbers) && WithinSkew(Start(), OpsOf(steps, numbers), 0, early)
    ensures Arrived(steps, numbers, u) <==> OnTime(steps, numbers, u)
    decreases |steps|
  {
    if steps != [] {
      var n := |steps| - 1;
      var ops := OpsOf(steps[..n], numbers[..n]);
      CarriesPrefix(sent, steps, numbers);
      OpsStep(steps, numbers);
      match steps[n] {
        case Got(v, _) => SkewLast(ops, Arrive(numbers[n], v.payload), 0, early); NotStartedAtZero(ops);
        case Ticked(_) => SkewLast(ops, Play, 0, early);
        case Nothing =>
      }
      NoneLateOnTime(sent, steps[..n], numbers[..n], early, u);
      ArrivedStep(steps, numbers, u);
      OnTimeStep(steps, numbers, u);
    }
  }

  // ----- concealments

  /** The numbers played and concealed are those that were on time and not, and a number is
      concealed only once a later one has arrived. */
  ghost predicate PlayedOnTime(steps: seq<SpeakerStep>, numbers: seq<nat>, first: nat, log: seq<PopResult>)
    requires |steps| == |numbers|
  {
    forall m | 0 <= m < |log| :: OneOnTime(steps, numbers, first + m, log[m])
  }

  ghost predicate OneOnTime(steps: seq<SpeakerStep>, numbers: seq<nat>, u: nat, r: PopResult)
    requires |steps| == |numbers|
  {
    && (r == Conceal <==> !OnTime(steps, numbers, u))
    && (r == Conceal ==> exists w: nat :: w > u && Arrived(steps, numbers, w))
  }

  lemma {:induction false} FeedIsOnTime(sent: seq<Fate>, steps: seq<SpeakerStep>, numbers: seq<nat>, first: nat,
                                        late: nat, early: nat)
    requires WellNumbered(sent) && Carries(sent, steps, numbers) && InRange(OpsOf(steps, numbers), first, late, early)
    ensures PlayedOnTime(steps, numbers, first, PlayedBy(OpsOf(steps, numbers)))
    decreases |steps|
  {
    if steps != [] {
      var n := |steps| - 1;
      CarriesPrefix(sent, steps, numbers);
      InRangeBefore(steps, numbers, first, late, early);
      FeedIsOnTime(sent, steps[..n], numbers[..n], first, late, early);
      CursorCounts(OpsOf(steps[..n], numbers[..n]));
      PastStaysOnTime(steps, numbers, first, PlayedBy(OpsOf(steps[..n], numbers[..n])));
      if steps[n].Ticked? {
        TickIsOnTime(sent, steps, numbers, first, late, early);
      }
    }
  }

  /** What comes later changes nothing about the numbers already passed. */
  lemma PastStaysOnTime(steps: seq<SpeakerStep>, numbers: seq<nat>, first: nat, log: seq<PopResult>)
    requires |steps| == |numbers| && steps != []
    requires PlayedOnTime(steps[..|steps| - 1], numbers[..|steps| - 1], first, log)
    requires log != [] ==> Cursor(steps[..|steps| - 1], numbers[..|steps| - 1]) == first + |log|
    ensures PlayedOnTime(steps, numbers, first, log)
  {
    forall m | 0 <= m < |log|
      ensures OneOnTime(steps, numbers, first + m, log[m])
    {
      assert OneOnTime(steps[..|steps| - 1], numbers[..|steps| - 1], first + m, log[m]);
      OnTimeStep(steps, numbers, first + m);
      if log[m] == Conceal {
        var w: nat :| w > first + m && Arrived(steps[..|steps| - 1], numbers[..|steps| - 1], w);
        ArrivedStep(steps, numbers, w);
      }
    }
  }

  lemma TickIsOnTime(sent: seq<Fate>, steps: seq<SpeakerStep>, numbers: seq<nat>, first: nat, late: nat, early: nat)
    requires WellNumbered(sent) && |steps| == |numbers| && steps != [] && steps[|steps| - 1].Ticked?
    requires var n := |steps| - 1;
             && Carries(sent, steps[..n], numbers[..n]) && InRange(OpsOf(steps[..n], numbers[..n]), first, late, early)
             && PlayedOnTime(steps, numbers, first, PlayedBy(OpsOf(steps[..n], numbers[..n])))
    requires ShortEnough(late, early, |PlayedBy(OpsOf(steps, numbers))|, LONGEST_RUN)
    ensures PlayedOnTime(steps, numbers, first, PlayedBy(OpsOf(steps, numbers)))
  {
    var n := |steps| - 1;
    var log := PlayedBy(OpsOf(steps[..n], numbers[..n]));
    TickFeeds(sent, steps, numbers, first, late, early);
    NextIsOnTime(sent, steps, numbers, first);
    OneMoreOnTime(steps, numbers, first, log, Expected(sent, steps[..n], numbers[..n], first + |log|));
  }

  /** The number a tick takes, if any packet has arrived. */
  lemma NextIsOnTime(sent: seq<Fate>, steps: seq<SpeakerStep>, numbers: seq<nat>, first: nat)
    requires WellNumbered(sent) && |steps| == |numbers| && steps != [] && steps[|steps| - 1].Ticked?
    requires var n := |steps| - 1;
             && Carries(sent, steps[..n], numbers[..n])
             && FirstNumber(OpsOf(steps[..n], numbers[..n])) in {None, Some(first)}
    ensures var n := |steps| - 1;
            var u := first + |PlayedBy(OpsOf(steps[..n], numbers[..n]))|;
            var r := Expected(sent, steps[..n], numbers[..n], u);
            r.Idle? || OneOnTime(steps, numbers, u, r)
  {
    var n := |steps| - 1;
    var ops := OpsOf(steps[..n], numbers[..n]);
    var u := first + |PlayedBy(ops)|;
    CursorCounts(ops);
    if FirstNumber(ops) == None {
      NothingHeard(ops);
      ExpectedIsAnswer(sent, steps[..n], numbers[..n], u);
    } else {
      TurnIsOnTime(sent, steps, numbers, u);
    }
  }

  lemma OneMoreOnTime(steps: seq<SpeakerStep>, numbers: seq<nat>, first: nat, log: seq<PopResult>, r: PopResult)
    requires |steps| == |numbers| && PlayedOnTime(steps, numbers, first, log)
    requires r.Idle? || OneOnTime(steps, numbers, first + |log|, r)
    ensures PlayedOnTime(steps, numbers, first, log + Fed(r))
  {
  }

  /** A number has its turn. */
  lemma TurnIsOnTime(sent: seq<Fate>, steps: seq<SpeakerStep>, numbers: seq<nat>, u: nat)
    requires WellNumbered(sent) && |steps| == |numbers| && steps != [] && steps[|steps| - 1].Ticked?
    requires var n := |steps| - 1; Carries(sent, steps[..n], numbers[..n]) && Cursor(steps[..n], numbers[..n]) == u
    ensures var r := Expected(sent, steps[..|steps| - 1], numbers[..|steps| - 1], u);
            r.Idle? || OneOnTime(steps, numbers, u, r)
  {
    var earlier, labels := steps[..|steps| - 1], numbers[..|steps| - 1];
    HeardIsSent(sent, earlier, labels, u);
    ArrivedBeforeTurn(earlier, labels, u);
    OnTimeStep(steps, numbers, u);
    if Expected(sent, earlier, labels, u).Conceal? {
      var w: nat :| w > u && Arrived(earlier, labels, w);
      ArrivedStep(steps, numbers, w);
    }
  }

  /** No queued packet is missing: with a packet, all queued ones before it (from the first
      on) were delivered too, and on time. */
  ghost predicate NoneMissed(sent: seq<Fate>, steps: seq<SpeakerStep>, numbers: seq<nat>, first: nat)
    requires |steps| == |numbers|
  {
    forall u: nat, w: nat | first <= u < w && u < |sent| && sent[u].Queued? && Arrived(steps, numbers, w) ::
      OnTime(steps, numbers, u)
  }

  /** The same without regard to time. */
  ghost predicate NoneLost(sent: seq<Fate>, steps: seq<SpeakerStep>, numbers: seq<nat>, first: nat)
    requires |steps| == |numbers|
  {
    forall u: nat, w: nat | first <= u < w && u < |sent| && sent[u].Queued? && Arrived(steps, numbers, w) ::
      Arrived(steps, numbers, u)
  }

  /** Then the concealments are exactly at the dropped numbers. */
  lemma OnlyDroppedConcealed(sent: seq<Fate>, steps: seq<SpeakerStep>, numbers: seq<nat>, first: nat,
                             log: seq<PopResult>)
    requires WellNumbered(sent) && |steps| == |numbers| && NoneMissed(sent, steps, numbers, first)
    requires AllFedOrConcealed(sent, first, log) && PlayedOnTime(steps, numbers, first, log)
    ensures AllFedUnlessDropped(sent, first, log)
  {
    forall m | 0 <= m < |log|
      ensures FedUnlessDropped(sent, first + m, log[m])
    {
      assert FedOrConcealed(sent, first + m, log[m]) && WasEncoded(sent[first + m]);
    }
  }

  /** The number's frame was fed as its payload, or, if the sender dropped it for a full
      outgoing queue, as one concealment. */
  ghost predicate FedUnlessDropped(sent: seq<Fate>, u: nat, r: PopResult)
    requires WellNumbered(sent)
  {
    u < |sent| && r == if sent[u].DroppedFull? then Conceal else Frame(sent[u].voice.payload)
  }

  /** Every number fed is one the sender gave; it is fed as its payload or concealed; dropped
      ones are always concealed. */
  ghost predicate FedOrConcealed(sent: seq<Fate>, u: nat, r: PopResult)
    requires WellNumbered(sent)
  {
    && u < |sent|
    && r in {Conceal, Frame(sent[u].voice.payload)}
    && (sent[u].DroppedFull? ==> r == Conceal)
  }

  lemma ExpectedIsSent(sent: seq<Fate>, steps: seq<SpeakerStep>, numbers: seq<nat>, u: nat)
    requires WellNumbered(sent) && Carries(sent, steps, numbers)
    ensures var r := Expected(sent, steps, numbers, u);
            r.Idle? || FedOrConcealed(sent, u, r)
  {
    if u < |sent| && Arrived(steps, numbers, u) {
      HeardIsSent(sent, steps, numbers, u);
    } else if w: nat :| w > u && Arrived(steps, numbers, w) {
      HeardIsSent(sent, steps, numbers, w);
    }
  }

  ghost predicate AllFedOrConcealed(sent: seq<Fate>, first: nat, log: seq<PopResult>)
    requires WellNumbered(sent)
  {
    forall m | 0 <= m < |log| :: FedOrConcealed(sent, first + m, log[m])
  }

  ghost predicate AllFedUnlessDropped(sent: seq<Fate>, first: nat, log: seq<PopResult>)
    requires WellNumbered(sent)
  {
    forall m | 0 <= m < |log| :: FedUnlessDropped(sent, first + m, log[m])
  }

  lemma OneMoreFed(sent: seq<Fate>, first: nat, log: seq<PopResult>, r: PopResult)
    requires WellNumbered(sent)
    ensures AllFedOrConcealed(sent, first, log) && (r.Idle? || FedOrConcealed(sent, first + |log|, r)) ==>
              AllFedOrConcealed(sent, first, log + Fed(r))
    ensures AllFedUnlessDropped(sent, first, log) && (r.Idle? || FedUnlessDropped(sent, first + |log|, r)) ==>
              AllFedUnlessDropped(sent, first, log + Fed(r))
  {
  }

  lemma {:induction false} FeedIsSent(sent: seq<Fate>, steps: seq<SpeakerStep>, numbers: seq<nat>, first: nat)
    requires WellNumbered(sent) && Carries(sent, steps, numbers)
    ensures AllFedOrConcealed(sent, first, ExpectedFeed(sent, steps, numbers, first))
    decreases |steps|
  {
    if steps != [] {
      var n := |steps| - 1;
      var before := ExpectedFeed(sent, steps[..n], numbers[..n], first);
      CarriesPrefix(sent, steps, numbers);
      FeedIsSent(sent, steps[..n], numbers[..n], first);
      ExpectedIsSent(sent, steps[..n], numbers[..n], first + |before|);
      OneMoreFed(sent, first, before, Expected(sent, steps[..n], numbers[..n], first + |before|));
    }
  }

  // ----- two engines

  /** What a receiver's speaker has been fed, and will be fed next.
      Order: number after number from `first`, one a tick, the payload the sender's encoder
      made for the number if its packet was there, one concealment if only later ones were.
      Progress: the next tick feeds it under exactly the same condition.
      Concealment: a number is concealed exactly if its packet was not delivered on time;
      where nothing is late, if it was never delivered. So dropped numbers are always
      concealed, and only those if no queued packet was missed. */
  ghost predicate FedEndToEnd(sent: seq<Fate>, steps: seq<SpeakerStep>, numbers: seq<nat>, first: nat, late: nat,
                              sp: Speaker) {
    && WellNumbered(sent) && |steps| == |numbers|
    && sp.decoderLog == ExpectedFeed(sent, steps, numbers, first)
    && Pop(sp.jitter).1 == Expected(sent, steps, numbers, first + |sp.decoderLog|)
    && AllFedOrConcealed(sent, first, sp.decoderLog)
    && PlayedOnTime(steps, numbers, first, sp.decoderLog)
    && (late == 0 ==> forall u: nat :: Arrived(steps, numbers, u) <==> OnTime(steps, numbers, u))
    && (NoneMissed(sent, steps, numbers, first) ==> AllFedUnlessDropped(sent, first, sp.decoderLog))
    && (late == 0 && NoneLost(sent, steps, numbers, first) ==> AllFedUnlessDropped(sent, first, sp.decoderLog))
  }

  lemma SpeakerFeed(sent: seq<Fate>, steps: seq<SpeakerStep>, numbers: seq<nat>, sp: Speaker, first: nat, late: nat,
                    early: nat)
    requires WellNumbered(sent) && Carries(sent, steps, numbers) && Follows(sp, OpsOf(steps, numbers))
    requires FirstNumber(OpsOf(steps, numbers)) == Some(first)
    requires late + early < CAP && WithinSkew(Start(), OpsOf(steps, numbers), late, early)
    requires ShortEnough(late, early, |sp.decoderLog| + 1, LONGEST_RUN)
    ensures FedEndToEnd(sent, steps, numbers, first, late, sp)
  {
    FedAsExpected(sent, steps, numbers, sp, first, late, early);
    FeedIsSent(sent, steps, numbers, first);
    FeedIsOnTime(sent, steps, numbers, first, late, early);
    if late == 0 {
      NoneLate(sent, steps, numbers, first, early);
    }
    if NoneMissed(sent, steps, numbers, first) {
      OnlyDroppedConcealed(sent, steps, numbers, first, sp.decoderLog);
    }
  }

  lemma FedAsExpected(sent: seq<Fate>, steps: seq<SpeakerStep>, numbers: seq<nat>, sp: Speaker, first: nat, late: nat,
                      early: nat)
    requires WellNumbered(sent) && Carries(sent, steps, numbers) && Follows(sp, OpsOf(steps, numbers))
    requires FirstNumber(OpsOf(steps, numbers)) == Some(first)
    requires late + early < CAP && WithinSkew(Start(), OpsOf(steps, numbers), late, early)
    requires ShortEnough(late, early, |sp.decoderLog| + 1, LONGEST_RUN)
    ensures sp.decoderLog == ExpectedFeed(sent, steps, numbers, first)
    ensures Pop(sp.jitter).1 == Expected(sent, steps, numbers, first + |sp.decoderLog|)
  {
    PlayedByLast(OpsOf(steps, numbers), Play);
    FeedIsExpected(sent, steps, numbers, first, late, early);
    NextIsExpected(sent, steps, numbers, first, late, early);
  }

  lemma NoneLate(sent: seq<Fate>, steps: seq<SpeakerStep>, numbers: seq<nat>, first: nat, early: nat)
    requires WellNumbered(sent) && Carries(sent, steps, numbers) && WithinSkew(Start(), OpsOf(steps, numbers), 0, early)
    ensures forall u: nat :: Arrived(steps, numbers, u) <==> OnTime(steps, numbers, u)
    ensures NoneLost(sent, steps, numbers, first) ==> NoneMissed(sent, steps, numbers, first)
  {
    forall u: nat
      ensures Arrived(steps, numbers, u) <==> OnTime(steps, numbers, u)
    {
      NoneLateOnTime(sent, steps, numbers, early, u);
    }
  }

  /** Every voice packet for speaker k+1 that the receiver was given is one the sender has
      handed out, and `numbers` says under which of the sender's numbers it was queued. */
  ghost predicate Delivers(t: Trace, receiver: Setup, received: seq<Call>, numbers: seq<nat>, k: nat) {
    && |numbers| == |received|
    && forall c | 0 <= c < |received| && BringsVoice(receiver, received[c], k) ::
         && received[c].data in t.polled
         && numbers[c] < |Numbered(t.fates)|
         && Numbered(t.fates)[numbers[c]] == Queued(ParseVoice(received[c].data).value)
  }

  /** The steps are the calls: a packet for each of the speaker's voice packets among the
      datagrams, a tick for each tick, and nothing else. */
  ghost predicate StepsAreCalls(receiver: Setup, received: seq<Call>, k: nat) {
    var steps := StepsOf(receiver, received, k);
    forall c | 0 <= c < |received| ::
      && (steps[c].Got? <==> BringsVoice(receiver, received[c], k))
      && (steps[c].Got? ==> steps[c].v == ParseVoice(received[c].data).value)
      && (steps[c].Ticked? <==> received[c].DoTick?)
  }

  lemma CallsAreSteps(receiver: Setup, received: seq<Call>, k: nat)
    requires OnTheWire(receiver.format)
    ensures StepsAreCalls(receiver, received, k)
  {
    var steps := StepsOf(receiver, received, k);
    forall c | 0 <= c < |received|
      ensures (steps[c].Got? <==> BringsVoice(receiver, received[c], k))
              && (steps[c].Got? ==> steps[c].v == ParseVoice(received[c].data).value)
              && (steps[c].Ticked? <==> received[c].DoTick?)
    {
      StepsOfAt(receiver, received, k, c);
      StepIs(receiver, received[c], k);
    }
  }

  lemma {:induction false} StepsOfAt(setup: Setup, calls: seq<Call>, k: nat, c: nat)
    requires c < |calls|
    ensures StepsOf(setup, calls, k)[c] == StepOf(setup, calls[c], k)
    decreases |calls|
  {
    if c < |calls| - 1 {
      StepsOfAt(setup, calls[..|calls| - 1], k, c);
    }
  }

  lemma DeliveredIsCarried(t: Trace, receiver: Setup, received: seq<Call>, numbers: seq<nat>, k: nat)
    requires OnTheWire(receiver.format) && Delivers(t, receiver, received, numbers, k)
    ensures Carries(Numbered(t.fates), StepsOf(receiver, received, k), numbers)
  {
    CallsAreSteps(receiver, received, k);
  }

  /** A datagram handed out by the sender and delivered unchanged reads as a packet the sender
      queued under some number; */
  lemma PolledIsNumbered(sender: Setup, sent: seq<Call>, receiver: Setup, data: seq<Byte>) returns (u: nat)
    requires Sound(sender) && OnTheWire(sender.format) && OnTheWire(receiver.format)
    requires data in History(sender, sent).polled && Addressed(receiver, data).Some?
    ensures var numbered := Numbered(History(sender, sent).fates);
            u < |numbered| && numbered[u] == Queued(Addressed(receiver, data).value)
  {
    WireReadsBack(sender.format);
    RunConserves(sender, sent);
    var t := History(sender, sent);
    var v := receiver.format.read(data).value;
    assert sender.format.read(data) == Some(v);
    ReadAmongVoices(sender.format, t.polled + t.engine.out, data);
    QueuedAmongFates(t.fates, v);
    var j :| 0 <= j < |t.fates| && t.fates[j] == Queued(v);
    u := Number(t.fates, j);
    FoundUnderNumber(t.fates, j);
  }

  lemma OneMoreDelivery(t: Trace, receiver: Setup, before: seq<Call>, call: Call, numbers: seq<nat>, u: nat, k: nat)
    requires Delivers(t, receiver, before, numbers, k)
    requires BringsVoice(receiver, call, k) ==>
               && call.data in t.polled
               && u < |Numbered(t.fates)| && Numbered(t.fates)[u] == Queued(ParseVoice(call.data).value)
    ensures Delivers(t, receiver, before + [call], numbers + [u], k)
  {
  }

  /** so deliveries of the sender's datagrams can always be numbered. */
  lemma {:induction false} DeliveriesAreNumbered(sender: Setup, sent: seq<Call>, receiver: Setup, received: seq<Call>,
                                                 k: nat)
    returns (numbers: seq<nat>)
    requires Sound(sender) && OnTheWire(sender.format) && OnTheWire(receiver.format)
    requires forall c | c in received && BringsVoice(receiver, c, k) :: c.data in History(sender, sent).polled
    ensures Delivers(History(sender, sent), receiver, received, numbers, k)
    decreases |received|
  {
    if received == [] {
      numbers := [];
    } else {
      var before, call := received[..|received| - 1], received[|received| - 1];
      assert received == before + [call];
      var earlier := DeliveriesAreNumbered(sender, sent, receiver, before, k);
      var u: nat := 0;
      if BringsVoice(receiver, call, k) {
        assert call in received;
        StepIs(receiver, call, k);
        u := PolledIsNumbered(sender, sent, receiver, call.data);
      }
      OneMoreDelivery(History(sender, sent), receiver, before, call, earlier, u, k);
      numbers := earlier + [u];
    }
  }

  /** The end-to-end theorem, over any run of a sender and any run of a receiver that is given
      the sender's datagrams, lost, repeated or reordered: accepted packets at most `late`
      behind and `early` ahead of the receiver's cursor, late + early <= 127, and, if they may
      be both, fewer than 65410 - late numbers played. The arrivals are the speaker's voice
      packets among the datagrams, every one of them; and the samples shown are what the
      decoder makes of that feed. */
  lemma EndToEnd(sender: Setup, sent: seq<Call>, receiver: Setup, received: seq<Call>, numbers: seq<nat>, k: nat,
                 first: nat, late: nat, early: nat)
    requires Sound(sender) && OnTheWire(sender.format) && Sound(receiver) && OnTheWire(receiver.format)
    requires k < receiver.maxPlayers && k < TWO16 - 1
    requires Delivers(History(sender, sent), receiver, received, numbers, k)
    requires var ops := OpsOf(StepsOf(receiver, received, k), numbers);
             FirstNumber(ops) == Some(first) && late + early < CAP && WithinSkew(Start(), ops, late, early)
    requires ShortEnough(late, early, |History(receiver, received).engine.speakers[k].decoderLog| + 1, LONGEST_RUN)
    ensures FedEndToEnd(Numbered(History(sender, sent).fates), StepsOf(receiver, received, k), numbers, first, late,
                        History(receiver, received).engine.speakers[k])
    ensures StepsAreCalls(receiver, received, k)
    ensures var sp := History(receiver, received).engine.speakers[k];
            && sp.pcmCount <= |sp.pcm|
            && (sp.pcmCount > 0 ==> sp.pcm[..sp.pcmCount] == receiver.decode(sp.decoderLog))
  {
    WireReadsBack(sender.format);
    CallsAreSteps(receiver, received, k);
    EngineDecoding.RunShowsDecoded(receiver, received, k);
    var numbered, steps := Numbered(History(sender, sent).fates), StepsOf(receiver, received, k);
    SentIsWellNumbered(sender, sent);
    DeliveredIsCarried(History(sender, sent), receiver, received, numbers, k);
    CarriedIsLabelled(numbered, steps, numbers);
    ReceiverFollows(receiver, received, numbers, k);
    SpeakerFeed(numbered, steps, numbers, History(receiver, received).engine.speakers[k], first, late, early);
  }

  lemma ReceiverFollows(receiver: Setup, received: seq<Call>, numbers: seq<nat>, k: nat)
    requires Sound(receiver) && k < receiver.maxPlayers && k < TWO16 - 1
    requires Labelled(StepsOf(receiver, received, k), numbers)
    ensures k < |History(receiver, received).engine.speakers|
    ensures Follows(History(receiver, received).engine.speakers[k], OpsOf(StepsOf(receiver, received, k), numbers))
  {
    RunProjects(receiver, received, k);
    SpeakerFollowsJitter(receiver, StepsOf(receiver, received, k), numbers);
  }
}
