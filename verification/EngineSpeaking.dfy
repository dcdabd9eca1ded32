/** The speaking protocol over whole runs: on and off alternate, the flag is the last one
    attempted, and on a clock that wraps every 2^32 ms the off comes at exactly the first
    tick more than 250 ms after the last accepted packet. */
module EngineSpeaking {
  import opened Words
  import opened Sequences
  import opened Packets
  import opened EngineModel
  import opened EngineSpeakers

  /** On, off, on, ...; and the flag is the last value, or off before the first. */
  ghost predicate OnOffProtocol(onOffs: seq<bool>, speaking: bool) {
    && (forall i | 0 <= i < |onOffs| :: onOffs[i] == (i % 2 == 0))
    && speaking == (onOffs != [] && onOffs[|onOffs| - 1])
  }

  lemma ProtocolStep(onOffs: seq<bool>, speaking: bool, more: seq<bool>, speaking': bool)
    requires OnOffProtocol(onOffs, speaking)
    requires more == if speaking == speaking' then [] else [speaking']
    ensures OnOffProtocol(onOffs + more, speaking')
  {
  }

  lemma {:induction false} StepsAlternate(setup: Setup, sp: Speaker, steps: seq<SpeakerStep>)
    requires !sp.speaking
    ensures OnOffProtocol(RunOnOffs(setup, sp, steps), RunSpeaker(setup, sp, steps).speaking)
    decreases |steps|
  {
    if steps != [] {
      var n := |steps| - 1;
      var before := RunSpeaker(setup, sp, steps[..n]);
      StepsAlternate(setup, sp, steps[..n]);
      ProtocolStep(RunOnOffs(setup, sp, steps[..n]), before.speaking,
                   OnOffOf(before, steps[n]), AfterStep(setup, before, steps[n]).speaking);
    }
  }

  /** Over any run, the SPEAKING events attempted for a speaker are on, off, on, ... and its
      flag is the last one attempted. */
  lemma SpeakingAlternates(setup: Setup, calls: seq<Call>, k: nat)
    requires Sound(setup) && k < setup.maxPlayers && k < TWO16 - 1
    ensures var t := History(setup, calls);
            && k < |t.engine.speakers|
            && OnOffProtocol(OnOffs(k + 1, t.attempted), t.engine.speakers[k].speaking)
  {
    RunProjects(setup, calls, k);
    StepsAlternate(setup, NewSpeaker(setup), StepsOf(setup, calls, k));
  }

  // ----- the clock

  function LastTick(steps: seq<SpeakerStep>, times: seq<nat>, start: nat): nat
    requires |steps| == |times|
  {
    if steps == [] then start
    else
      var k := |steps| - 1;
      if steps[k].Ticked? then times[k] else LastTick(steps[..k], times[..k], start)
  }

  /** Steps happen at unwrapped times that never go back; what they are told is the time
      modulo 2^32; and at most `gap` ms pass from one tick to the next. */
  ghost predicate Clocked(steps: seq<SpeakerStep>, times: seq<nat>, start: nat, gap: nat) {
    && |steps| == |times|
    && (steps != [] ==>
          var k := |steps| - 1;
          && Clocked(steps[..k], times[..k], start, gap)
          && LastOr(times[..k], start) <= times[k]
          && (!steps[k].Nothing? ==> steps[k].now == times[k] % TWO32)
          && (steps[k].Ticked? ==> times[k] <= LastTick(steps[..k], times[..k], start) + gap))
  }

  /** The protocol on the unwrapped clock: speaking since an arrival, until the first tick more
      than 250 ms after the last one. Some(t) means speaking, with the last packet at time t. */
  function SpeakingSince(steps: seq<SpeakerStep>, times: seq<nat>): Option<nat>
    requires |steps| == |times|
  {
    if steps == [] then None
    else
      var n := |steps| - 1;
      var before := SpeakingSince(steps[..n], times[..n]);
      if steps[n].Got? then Some(times[n])
      else if steps[n].Ticked? && before.Some? && times[n] > before.value + SPEAKING_TIMEOUT_MS then None
      else before
  }

  const LONGEST_GAP := TWO32 - SPEAKING_TIMEOUT_MS - 1

  lemma WrappedElapsed(t: nat, since: nat)
    requires since <= t < since + TWO32
    ensures Sub32(t % TWO32, since % TWO32) == t - since
  {
    assert t % TWO32 - since % TWO32 == t - since - TWO32 * (t / TWO32 - since / TWO32);
  }

  ghost predicate InPhase(sp: Speaker, since: Option<nat>) {
    sp.speaking == since.Some? && (since.Some? ==> sp.lastRxMs == since.value % TWO32)
  }

  lemma TickInPhase(setup: Setup, sp: Speaker, since: Option<nat>, t: nat)
    requires InPhase(sp, since)
    requires since.Some? ==> since.value <= t < since.value + TWO32
    ensures InPhase(TickSpeaker(setup, sp, t % TWO32),
                    if since.Some? && t > since.value + SPEAKING_TIMEOUT_MS then None else since)
    ensures OnOffOf(sp, Ticked(t % TWO32)) ==
            if since.Some? && t > since.value + SPEAKING_TIMEOUT_MS then [false] else []
  {
    if since.Some? {
      WrappedElapsed(t, since.value);
    }
  }

  lemma {:induction false} StepsInPhase(setup: Setup, sp: Speaker, steps: seq<SpeakerStep>, times: seq<nat>, start: nat)
    requires !sp.speaking && Clocked(steps, times, start, LONGEST_GAP)
    ensures var since := SpeakingSince(steps, times);
            && InPhase(RunSpeaker(setup, sp, steps), since)
            && (since.Some? ==> LastTick(steps, times, start) <= since.value + SPEAKING_TIMEOUT_MS)
            && (since.Some? ==> since.value <= LastOr(times, start))
            && LastTick(steps, times, start) <= LastOr(times, start)
  {
    if steps != [] {
      var n := |steps| - 1;
      StepsInPhase(setup, sp, steps[..n], times[..n], start);
      if steps[n].Ticked? {
        TickInPhase(setup, RunSpeaker(setup, sp, steps[..n]), SpeakingSince(steps[..n], times[..n]), times[n]);
      }
    }
  }

  /** Timing exactness, across any number of clock wraps: with ticks no more than
      2^32 - 251 ms apart, the flag is that of the unwrapped protocol after every run. So
      off is attempted at exactly the first tick past the timeout. */
  lemma TimeoutIsExact(setup: Setup, calls: seq<Call>, times: seq<nat>, start: nat, k: nat)
    requires Sound(setup) && k < setup.maxPlayers && k < TWO16 - 1
    requires Clocked(StepsOf(setup, calls, k), times, start, LONGEST_GAP)
    ensures var since := SpeakingSince(StepsOf(setup, calls, k), times);
            && k < |History(setup, calls).engine.speakers|
            && InPhase(History(setup, calls).engine.speakers[k], since)
  {
    RunProjects(setup, calls, k);
    StepsInPhase(setup, NewSpeaker(setup), StepsOf(setup, calls, k), times, start);
  }

  /** The run before a further tick is clocked too, and that tick comes less than 2^32 ms
      after the last packet. */
  lemma NextTickIsNear(setup: Setup, sp: Speaker, steps: seq<SpeakerStep>, times: seq<nat>, start: nat, t: nat)
    requires !sp.speaking && Clocked(steps + [Ticked(t % TWO32)], times + [t], start, LONGEST_GAP)
    ensures Clocked(steps, times, start, LONGEST_GAP)
    ensures var since := SpeakingSince(steps, times);
            since.Some? ==> since.value <= t < since.value + TWO32
  {
    var all := steps + [Ticked(t % TWO32)];
    assert all[..|all| - 1] == steps && (times + [t])[..|all| - 1] == times;
    StepsInPhase(setup, sp, steps, times, start);
  }

  lemma TickAttemptsOff(setup: Setup, e: Engine, since: Option<nat>, t: nat, k: nat)
    requires Sound(setup) && Bounded(setup, e) && OnlyAddressableSpeak(e.speakers)
    requires k < |e.speakers| && k < TWO16 - 1 && InPhase(e.speakers[k], since)
    requires since.Some? ==> since.value <= t < since.value + TWO32
    ensures OnOffs(k + 1, Tick(setup, e, t % TWO32).attempted) ==
            if since.Some? && t > since.value + SPEAKING_TIMEOUT_MS then [false] else []
  {
    TickProjects(setup, e, t % TWO32, k);
    TickInPhase(setup, e.speakers[k], since, t);
    assert StepOf(setup, DoTick(t % TWO32), k) == Ticked(t % TWO32);
  }

  /** After any run, the next tick attempts an off for the speaker just when it is the first
      one more than 250 ms after the speaker's last packet. */
  lemma OffAtFirstTickPastTimeout(setup: Setup, calls: seq<Call>, times: seq<nat>, start: nat, k: nat, t: nat)
    requires Sound(setup) && k < setup.maxPlayers && k < TWO16 - 1
    requires Clocked(StepsOf(setup, calls, k) + [Ticked(t % TWO32)], times + [t], start, LONGEST_GAP)
    ensures |StepsOf(setup, calls, k)| == |times|
    ensures var since := SpeakingSince(StepsOf(setup, calls, k), times);
            OnOffs(k + 1, Tick(setup, History(setup, calls).engine, t % TWO32).attempted) ==
            if since.Some? && t > since.value + SPEAKING_TIMEOUT_MS then [false] else []
  {
    var steps := StepsOf(setup, calls, k);
    var e := History(setup, calls).engine;
    NextTickIsNear(setup, NewSpeaker(setup), steps, times, start, t);
    TimeoutIsExact(setup, calls, times, start, k);
    RunProjects(setup, calls, k);
    TickAttemptsOff(setup, e, SpeakingSince(steps, times), t, k);
  }

  // ----- the longest gap is exact

  /** Every clocked run of the engine keeps every speaker in phase with the unwrapped protocol. */
  ghost predicate AllInPhase(setup: Setup, gap: nat)
    requires Sound(setup)
  {
    forall calls, times, start, k: nat
      | k < setup.maxPlayers && k < TWO16 - 1 && Clocked(StepsOf(setup, calls, k), times, start, gap) ::
      KeptInPhase(setup, calls, times, k)
  }

  ghost predicate KeptInPhase(setup: Setup, calls: seq<Call>, times: seq<nat>, k: nat)
    requires Sound(setup)
  {
    && |calls| == |times| && k < |History(setup, calls).engine.speakers|
    && InPhase(History(setup, calls).engine.speakers[k], SpeakingSince(StepsOf(setup, calls, k), times))
  }

  lemma {:induction false} ClockedWider(steps: seq<SpeakerStep>, times: seq<nat>, start: nat, gap: nat, wider: nat)
    requires Clocked(steps, times, start, gap) && gap <= wider
    ensures Clocked(steps, times, start, wider)
    decreases |steps|
  {
    if steps != [] {
      ClockedWider(steps[..|steps| - 1], times[..|steps| - 1], start, gap, wider);
    }
  }

  /** A multiple of 65536 players: no packet is ever addressed, so nobody ever speaks. */
  lemma {:induction false} NobodySpeaks(setup: Setup, calls: seq<Call>, times: seq<nat>, k: nat)
    requires setup.maxPlayers % TWO16 == 0 && |calls| == |times|
    ensures SpeakingSince(StepsOf(setup, calls, k), times) == None
    ensures RunSpeaker(setup, NewSpeaker(setup), StepsOf(setup, calls, k)).speaking == false
    decreases |calls|
  {
    if calls != [] {
      var n := |calls| - 1;
      NobodySpeaks(setup, calls[..n], times[..n], k);
      LastStep(setup, calls, k);
      assert !StepOf(setup, calls[n], k).Got?;
    }
  }

  lemma LastStep(setup: Setup, calls: seq<Call>, k: nat)
    requires calls != []
    ensures var n := |calls| - 1;
            && StepsOf(setup, calls, k)[..n] == StepsOf(setup, calls[..n], k)
            && StepsOf(setup, calls, k)[n] == StepOf(setup, calls[n], k)
  {
  }

  /** A packet at time 0, a tick at 250, the next at 2^32: the speaker is still on though its
      packet is 2^32 ms old. */
  lemma MissedTimeout(setup: Setup, sp: Speaker, v: Voice)
    requires !sp.speaking
    ensures var steps := [Got(v, 0), Ticked(250), Ticked(0)];
            var times := [0, 250, TWO32];
            && Clocked(steps, times, 0, LONGEST_GAP + 1)
            && SpeakingSince(steps, times) == None
            && RunSpeaker(setup, sp, steps).speaking
  {
    var s1, s2, s3 := Got(v, 0), Ticked(250), Ticked(0);
    assert [s1, s2, s3][..2] == [s1, s2] && [s1, s2][..1] == [s1] && [s1][..0] == [];
    assert [0, 250, TWO32][..2] == [0, 250] && [0, 250][..1] == [0] && [0][..0] == [];
    assert LastTick([s1], [0], 0) == 0 && Clocked([s1], [0], 0, LONGEST_GAP + 1);
    assert LastTick([s1, s2], [0, 250], 0) == 250 && Clocked([s1, s2], [0, 250], 0, LONGEST_GAP + 1);
    assert SpeakingSince([s1], [0]) == Some(0);
    assert SpeakingSince([s1, s2], [0, 250]) == Some(0);
    assert RunSpeaker(setup, sp, []) == sp;
    var sp1, sp2 := Arrival(sp, v, 0), TickSpeaker(setup, Arrival(sp, v, 0), 250);
    assert RunSpeaker(setup, sp, [s1]) == sp1;
    assert RunSpeaker(setup, sp, [s1, s2]) == sp2;
    assert RunSpeaker(setup, sp, [s1, s2, s3]) == TickSpeaker(setup, sp2, 0);
  }

  /** The engine calls of that run, for speaker 1. */
  function MissingCalls(data: seq<Byte>): seq<Call> {
    [DoIngest(data, 0), DoTick(250), DoTick(0)]
  }

  lemma MissingSteps(setup: Setup, data: seq<Byte>, v: Voice)
    requires Addressed(setup, data) == Some(v) && v.speakerId == 1
    ensures StepsOf(setup, MissingCalls(data), 0) == [Got(v, 0), Ticked(250), Ticked(0)]
  {
    var calls := MissingCalls(data);
    assert calls[..2] == [DoIngest(data, 0), DoTick(250)] && calls[..2][..1] == [DoIngest(data, 0)];
    assert calls[..2][..1][..0] == [];
    assert StepsOf(setup, calls[..2][..1], 0) == [Got(v, 0)];
    assert StepsOf(setup, calls[..2], 0) == [Got(v, 0), Ticked(250)];
  }

  lemma LongerGapMisses(setup: Setup, gap: nat)
    requires Sound(setup) && ReadsBack(setup.format) && setup.maxPlayers % TWO16 != 0 && gap > LONGEST_GAP
    ensures !AllInPhase(setup, gap)
  {
    var v := Voice(1, 0, 0, [0]);
    var data := setup.format.voice(v);
    var calls, times := MissingCalls(data), [0, 250, TWO32];
    assert Addressed(setup, data) == Some(v);
    MissingSteps(setup, data, v);
    MissedTimeout(setup, NewSpeaker(setup), v);
    ClockedWider(StepsOf(setup, calls, 0), times, 0, LONGEST_GAP + 1, gap);
    RunProjects(setup, calls, 0);
    assert !KeptInPhase(setup, calls, times, 0);
  }

  /** The exact condition, for any engine: all clocked runs stay in phase if and only if ticks
      are at most 2^32 - 251 ms apart, or no speaker can be addressed at all. */
  lemma LongestGapIsExact(setup: Setup, gap: nat)
    requires Sound(setup) && ReadsBack(setup.format)
    ensures AllInPhase(setup, gap) <==> gap <= LONGEST_GAP || setup.maxPlayers % TWO16 == 0
  {
    if gap <= LONGEST_GAP || setup.maxPlayers % TWO16 == 0 {
      forall calls, times, start, k: nat
        | k < setup.maxPlayers && k < TWO16 - 1 && Clocked(StepsOf(setup, calls, k), times, start, gap)
        ensures KeptInPhase(setup, calls, times, k)
      {
        if gap <= LONGEST_GAP {
          ClockedWider(StepsOf(setup, calls, k), times, start, gap, LONGEST_GAP);
          TimeoutIsExact(setup, calls, times, start, k);
        } else {
          NobodySpeaks(setup, calls, times, k);
          RunProjects(setup, calls, k);
        }
      }
    } else {
      LongerGapMisses(setup, gap);
    }
  }
}
