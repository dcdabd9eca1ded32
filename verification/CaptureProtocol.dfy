/** The capture ring as two threads run it: one producer and one consumer, each performing
    its push or pop in small steps that interleave freely. A thread reads its own counter
    exactly; the value it reads of the other's counter may be stale, but never older than
    the one it read before. Slots are written and read sample by sample. */
module CaptureProtocol {
  import opened Words
  import opened BoundedFifo

  datatype Slot = Slot(count: nat, samples: seq<int16>)

  datatype Producer =
    | Out
    | OwnRead(frame: seq<int16>, w: uint32)
    | BothRead(frame: seq<int16>, w: uint32, r: uint32)
    | Reserved(frame: seq<int16>, w: uint32)
    | Writing(frame: seq<int16>, w: uint32, done: nat)

  datatype Consumer =
    | Away
    | OwnSeen(r: uint32)
    | BothSeen(r: uint32, w: uint32)
    | Reading(r: uint32, count: nat, got: seq<int16>)

  /** `pushed` and `popped` are the histories of published pushes and pops: their lengths are
      the unwrapped counters. `seenR` and `seenW` are the unwrapped foreign counters last seen. */
  datatype State = State(
    w: uint32, r: uint32, slots: seq<Slot>,
    producer: Producer, consumer: Consumer,
    pushed: seq<seq<int16>>, popped: seq<seq<int16>>, seenR: nat, seenW: nat)

  datatype Step =
    | PushCall(frame: seq<int16>)
    | PushLoadR(view: nat)
    | PushCheck
    | PushStoreCount
    | PushCopySample
    | PushPublish
    | PopCall
    | PopLoadW(view: nat)
    | PopCheck
    | PopCopySample
    | PopPublish

  ghost predicate Initial(s: State) {
    && s.w == 0 && s.r == 0 && s.producer == Out && s.consumer == Away
    && s.pushed == [] && s.popped == [] && s.seenR == 0 && s.seenW == 0
    && |s.slots| == RING_CAP && forall i | 0 <= i < RING_CAP :: |s.slots[i].samples| == MAX_SAMPLES
  }

  predicate Refused(frame: seq<int16>, w: uint32, r: uint32) {
    (w - r) % TWO32 >= RING_CAP || |frame| == 0 || |frame| > MAX_SAMPLES
  }

  ghost predicate Enabled(s: State, step: Step)
    requires |s.slots| == RING_CAP
  {
    match step
    case PushCall(frame) => s.producer.Out?
    case PushLoadR(view) => s.producer.OwnRead? && s.seenR <= view <= |s.popped|
    case PushCheck => s.producer.BothRead?
    case PushStoreCount => s.producer.Reserved?
    case PushCopySample =>
      && s.producer.Writing? && s.producer.done < |s.producer.frame|
      && s.producer.done < |s.slots[s.producer.w % RING_CAP].samples|
    case PushPublish => s.producer.Writing? && s.producer.done == |s.producer.frame|
    case PopCall => s.consumer.Away?
    case PopLoadW(view) => s.consumer.OwnSeen? && s.seenW <= view <= |s.pushed|
    case PopCheck => s.consumer.BothSeen?
    case PopCopySample => s.consumer.Reading? && |s.consumer.got| < |s.slots[s.consumer.r % RING_CAP].samples|
    case PopPublish =>
      && s.consumer.Reading? && |s.consumer.got| == MAX_SAMPLES && s.consumer.count <= MAX_SAMPLES
  }

  function Apply(s: State, step: Step): State
    requires |s.slots| == RING_CAP && Enabled(s, step)
  {
    match step
    case PushCall(frame) => s.(producer := OwnRead(frame, s.w))
    case PushLoadR(view) =>
      s.(producer := BothRead(s.producer.frame, s.producer.w, view % TWO32), seenR := view)
    case PushCheck =>
      if Refused(s.producer.frame, s.producer.w, s.producer.r) then s.(producer := Out)
      else s.(producer := Reserved(s.producer.frame, s.producer.w))
    case PushStoreCount =>
      var i := s.producer.w % RING_CAP;
      s.(producer := Writing(s.producer.frame, s.producer.w, 0),
         slots := s.slots[i := s.slots[i].(count := |s.producer.frame|)])
    case PushCopySample =>
      var i := s.producer.w % RING_CAP;
      var k := s.producer.done;
      s.(producer := s.producer.(done := k + 1),
         slots := s.slots[i := s.slots[i].(samples := s.slots[i].samples[k := s.producer.frame[k]])])
    case PushPublish =>
      s.(producer := Out, w := (s.producer.w + 1) % TWO32, pushed := s.pushed + [s.producer.frame])
    case PopCall => s.(consumer := OwnSeen(s.r))
    case PopLoadW(view) => s.(consumer := BothSeen(s.consumer.r, view % TWO32), seenW := view)
    case PopCheck =>
      if s.consumer.r == s.consumer.w then s.(consumer := Away)
      else s.(consumer := Reading(s.consumer.r, s.slots[s.consumer.r % RING_CAP].count, []))
    case PopCopySample =>
      var c := s.consumer;
      s.(consumer := c.(got := c.got + [s.slots[c.r % RING_CAP].samples[|c.got|]]))
    case PopPublish =>
      s.(consumer := Away, r := (s.consumer.r + 1) % TWO32,
         popped := s.popped + [s.consumer.got[..s.consumer.count]])
  }

  // ----- the invariant

  predicate Sendable(frame: seq<int16>) {
    1 <= |frame| <= MAX_SAMPLES
  }

  predicate InSlot(slot: Slot, frame: seq<int16>) {
    slot.count == |frame| && |frame| <= |slot.samples| && slot.samples[..|frame|] == frame
  }

  ghost predicate CountersAgree(s: State) {
    && s.w == |s.pushed| % TWO32
    && s.r == |s.popped| % TWO32
    && s.seenR <= |s.popped| <= s.seenW <= |s.pushed| <= s.seenR + RING_CAP
  }

  ghost predicate SlotsHoldQueue(s: State)
    requires |s.slots| == RING_CAP
  {
    && (forall i | 0 <= i < RING_CAP :: |s.slots[i].samples| == MAX_SAMPLES)
    && (forall k | |s.popped| <= k < |s.pushed| :: Sendable(s.pushed[k]) && InSlot(s.slots[k % RING_CAP], s.pushed[k]))
  }

  ghost predicate ProducerOk(s: State)
    requires |s.slots| == RING_CAP
  {
    match s.producer
    case Out => true
    case OwnRead(_, w) => w == s.w
    case BothRead(_, w, r) => w == s.w && r == s.seenR % TWO32
    case Reserved(frame, w) => w == s.w && Sendable(frame) && |s.pushed| < s.seenR + RING_CAP
    case Writing(frame, w, done) =>
      && w == s.w && Sendable(frame) && |s.pushed| < s.seenR + RING_CAP
      && done <= |frame|
      && (var slot := s.slots[|s.pushed| % RING_CAP];
          slot.count == |frame| && |slot.samples| == MAX_SAMPLES && slot.samples[..done] == frame[..done])
  }

  ghost predicate ConsumerOk(s: State)
    requires |s.slots| == RING_CAP
  {
    match s.consumer
    case Away => true
    case OwnSeen(r) => r == s.r
    case BothSeen(r, w) => r == s.r && w == s.seenW % TWO32
    case Reading(r, count, got) =>
      && r == s.r && |s.popped| < s.seenW && s.seenW <= |s.pushed|
      && count == |s.pushed[|s.popped|]|
      && (var slot := s.slots[|s.popped| % RING_CAP];
          |got| <= |slot.samples| && got == slot.samples[..|got|])
  }

  ghost predicate Inv(s: State) {
    && |s.slots| == RING_CAP
    && CountersAgree(s)
    && s.popped <= s.pushed
    && SlotsHoldQueue(s)
    && ProducerOk(s)
    && ConsumerOk(s)
  }

  /** The slot a thread is inside of, from the moment it may touch it until it publishes. */
  function WritesSlot(s: State): Option<nat> {
    if s.producer.Reserved? || s.producer.Writing? then Some(s.producer.w % RING_CAP) else None
  }

  function ReadsSlot(s: State): Option<nat> {
    if s.consumer.Reading? then Some(s.consumer.r % RING_CAP) else None
  }

  /** What is in flight: pushed and not yet popped. */
  function Queue(s: State): seq<seq<int16>>
    requires |s.popped| <= |s.pushed|
  {
    s.pushed[|s.popped|..]
  }

  lemma SlotOfCounter(u: nat)
    ensures (u % TWO32) % RING_CAP == u % RING_CAP
  {
    SlotSurvivesWrap(u);
  }

  lemma SameSlotNear16(u: nat, v: nat)
    requires u % RING_CAP == v % RING_CAP && u <= v < u + RING_CAP
    ensures u == v
  {
  }

  /** The 32-bit difference test is exact while the true difference is small. */
  lemma WrappedDifference(big: nat, small: nat)
    requires small <= big <= small + RING_CAP
    ensures (big % TWO32 - small % TWO32) % TWO32 == big - small
    ensures big % TWO32 == small % TWO32 <==> big == small
  {
    assert big % TWO32 - small % TWO32 == big - small - TWO32 * (big / TWO32 - small / TWO32);
  }

  lemma MutualExclusion(s: State)
    requires Inv(s) && WritesSlot(s).Some? && ReadsSlot(s).Some?
    ensures WritesSlot(s) != ReadsSlot(s)
  {
    SlotOfCounter(|s.pushed|);
    SlotOfCounter(|s.popped|);
    if |s.pushed| % RING_CAP == |s.popped| % RING_CAP {
      SameSlotNear16(|s.popped|, |s.pushed|);
    }
  }

  /** A write by the producer touches only the slot after the queue. */
  lemma ProducerWrites(s: State, slot: Slot, producer: Producer)
    requires Inv(s) && WritesSlot(s).Some? && |slot.samples| == MAX_SAMPLES
    requires producer.Writing? && producer.w == s.w && producer.frame == s.producer.frame
    requires slot.count == |producer.frame| && producer.done <= |producer.frame|
    requires slot.samples[..producer.done] == producer.frame[..producer.done]
    ensures Inv(s.(producer := producer, slots := s.slots[s.w % RING_CAP := slot]))
  {
    SlotOfCounter(|s.pushed|);
    var s' := s.(producer := producer, slots := s.slots[s.w % RING_CAP := slot]);
    forall k | |s.popped| <= k < |s.pushed|
      ensures k % RING_CAP != |s.pushed| % RING_CAP
    {
      if k % RING_CAP == |s.pushed| % RING_CAP {
        SameSlotNear16(k, |s.pushed|);
      }
    }
    assert SlotsHoldQueue(s');
  }

  lemma PublishedSlots(s: State)
    requires Inv(s) && Enabled(s, PushPublish)
    ensures SlotsHoldQueue(Apply(s, PushPublish))
  {
    var n, frame := |s.pushed|, s.producer.frame;
    assert frame[..|frame|] == frame;
    assert InSlot(s.slots[n % RING_CAP], frame);
    assert forall k | 0 <= k < n :: (s.pushed + [frame])[k] == s.pushed[k];
  }

  lemma NextCounter(n: nat)
    ensures (n % TWO32 + 1) % TWO32 == (n + 1) % TWO32
  {
  }

  lemma PublishedCounters(s: State)
    requires Inv(s) && Enabled(s, PushPublish)
    ensures CountersAgree(Apply(s, PushPublish))
  {
    NextCounter(|s.pushed|);
  }

  lemma PublishedReader(s: State)
    requires Inv(s) && Enabled(s, PushPublish)
    ensures ConsumerOk(Apply(s, PushPublish))
  {
    assert s.consumer.Reading? ==> (s.pushed + [s.producer.frame])[|s.popped|] == s.pushed[|s.popped|];
  }

  lemma PublishKeepsInv(s: State)
    requires Inv(s) && Enabled(s, PushPublish)
    ensures Inv(Apply(s, PushPublish))
  {
    PublishedSlots(s);
    PublishedCounters(s);
    PublishedReader(s);
  }

  lemma TakeKeepsInv(s: State)
    requires Inv(s) && Enabled(s, PopPublish)
    ensures Inv(Apply(s, PopPublish))
    ensures s.consumer.got[..s.consumer.count] == s.pushed[|s.popped|]
  {
    var n := |s.popped|;
    var slot := s.slots[n % RING_CAP];
    NextCounter(n);
    assert InSlot(slot, s.pushed[n]);
    assert s.consumer.got[..s.consumer.count] == slot.samples[..s.consumer.count];
  }

  predicate ByProducer(step: Step) {
    || step.PushCall? || step.PushLoadR? || step.PushCheck?
    || step.PushStoreCount? || step.PushCopySample? || step.PushPublish?
  }

  lemma CopyKeepsInv(s: State)
    requires Inv(s) && Enabled(s, PushCopySample)
    ensures Inv(Apply(s, PushCopySample))
  {
    SlotOfCounter(|s.pushed|);
    var slot, k := s.slots[s.w % RING_CAP], s.producer.done;
    var written := slot.(samples := slot.samples[k := s.producer.frame[k]]);
    assert written.samples[..k + 1] == slot.samples[..k] + [s.producer.frame[k]];
    ProducerWrites(s, written, Apply(s, PushCopySample).producer);
  }

  lemma ProducerKeepsInv(s: State, step: Step)
    requires Inv(s) && Enabled(s, step) && ByProducer(step)
    ensures Inv(Apply(s, step))
  {
    match step
    case PushCall(frame) =>
    case PushLoadR(view) =>
    case PushCheck => WrappedDifference(|s.pushed|, s.seenR);
    case PushStoreCount =>
      ProducerWrites(s, s.slots[s.w % RING_CAP].(count := |s.producer.frame|), Apply(s, step).producer);
    case PushCopySample => CopyKeepsInv(s);
    case PushPublish => PublishKeepsInv(s);
  }

  lemma CheckKeepsInv(s: State)
    requires Inv(s) && Enabled(s, PopCheck)
    ensures Inv(Apply(s, PopCheck))
  {
    SlotOfCounter(|s.popped|);
    WrappedDifference(s.seenW, |s.popped|);
    assert s.seenW > |s.popped| ==> InSlot(s.slots[|s.popped| % RING_CAP], s.pushed[|s.popped|]);
  }

  lemma ConsumerKeepsInv(s: State, step: Step)
    requires Inv(s) && Enabled(s, step) && !ByProducer(step)
    ensures Inv(Apply(s, step))
  {
    match step
    case PopCall =>
    case PopLoadW(view) =>
    case PopCheck => CheckKeepsInv(s);
    case PopCopySample => SlotOfCounter(|s.popped|);
    case PopPublish => TakeKeepsInv(s);
  }

  lemma StepKeepsInv(s: State, step: Step)
    requires Inv(s) && Enabled(s, step)
    ensures Inv(Apply(s, step))
  {
    if ByProducer(step) {
      ProducerKeepsInv(s, step);
    } else {
      ConsumerKeepsInv(s, step);
    }
  }

  /** A thread inside an operation can always take its next step: no slot access falls outside
      the slot, and no published frame is too long to be handed out. */
  lemma NeverStuck(s: State)
    requires Inv(s)
    ensures s.producer.Writing? ==> Enabled(s, PushCopySample) || Enabled(s, PushPublish)
    ensures s.producer.OwnRead? ==> Enabled(s, PushLoadR(|s.popped|))
    ensures s.consumer.Reading? ==> Enabled(s, PopCopySample) || Enabled(s, PopPublish)
    ensures s.consumer.OwnSeen? ==> Enabled(s, PopLoadW(|s.pushed|))
  {
    SlotOfCounter(|s.pushed|);
    SlotOfCounter(|s.popped|);
  }

  // ----- whole runs

  ghost predicate RunsTo(s: State, steps: seq<Step>, end: State)
    decreases |steps|
  {
    if steps == [] then s == end
    else |s.slots| == RING_CAP && Enabled(s, steps[0]) && RunsTo(Apply(s, steps[0]), steps[1..], end)
  }

  lemma {:induction false} RunKeepsInv(s: State, steps: seq<Step>, end: State)
    requires Inv(s) && RunsTo(s, steps, end)
    ensures Inv(end)
    decreases |steps|
  {
    if steps != [] {
      StepKeepsInv(s, steps[0]);
      RunKeepsInv(Apply(s, steps[0]), steps[1..], end);
    }
  }

  /** Safety over every interleaving and any number of operations, 2^32 and more: the frames
      popped are a prefix of the frames pushed, the fill stays in 0..16, and the two threads
      are never inside the same slot. */
  lemma SafeOverEveryInterleaving(s: State, steps: seq<Step>, end: State)
    requires Initial(s) && RunsTo(s, steps, end)
    ensures end.popped <= end.pushed
    ensures |end.pushed| - |end.popped| <= RING_CAP
    ensures end.w == |end.pushed| % TWO32 && end.r == |end.popped| % TWO32
    ensures WritesSlot(end).Some? && ReadsSlot(end).Some? ==> WritesSlot(end) != ReadsSlot(end)
  {
    RunKeepsInv(s, steps, end);
    if WritesSlot(end).Some? && ReadsSlot(end).Some? {
      MutualExclusion(end);
    }
  }

  /** The interleaved ring is a 16-bounded queue: publishing a push appends where there is
      room, publishing a pop removes the oldest frame and returns it whole, and no other
      step changes the queue. So the ring may be used as the sequential `CountedRing`. */
  lemma RefinesBoundedQueue(s: State, step: Step)
    requires Inv(s) && Enabled(s, step)
    ensures var s' := Apply(s, step);
            && |s'.popped| <= |s'.pushed|
            && (step.PushPublish? ==> |Queue(s)| < RING_CAP && Queue(s') == Offer(Queue(s), s.producer.frame, RING_CAP))
            && (step.PopPublish? ==>
                  Queue(s) != [] && Queue(s') == TakeOne(Queue(s)) && s'.popped == s.popped + [Queue(s)[0]])
            && (!step.PushPublish? && !step.PopPublish? ==> Queue(s') == Queue(s))
  {
    StepKeepsInv(s, step);
    if step.PopPublish? {
      TakeKeepsInv(s);
    }
    if step.PushPublish? {
      assert Queue(Apply(s, step)) == Queue(s) + [s.producer.frame];
    }
  }

  /** The answers: a push of a sendable frame is refused exactly when the view it loaded shows
      16 frames in flight, and a pop comes back empty exactly when the view it loaded shows
      none. With fresh views these are the true states full and empty. */
  lemma RefusalsAreExact(s: State)
    requires Inv(s)
    ensures s.producer.BothRead? && Sendable(s.producer.frame) ==>
              (Apply(s, PushCheck).producer.Out? <==> |s.pushed| - s.seenR == RING_CAP)
    ensures s.producer.BothRead? && Sendable(s.producer.frame) && s.seenR == |s.popped| ==>
              (Apply(s, PushCheck).producer.Out? <==> |Queue(s)| == RING_CAP)
    ensures s.consumer.BothSeen? ==>
              (Apply(s, PopCheck).consumer.Away? <==> s.seenW == |s.popped|)
    ensures s.consumer.BothSeen? && s.seenW == |s.pushed| ==>
              (Apply(s, PopCheck).consumer.Away? <==> Queue(s) == [])
  {
    WrappedDifference(|s.pushed|, s.seenR);
    WrappedDifference(s.seenW, |s.popped|);
  }
}
