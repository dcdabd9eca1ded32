/** The playback buffer of the Unity side: a circular array of samples that drops the oldest
    or refuses the newest when full, against the sequence it holds. */
module PlaybackBuffers {
  import opened Words
  import opened Sequences

  /** What a call returns, or the exception it throws. */
  datatype Outcome = Done(samples: nat) | ArgumentOutOfRange | ArgumentTooLong | IndexOutOfRange

  /** The range check; `end` is offset + count as computed by the caller. */
  function Validate(length: nat, offset: int, count: int, end: int): Outcome {
    if offset < 0 || count < 0 then ArgumentOutOfRange
    else if end > length then ArgumentTooLong
    else Done(0)
  }

  /** Arrays are indexed by signed 32-bit numbers. */
  const LONGEST_ARRAY := 0x7FFF_FFFF

  /** A range that wraps past 2^31 passes the check although it ends outside the array. */
  predicate PassesByWrap(offset: int32, count: int32) {
    offset >= 0 && count >= 0 && offset + count > LONGEST_ARRAY
  }

  /** From `offset` to the end of the array, or nothing if it starts outside. */
  function Rest<T>(s: seq<T>, offset: nat): seq<T> {
    if offset <= |s| then s[offset..] else []
  }

  lemma RestAt<T>(s: seq<T>, offset: nat, k: nat)
    ensures |Rest(s, offset)| == if offset < |s| then |s| - offset else 0
    ensures k < |Rest(s, offset)| ==> Rest(s, offset)[k] == s[offset + k]
  {
  }

  // ----- the sequence view

  /** The last `capacity` samples. */
  function Newest(s: seq<int16>, capacity: nat): seq<int16> {
    if |s| <= capacity then s else s[|s| - capacity..]
  }

  function Append(held: seq<int16>, samples: seq<int16>, capacity: nat, dropOldest: bool): seq<int16>
    requires |held| <= capacity
  {
    if dropOldest then Newest(held + samples, capacity)
    else held + samples[..Min(|samples|, capacity - |held|)]
  }

  /** Sample by sample: in drop-oldest mode the end of all samples is held, as much as there is
      room for, so the last one enqueued is the last one held; else their beginning. */
  lemma AppendedSamples(held: seq<int16>, samples: seq<int16>, capacity: nat, dropOldest: bool)
    requires |held| <= capacity
    ensures var s, r := held + samples, Append(held, samples, capacity, dropOldest);
            && |r| == Min(|s|, capacity)
            && (dropOldest ==> forall i | 0 <= i < |r| :: r[i] == s[|s| - |r| + i])
            && (!dropOldest ==> forall i | 0 <= i < |r| :: r[i] == s[i])
  {
  }

  /** The range check: the range begins and ends inside the array. */
  lemma ValidRanges(length: nat, offset: int, count: int, end: int)
    ensures Validate(length, offset, count, end).Done? <==> 0 <= offset && 0 <= count && end <= length
    ensures Validate(length, offset, count, end) == ArgumentOutOfRange <==> offset < 0 || count < 0
  {
  }

  /** What an enqueue leaves, and returns or throws, whose range passed the check by wrapping:
      it goes through the rest of the array and then fails to read on, unless the buffer was
      full before; in drop-oldest mode a full buffer has made room first. */
  function AppendPastEnd(held: seq<int16>, rest: seq<int16>, capacity: nat, dropOldest: bool): (seq<int16>, Outcome)
    requires |held| <= capacity
  {
    var appended := Append(held, rest, capacity, dropOldest);
    if !dropOldest && capacity - |held| <= |rest| then (appended, Done(capacity - |held|))
    else if |appended| == capacity > 0 then (appended[1..], IndexOutOfRange)
    else (appended, IndexOutOfRange)
  }

  /** Such an enqueue, sample by sample: in drop-oldest mode room for one more sample has been
      made when it fails; else it fails only if the samples left the buffer with room. */
  lemma PastEndSamples(held: seq<int16>, rest: seq<int16>, capacity: nat, dropOldest: bool)
    requires |held| <= capacity
    ensures var s := held + rest;
            var (r, result) := AppendPastEnd(held, rest, capacity, dropOldest);
            if dropOldest then
              && result == IndexOutOfRange
              && |r| == (if |s| < capacity then |s| else if capacity == 0 then 0 else capacity - 1)
              && forall i | 0 <= i < |r| :: r[i] == s[|s| - |r| + i]
            else
              && result == (if |s| < capacity then IndexOutOfRange else Done(capacity - |held|))
              && |r| == Min(|s|, capacity)
              && forall i | 0 <= i < |r| :: r[i] == s[i]
  {
  }

  /** The check lets a range that ends outside the array pass exactly when its end wraps. */
  lemma OnlyWrapsPass(length: nat, offset: int32, count: int32)
    requires length <= LONGEST_ARRAY
    ensures Validate(length, offset, count, Sum32(offset, count)).Done? && offset + count > length <==>
            PassesByWrap(offset, count)
  {
  }

  /** How a stream is cut into calls does not matter: two appends are one append of both. */
  lemma AppendCompose(held: seq<int16>, a: seq<int16>, b: seq<int16>, capacity: nat, dropOldest: bool)
    requires |held| <= capacity
    ensures |Append(held, a, capacity, dropOldest)| <= capacity
    ensures Append(Append(held, a, capacity, dropOldest), b, capacity, dropOldest) ==
            Append(held, a + b, capacity, dropOldest)
  {
    if dropOldest {
      NewestCompose(held + a, b, capacity);
      assert held + (a + b) == held + a + b;
    } else if |a| <= capacity - |held| {
      var n := Min(|b|, capacity - |held| - |a|);
      assert (a + b)[..|a| + n] == a + b[..n];
    } else {
      assert (a + b)[..capacity - |held|] == a[..capacity - |held|];
    }
  }

  lemma NewestCompose(s: seq<int16>, t: seq<int16>, capacity: nat)
    ensures Newest(Newest(s, capacity) + t, capacity) == Newest(s + t, capacity)
  {
    if |s| > capacity {
      assert Newest(s, capacity) + t == (s + t)[|s| - capacity..];
    }
  }

  /** Reading everything after any appends in drop-oldest mode gives the newest samples of all
      that was ever appended, whatever the cuts. */
  function AppendAll(held: seq<int16>, chunks: seq<seq<int16>>, capacity: nat, dropOldest: bool): seq<int16>
    requires |held| <= capacity
    decreases |chunks|
  {
    if chunks == [] then held
    else
      AppendCompose(held, chunks[0], [], capacity, dropOldest);
      AppendAll(Append(held, chunks[0], capacity, dropOldest), chunks[1..], capacity, dropOldest)
  }

  lemma {:induction false} ChunkingIsInvisible(held: seq<int16>, chunks: seq<seq<int16>>, capacity: nat,
                                               dropOldest: bool)
    requires |held| <= capacity
    ensures AppendAll(held, chunks, capacity, dropOldest) == Append(held, Joined(chunks), capacity, dropOldest)
    decreases |chunks|
  {
    if chunks == [] {
      assert held + [] == held;
    } else {
      JoinedFront(chunks);
      AppendCompose(held, chunks[0], Joined(chunks[1..]), capacity, dropOldest);
      ChunkingIsInvisible(Append(held, chunks[0], capacity, dropOldest), chunks[1..], capacity, dropOldest);
    }
  }

  // ----- the ring

  function Wrap(i: nat, length: nat): nat {
    if i < length then i else i - length
  }

  lemma StepIsWrap(i: nat, length: nat)
    requires i < length
    ensures (i + 1) % length == Wrap(i + 1, length)
  {
    if i + 1 < length {
      SmallMod(i + 1, length);
    }
  }

  lemma SmallMod(i: nat, length: nat)
    requires i < length
    ensures i % length == i
  {
  }

  ghost function Held(buffer: seq<int16>, readIndex: nat, count: nat): (held: seq<int16>)
    requires readIndex < |buffer| && count <= |buffer|
    ensures |held| == count && forall i | 0 <= i < count :: held[i] == buffer[Wrap(readIndex + i, |buffer|)]
  {
    seq(count, i requires 0 <= i < count <= |buffer| && readIndex < |buffer| => buffer[Wrap(readIndex + i, |buffer|)])
  }

  lemma HeldPush(buffer: seq<int16>, readIndex: nat, count: nat, x: int16)
    requires readIndex < |buffer| && count < |buffer|
    ensures Held(buffer[Wrap(readIndex + count, |buffer|) := x], readIndex, count + 1) ==
            Held(buffer, readIndex, count) + [x]
  {
  }

  lemma HeldPop(buffer: seq<int16>, readIndex: nat, count: nat)
    requires readIndex < |buffer| && 0 < count <= |buffer|
    ensures Held(buffer, Wrap(readIndex + 1, |buffer|), count - 1) == Held(buffer, readIndex, count)[1..]
    ensures Held(buffer, readIndex, count)[0] == buffer[readIndex]
    ensures Wrap(Wrap(readIndex + 1, |buffer|) + (count - 1), |buffer|) == Wrap(readIndex + count, |buffer|)
  {
  }

  lemma WriteIndexMoves(readIndex: nat, count: nat, length: nat)
    requires readIndex < length && count < length
    ensures Wrap(Wrap(readIndex + count, length) + 1, length) == Wrap(readIndex + (count + 1), length)
  {
  }

  // ----- interleaved output

  function Repeat(x: real, channels: nat): seq<real> {
    if channels == 0 then [] else Repeat(x, channels - 1) + [x]
  }

  /** Each mono value on every channel. */
  function Interleave(values: seq<real>, channels: nat): seq<real> {
    if values == [] then []
    else Interleave(values[..|values| - 1], channels) + Repeat(values[|values| - 1], channels)
  }

  lemma {:induction false} RepeatLength(x: real, channels: nat)
    ensures |Repeat(x, channels)| == channels
    ensures forall c | 0 <= c < channels :: Repeat(x, channels)[c] == x
  {
    if channels > 0 {
      RepeatLength(x, channels - 1);
    }
  }

  function Pcm16ToFloat(sample: int16): real {
    sample as real / 32768.0
  }

  function ToFloats(samples: seq<int16>): (r: seq<real>)
    ensures |r| == |samples|
  {
    seq(|samples|, i requires 0 <= i < |samples| => Pcm16ToFloat(samples[i]))
  }

  function ClampUnit(x: real): real {
    if x > 1.0 then 1.0 else if x < -1.0 then -1.0 else x
  }

  function ScaledSample(sample: int16, gain: real): real {
    Pcm16ToFloat(sample) * gain
  }

  function Scaled(samples: seq<int16>, gain: real): (r: seq<real>)
    ensures |r| == |samples|
  {
    seq(|samples|, i requires 0 <= i < |samples| => ScaledSample(samples[i], gain))
  }

  /** Some values written over a sequence at an offset; what falls outside is cut off. */
  function Overlay(original: seq<real>, offset: nat, written: seq<real>): (r: seq<real>)
    ensures |r| == |original|
  {
    seq(|original|, k requires 0 <= k < |original| =>
      if offset <= k < offset + |written| then written[k - offset] else original[k])
  }

  /** Some values mixed into a sequence at an offset. */
  function MixedOver(original: seq<real>, offset: nat, added: seq<real>): (r: seq<real>)
    ensures |r| == |original|
  {
    seq(|original|, k requires 0 <= k < |original| =>
      if offset <= k < offset + |added| then ClampUnit(original[k] + added[k - offset]) else original[k])
  }

  lemma OverlayAppend(original: seq<real>, offset: nat, a: seq<real>, b: seq<real>)
    ensures Overlay(Overlay(original, offset, a), offset + |a|, b) == Overlay(original, offset, a + b)
  {
  }

  lemma MixedAppend(original: seq<real>, offset: nat, a: seq<real>, b: seq<real>)
    ensures MixedOver(MixedOver(original, offset, a), offset + |a|, b) == MixedOver(original, offset, a + b)
  {
  }

  /** Where a frame starts, counted up frame by frame. */
  function FrameStart(offset: nat, frame: nat, channels: nat): nat {
    if frame == 0 then offset else FrameStart(offset, frame - 1, channels) + channels
  }

  lemma {:induction false} FrameStartIs(offset: nat, frame: nat, channels: nat)
    ensures FrameStart(offset, frame, channels) == offset + frame * channels
  {
    if frame > 0 {
      FrameStartIs(offset, frame - 1, channels);
      assert frame * channels == (frame - 1) * channels + channels;
    }
  }

  /** A frame lies inside the validated range. */
  lemma {:induction false} FrameFits(offset: nat, frame: nat, frameCount: nat, channels: nat)
    requires frame < frameCount
    ensures FrameStart(offset, frame, channels) + channels <= FrameStart(offset, frameCount, channels)
    decreases frameCount
  {
    if frame < frameCount - 1 {
      FrameFits(offset, frame, frameCount - 1, channels);
    }
  }

  lemma {:induction false} InterleaveEnds(offset: nat, values: seq<real>, channels: nat)
    ensures offset + |Interleave(values, channels)| == FrameStart(offset, |values|, channels)
    decreases |values|
  {
    if values != [] {
      var n := |values| - 1;
      InterleaveEnds(offset, values[..n], channels);
      RepeatLength(values[n], channels);
    }
  }

  lemma InterleaveOneMore(offset: nat, values: seq<real>, frame: nat, channels: nat)
    requires frame < |values|
    ensures offset + |Interleave(values[..frame], channels)| == FrameStart(offset, frame, channels)
    ensures Interleave(values[..frame + 1], channels) ==
            Interleave(values[..frame], channels) + Repeat(values[frame], channels)
  {
    InterleaveEnds(offset, values[..frame], channels);
    assert values[..frame + 1][..frame] == values[..frame];
  }

  lemma InterleavedPrefix(values: seq<real>, n: nat, channels: nat)
    requires n <= |values|
    ensures Interleave(values[..n], channels) <= Interleave(values, channels)
    decreases |values|
  {
    if n < |values| {
      InterleavedPrefix(values[..|values| - 1], n, channels);
      assert values[..|values| - 1][..n] == values[..n];
    } else {
      assert values[..n] == values;
    }
  }

  /** Frame by frame and channel by channel, the value of the frame. */
  lemma InterleavedAt(values: seq<real>, channels: nat, frame: nat, channel: nat)
    requires frame < |values| && channel < channels
    ensures FrameStart(0, frame, channels) + channel < |Interleave(values, channels)|
    ensures Interleave(values, channels)[FrameStart(0, frame, channels) + channel] == values[frame]
  {
    InterleaveOneMore(0, values, frame, channels);
    InterleavedPrefix(values, frame + 1, channels);
    RepeatLength(values[frame], channels);
  }

  lemma FrameStartShifts(offset: nat, frame: nat, channels: nat)
    ensures FrameStart(offset, frame, channels) == offset + FrameStart(0, frame, channels)
  {
    if frame > 0 {
      FrameStartShifts(offset, frame - 1, channels);
    }
  }

  /** What reading leaves on a channel of a frame: the sample over 32768. */
  lemma PlayedAt(original: seq<real>, offset: nat, samples: seq<int16>, channels: nat, frame: nat, channel: nat)
    requires frame < |samples| && channel < channels
    ensures var at := FrameStart(offset, frame, channels) + channel;
            at < |original| ==>
              Overlay(original, offset, Interleave(ToFloats(samples), channels))[at] == samples[frame] as real / 32768.0
  {
    InterleavedAt(ToFloats(samples), channels, frame, channel);
    FrameStartShifts(offset, frame, channels);
  }

  lemma MixedValueAt(original: seq<real>, offset: nat, values: seq<real>, channels: nat, frame: nat, channel: nat)
    requires frame < |values| && channel < channels
    ensures var at := FrameStart(offset, frame, channels) + channel;
            at < |original| ==>
              MixedOver(original, offset, Interleave(values, channels))[at] == ClampUnit(original[at] + values[frame])
  {
    InterleavedAt(values, channels, frame, channel);
    FrameStartShifts(offset, frame, channels);
  }

  /** A sample is scaled to the unit range and by the gain. */
  lemma ScaledIs(sample: int16, gain: real)
    ensures ScaledSample(sample, gain) == sample as real / 32768.0 * gain
  {
  }

  /** Clamping cuts to the unit range and changes nothing within. */
  lemma ClampedToUnit(x: real)
    ensures -1.0 <= ClampUnit(x) <= 1.0
    ensures -1.0 <= x <= 1.0 ==> ClampUnit(x) == x
    ensures x > 1.0 ==> ClampUnit(x) == 1.0
    ensures x < -1.0 ==> ClampUnit(x) == -1.0
  {
  }

  lemma ScaledAt(samples: seq<int16>, gain: real, i: nat)
    requires i < |samples|
    ensures Scaled(samples, gain)[i] == ScaledSample(samples[i], gain)
  {
  }

  /** What mixing leaves there: what was there and the scaled sample, clamped. */
  lemma MixedAt(original: seq<real>, offset: nat, samples: seq<int16>, gain: real, channels: nat,
                frame: nat, channel: nat)
    requires frame < |samples| && channel < channels
    ensures var at := FrameStart(offset, frame, channels) + channel;
            at < |original| ==>
              MixedOver(original, offset, Interleave(Scaled(samples, gain), channels))[at] ==
              ClampUnit(original[at] + ScaledSample(samples[frame], gain))
  {
    var values := Scaled(samples, gain);
    ScaledAt(samples, gain, frame);
    MixedValueAt(original, offset, values, channels, frame, channel);
  }

  /** Outside the frames played or mixed everything is left as it was. */
  lemma OutsideIsKept(original: seq<real>, offset: nat, values: seq<real>, channels: nat, at: nat)
    requires at < |original| && !(offset <= at < offset + |values| * channels)
    ensures Overlay(original, offset, Interleave(values, channels))[at] == original[at]
    ensures MixedOver(original, offset, Interleave(values, channels))[at] == original[at]
  {
    InterleaveEnds(offset, values, channels);
    FrameStartIs(offset, |values|, channels);
  }

  lemma OverlayFrame(original: seq<real>, offset: nat, values: seq<real>, frame: nat, channels: nat)
    requires frame < |values|
    ensures Overlay(Overlay(original, offset, Interleave(values[..frame], channels)),
                    FrameStart(offset, frame, channels), Repeat(values[frame], channels))
            == Overlay(original, offset, Interleave(values[..frame + 1], channels))
  {
    InterleaveOneMore(offset, values, frame, channels);
    OverlayAppend(original, offset, Interleave(values[..frame], channels), Repeat(values[frame], channels));
  }

  lemma MixedFrame(original: seq<real>, offset: nat, values: seq<real>, frame: nat, channels: nat)
    requires frame < |values|
    ensures MixedOver(MixedOver(original, offset, Interleave(values[..frame], channels)),
                      FrameStart(offset, frame, channels), Repeat(values[frame], channels))
            == MixedOver(original, offset, Interleave(values[..frame + 1], channels))
  {
    InterleaveOneMore(offset, values, frame, channels);
    MixedAppend(original, offset, Interleave(values[..frame], channels), Repeat(values[frame], channels));
  }

  lemma SignOfProduct(frameCount: int, channels: int)
    requires channels > 0
    ensures frameCount * channels >= 0 ==> frameCount >= 0
  {
    if frameCount < 0 {
      assert frameCount * channels <= -channels;
    }
  }

  lemma AppendNothing(held: seq<int16>, capacity: nat, dropOldest: bool)
    requires |held| <= capacity
    ensures Append(held, [], capacity, dropOldest) == held
  {
    assert held + [] == held;
  }

  /** Appending sample by sample, as the loop does. */
  function AppendEach(held: seq<int16>, samples: seq<int16>, capacity: nat, dropOldest: bool): (r: seq<int16>)
    requires |held| <= capacity
    ensures |r| <= capacity
  {
    if samples == [] then held
    else
      var n := |samples| - 1;
      AppendFits(AppendEach(held, samples[..n], capacity, dropOldest), [samples[n]], capacity, dropOldest);
      Append(AppendEach(held, samples[..n], capacity, dropOldest), [samples[n]], capacity, dropOldest)
  }

  lemma AppendFits(held: seq<int16>, samples: seq<int16>, capacity: nat, dropOldest: bool)
    requires |held| <= capacity
    ensures |Append(held, samples, capacity, dropOldest)| <= capacity
    ensures !dropOldest ==> |Append(held, samples, capacity, dropOldest)| == Min(|held| + |samples|, capacity)
  {
  }

  lemma {:induction false} EachIsAll(held: seq<int16>, samples: seq<int16>, capacity: nat, dropOldest: bool)
    requires |held| <= capacity
    ensures AppendEach(held, samples, capacity, dropOldest) == Append(held, samples, capacity, dropOldest)
    decreases |samples|
  {
    if samples == [] {
      AppendNothing(held, capacity, dropOldest);
    } else {
      var n := |samples| - 1;
      EachIsAll(held, samples[..n], capacity, dropOldest);
      AppendCompose(held, samples[..n], [samples[n]], capacity, dropOldest);
      assert samples[..n] + [samples[n]] == samples;
    }
  }

  lemma EachNext(held: seq<int16>, samples: seq<int16>, i: nat, capacity: nat, dropOldest: bool)
    requires |held| <= capacity && i < |samples|
    ensures AppendEach(held, samples[..i + 1], capacity, dropOldest) ==
            Append(AppendEach(held, samples[..i], capacity, dropOldest), [samples[i]], capacity, dropOldest)
  {
    assert samples[..i + 1][..i] == samples[..i];
  }

  /** Without drop-oldest, the first refused sample ends the enqueue for good. */
  lemma RefusalIsFinal(held: seq<int16>, samples: seq<int16>, i: nat, capacity: nat)
    requires |held| <= capacity && i < |samples| && |AppendEach(held, samples[..i], capacity, false)| == capacity
    requires |held| + i <= capacity
    ensures AppendEach(held, samples[..i], capacity, false) == Append(held, samples, capacity, false)
    ensures |held| + i == capacity
  {
    EachIsAll(held, samples[..i], capacity, false);
    AppendFits(held, samples[..i], capacity, false);
    assert samples[..i][..i] == samples[..i];
  }

  lemma RoomLeft(held: seq<int16>, samples: seq<int16>, i: nat, capacity: nat)
    requires |held| <= capacity && i < |samples| && |AppendEach(held, samples[..i], capacity, false)| < capacity
    requires |held| + i <= capacity
    ensures |held| + i < capacity
  {
    EachIsAll(held, samples[..i], capacity, false);
    AppendFits(held, samples[..i], capacity, false);
  }

  class PlaybackBuffer {
    const buffer: array<int16>
    var readIndex: nat
    var writeIndex: nat
    var count: nat
    var dropOldestOnOverflow: bool

    ghost predicate Valid()
      reads this, buffer
    {
      && 0 < buffer.Length && readIndex < buffer.Length && count <= buffer.Length
      && writeIndex == Wrap(readIndex + count, buffer.Length)
    }

    ghost function Contents(): seq<int16>
      requires Valid()
      reads this, buffer
    {
      Held(buffer[..], readIndex, count)
    }

    constructor (capacitySamples: nat)
      requires capacitySamples > 0
      ensures Valid() && fresh(buffer) && buffer.Length == capacitySamples
      ensures Contents() == [] && dropOldestOnOverflow
    {
      buffer := new int16[capacitySamples](_ => 0);
      readIndex, writeIndex, count := 0, 0, 0;
      dropOldestOnOverflow := true;
    }

    method Clear()
      requires Valid()
      modifies this`readIndex, this`writeIndex, this`count, buffer
      ensures Valid() && Contents() == []
      ensures forall i | 0 <= i < buffer.Length :: buffer[i] == 0
    {
      forall i | 0 <= i < buffer.Length {
        buffer[i] := 0;
      }
      readIndex, writeIndex, count := 0, 0, 0;
    }

    method DropOldest()
      requires Valid() && count > 0
      modifies this`readIndex, this`count
      ensures Valid()
      ensures Contents() == old(Contents())[1..] && old(Contents())[0] == old(buffer[readIndex])
    {
      HeldPop(buffer[..], readIndex, count);
      StepIsWrap(readIndex, buffer.Length);
      readIndex := (readIndex + 1) % buffer.Length;
      count := count - 1;
    }

    method Put(x: int16)
      requires Valid() && count < buffer.Length
      modifies this`writeIndex, this`count, buffer
      ensures Valid()
      ensures Contents() == old(Contents()) + [x]
    {
      HeldPush(buffer[..], readIndex, count, x);
      StepIsWrap(writeIndex, buffer.Length);
      WriteIndexMoves(readIndex, count, buffer.Length);
      buffer[writeIndex] := x;
      writeIndex := (writeIndex + 1) % buffer.Length;
      count := count + 1;
    }

    /** One sample of an enqueue; refused when full and the newest is to be dropped. */
    method EnqueueOne(x: int16) returns (written: bool)
      requires Valid()
      modifies this`readIndex, this`writeIndex, this`count, buffer
      ensures Valid()
      ensures written == (dropOldestOnOverflow || |old(Contents())| < buffer.Length)
      ensures Contents() == Append(old(Contents()), [x], buffer.Length, dropOldestOnOverflow)
      ensures !written ==> Contents() == old(Contents())
    {
      if count == buffer.Length {
        if !dropOldestOnOverflow {
          return false;
        }
        DropOldest();
      }
      Put(x);
      return true;
    }

    method Enqueue(samples: array<int16>, offset: int32, length: int32) returns (result: Outcome)
      requires Valid() && samples != buffer && samples.Length <= LONGEST_ARRAY
      modifies this`readIndex, this`writeIndex, this`count, buffer
      ensures Valid()
      ensures var checked := Validate(samples.Length, offset, length, Sum32(offset, length));
              && (!checked.Done? ==> result == checked && Contents() == old(Contents()))
              && (checked.Done? && !PassesByWrap(offset, length) ==>
                    && Contents() == Append(old(Contents()), samples[offset..offset + length], buffer.Length,
                                            dropOldestOnOverflow)
                    && result == Done(if dropOldestOnOverflow then length
                                      else Min(length, buffer.Length - |old(Contents())|)))
              && (PassesByWrap(offset, length) ==>
                    checked.Done?
                    && (Contents(), result) ==
                        AppendPastEnd(old(Contents()), Rest(samples[..], offset), buffer.Length, dropOldestOnOverflow))
    {
      result := Validate(samples.Length, offset, length, Sum32(offset, length));
      if !result.Done? {
        return;
      }
      if PassesByWrap(offset, length) {
        result := EnqueuePastEnd(samples, offset);
        return;
      }
      var written := EnqueueRange(samples, offset, length);
      return Done(written);
    }

    /** The loop when its range leads out of the array: the turns inside, then one more. */
    method EnqueuePastEnd(samples: array<int16>, offset: nat) returns (result: Outcome)
      requires Valid() && samples != buffer
      modifies this`readIndex, this`writeIndex, this`count, buffer
      ensures Valid()
      ensures (Contents(), result) == AppendPastEnd(old(Contents()), Rest(samples[..], offset), buffer.Length,
                                                    dropOldestOnOverflow)
    {
      ghost var held, rest := Contents(), Rest(samples[..], offset);
      AppendFits(held, rest, buffer.Length, dropOldestOnOverflow);
      if offset < samples.Length {
        assert rest == samples[offset..samples.Length];
        var written := EnqueueRange(samples, offset, samples.Length - offset);
        if written < samples.Length - offset {
          return Done(written);
        }
        result := EnqueueOutside(written);
      } else {
        AppendNothing(held, buffer.Length, dropOldestOnOverflow);
        result := EnqueueOutside(0);
      }
    }

    /** A turn of the loop with its index outside the array. */
    method EnqueueOutside(written: nat) returns (result: Outcome)
      requires Valid()
      modifies this`readIndex, this`count
      ensures Valid()
      ensures if old(count) == buffer.Length && !dropOldestOnOverflow
              then result == Done(written) && Contents() == old(Contents())
              else result == IndexOutOfRange
                   && Contents() == if old(count) == buffer.Length then old(Contents())[1..] else old(Contents())
    {
      if count == buffer.Length {
        if !dropOldestOnOverflow {
          return Done(written);
        }
        DropOldest();
      }
      return IndexOutOfRange;
    }

    /** One turn of the loop; a refused sample ends it. */
    method EnqueueNext(samples: array<int16>, offset: nat, written: nat, ghost start: seq<int16>,
                       ghost wanted: seq<int16>)
      returns (ok: bool)
      requires Valid() && samples != buffer && |start| <= buffer.Length
      requires offset + |wanted| <= samples.Length && wanted == samples[offset..offset + |wanted|] && written < |wanted|
      requires Contents() == AppendEach(start, wanted[..written], buffer.Length, dropOldestOnOverflow)
      requires !dropOldestOnOverflow ==> |start| + written <= buffer.Length
      modifies this`readIndex, this`writeIndex, this`count, buffer
      ensures Valid()
      ensures ok ==>
                && Contents() == AppendEach(start, wanted[..written + 1], buffer.Length, dropOldestOnOverflow)
                && (!dropOldestOnOverflow ==> |start| + written + 1 <= buffer.Length)
      ensures !ok ==>
                && !dropOldestOnOverflow && |start| + written == buffer.Length
                && Contents() == Append(start, wanted, buffer.Length, dropOldestOnOverflow)
    {
      EachNext(start, wanted, written, buffer.Length, dropOldestOnOverflow);
      ok := EnqueueOne(samples[offset + written]);
      if !ok {
        RefusalIsFinal(start, wanted, written, buffer.Length);
      } else if !dropOldestOnOverflow {
        RoomLeft(start, wanted, written, buffer.Length);
      }
    }

    method EnqueueRange(samples: array<int16>, offset: nat, length: nat) returns (written: nat)
      requires Valid() && samples != buffer && offset + length <= samples.Length
      modifies this`readIndex, this`writeIndex, this`count, buffer
      ensures Valid()
      ensures Contents() == Append(old(Contents()), samples[offset..offset + length], buffer.Length,
                                   dropOldestOnOverflow)
      ensures written == if dropOldestOnOverflow then length else Min(length, buffer.Length - |old(Contents())|)
    {
      ghost var start, wanted := Contents(), samples[offset..offset + length];
      written := 0;
      while written < length
        invariant 0 <= written <= length && Valid() && samples[offset..offset + length] == wanted
        invariant Contents() == AppendEach(start, wanted[..written], buffer.Length, dropOldestOnOverflow)
        invariant !dropOldestOnOverflow ==> |start| + written <= buffer.Length
      {
        var ok := EnqueueNext(samples, offset, written, start, wanted);
        if !ok {
          return;
        }
        written := written + 1;
      }
      assert wanted[..length] == wanted;
      EachIsAll(start, wanted, buffer.Length, dropOldestOnOverflow);
    }

    method Read(destination: array<int16>, offset: int32, length: int32) returns (result: Outcome)
      requires Valid() && destination != buffer && destination.Length <= LONGEST_ARRAY
      modifies this`readIndex, this`count, destination
      ensures Valid()
      ensures var checked := Validate(destination.Length, offset, length, Sum32(offset, length));
              var held := old(Contents());
              && (!checked.Done? ==> result == checked && Contents() == held && destination[..] == old(destination[..]))
              && (checked.Done? && !PassesByWrap(offset, length) ==>
                    var n := Min(length, |held|);
                    && result == Done(n) && Contents() == held[n..]
                    && forall k | 0 <= k < destination.Length :: destination[k] ==
                         if offset <= k < offset + n then held[k - offset]
                         else if offset <= k < offset + length then 0
                         else old(destination[k]))
              && (PassesByWrap(offset, length) ==>
                    var n := Min(|Rest(destination[..], offset)|, |held|);
                    && checked.Done? && result == IndexOutOfRange && Contents() == held[n..]
                    && forall k | 0 <= k < destination.Length :: destination[k] ==
                         if offset <= k < offset + n then held[k - offset] else old(destination[k]))
    {
      result := Validate(destination.Length, offset, length, Sum32(offset, length));
      if !result.Done? {
        return;
      }
      if PassesByWrap(offset, length) {
        // The loop or, if it ends before, the clearing leads out of the array.
        if offset < destination.Length {
          CopyOut(destination, offset, Min(destination.Length - offset, count));
        }
        return IndexOutOfRange;
      }
      var n := ReadRange(destination, offset, length);
      return Done(n);
    }

    /** The oldest samples, then zeros. */
    method ReadRange(destination: array<int16>, offset: nat, length: nat) returns (n: nat)
      requires Valid() && destination != buffer && offset + length <= destination.Length
      modifies this`readIndex, this`count, destination
      ensures Valid() && n == Min(length, |old(Contents())|) && Contents() == old(Contents())[n..]
      ensures forall k | 0 <= k < destination.Length :: destination[k] ==
                if offset <= k < offset + n then old(Contents())[k - offset]
                else if offset <= k < offset + length then 0
                else old(destination[k])
    {
      n := Min(length, count);
      CopyOut(destination, offset, n);
      forall k | n <= k < length {
        destination[offset + k] := 0;
      }
    }

    /** The oldest samples, which leave the buffer. */
    method CopyOut(destination: array<int16>, offset: nat, n: nat)
      requires Valid() && destination != buffer && n <= count && offset + n <= destination.Length
      modifies this`readIndex, this`count, destination
      ensures Valid() && Contents() == old(Contents())[n..]
      ensures forall k | 0 <= k < destination.Length ::
                destination[k] == if offset <= k < offset + n then old(Contents())[k - offset] else old(destination[k])
    {
      ghost var start := Contents();
      for i := 0 to n
        invariant Valid() && Contents() == start[i..]
        invariant forall k | 0 <= k < destination.Length ::
                    destination[k] == if offset <= k < offset + i then start[k - offset] else old(destination[k])
      {
        CopyOne(destination, offset + i);
      }
    }

    method CopyOne(destination: array<int16>, at: nat)
      requires Valid() && count > 0 && destination != buffer && at < destination.Length
      modifies this`readIndex, this`count, destination
      ensures Valid() && Contents() == old(Contents())[1..]
      ensures destination[at] == old(Contents())[0]
      ensures forall k | 0 <= k < destination.Length && k != at :: destination[k] == old(destination[k])
    {
      var x := TakeSample();
      destination[at] := x;
    }

    method TakeSample() returns (x: int16)
      requires Valid() && count > 0
      modifies this`readIndex, this`count
      ensures Valid()
      ensures x == old(Contents())[0] && Contents() == old(Contents())[1..]
    {
      x := buffer[readIndex];
      DropOldest();
    }

    /** `frameCount` frames on `channels` channels: the oldest samples as floats, then silence. */
    method ReadIntoInterleavedFloat(destination: array<real>, offset: int, channels: int, frameCount: int)
      returns (result: Outcome)
      requires Valid()
      modifies this`readIndex, this`count, destination
      ensures Valid()
      ensures channels <= 0 ==> result == ArgumentOutOfRange
      ensures channels > 0 &&
              !Validate(destination.Length, offset, frameCount * channels, offset + frameCount * channels).Done? ==>
                result == Validate(destination.Length, offset, frameCount * channels, offset + frameCount * channels)
      ensures !result.Done? ==> Contents() == old(Contents()) && destination[..] == old(destination[..])
      ensures result.Done? ==>
                && frameCount >= 0 && channels > 0 && offset >= 0
                && (var held := old(Contents());
                    var n := Min(frameCount, |held|);
                    var values := ToFloats(held[..n]) + seq(frameCount - n, _ => 0.0);
                    && result == Done(n) && Contents() == held[n..]
                    && destination[..] == Overlay(old(destination[..]), offset, Interleave(values, channels)))
    {
      if channels <= 0 {
        return ArgumentOutOfRange;
      }
      result := Validate(destination.Length, offset, frameCount * channels, offset + frameCount * channels);
      if !result.Done? {
        return;
      }
      SignOfProduct(frameCount, channels);
      FrameStartIs(offset, frameCount, channels);
      ghost var start, original := Contents(), destination[..];
      var framesRead := Min(frameCount, count);
      ghost var values := ToFloats(start[..framesRead]) + seq(frameCount - framesRead, _ => 0.0);
      PlayFrames(destination, offset, channels, frameCount, framesRead, values);
      FillSilence(destination, offset, channels, framesRead, frameCount, original, values);
      assert values[..frameCount] == values;
      return Done(framesRead);
    }

    method PlayFrames(destination: array<real>, offset: nat, channels: nat, frameCount: nat, framesRead: nat,
                      ghost values: seq<real>)
      requires Valid() && framesRead <= count && framesRead <= frameCount
      requires FrameStart(offset, frameCount, channels) <= destination.Length
      requires |values| == frameCount
      requires forall i | 0 <= i < framesRead :: values[i] == Pcm16ToFloat(Contents()[i])
      modifies this`readIndex, this`count, destination
      ensures Valid() && Contents() == old(Contents())[framesRead..]
      ensures destination[..] == Overlay(old(destination[..]), offset, Interleave(values[..framesRead], channels))
    {
      ghost var start, original := Contents(), destination[..];
      for frame := 0 to framesRead
        invariant Valid() && Contents() == start[frame..]
        invariant destination[..] == Overlay(original, offset, Interleave(values[..frame], channels))
      {
        FrameFits(offset, frame, frameCount, channels);
        var base := BaseIndex(offset, frame, channels);
        PlayOneFrame(destination, base, channels);
        OverlayFrame(original, offset, values, frame, channels);
      }
    }

    static method BaseIndex(offset: nat, frame: nat, channels: nat) returns (base: nat)
      ensures base == FrameStart(offset, frame, channels)
    {
      FrameStartIs(offset, frame, channels);
      base := offset + frame * channels;
    }

    method PlayOneFrame(destination: array<real>, base: nat, channels: nat)
      requires Valid() && count > 0 && base + channels <= destination.Length
      modifies this`readIndex, this`count, destination
      ensures Valid() && Contents() == old(Contents())[1..]
      ensures destination[..] == Overlay(old(destination[..]), base, Repeat(Pcm16ToFloat(old(Contents())[0]), channels))
    {
      var sample := TakeSample();
      FillFrame(destination, base, channels, Pcm16ToFloat(sample));
    }

    static method FillSilence(destination: array<real>, offset: nat, channels: nat, framesRead: nat, frameCount: nat,
                              ghost original: seq<real>, ghost values: seq<real>)
      requires framesRead <= frameCount && FrameStart(offset, frameCount, channels) <= destination.Length
      requires |values| == frameCount && forall i | framesRead <= i < frameCount :: values[i] == 0.0
      requires destination[..] == Overlay(original, offset, Interleave(values[..framesRead], channels))
      modifies destination
      ensures destination[..] == Overlay(original, offset, Interleave(values[..frameCount], channels))
    {
      for frame := framesRead to frameCount
        invariant destination[..] == Overlay(original, offset, Interleave(values[..frame], channels))
      {
        FrameFits(offset, frame, frameCount, channels);
        var base := BaseIndex(offset, frame, channels);
        FillFrame(destination, base, channels, 0.0);
        OverlayFrame(original, offset, values, frame, channels);
      }
    }

    static method FillFrame(destination: array<real>, base: nat, channels: nat, x: real)
      requires base + channels <= destination.Length
      modifies destination
      ensures destination[..] == Overlay(old(destination[..]), base, Repeat(x, channels))
    {
      RepeatLength(x, channels);
      for channel := 0 to channels
        invariant forall k | 0 <= k < destination.Length ::
                    destination[k] == if base <= k < base + channel then x else old(destination[k])
      {
        destination[base + channel] := x;
      }
    }

    /** Mixes the oldest samples, scaled, into what is there, clamped to the unit range; frames
        for which no sample is held are left alone. */
    method MixIntoInterleavedFloat(destination: array<real>, offset: int, channels: int, frameCount: int, gain: real)
      returns (result: Outcome)
      requires Valid()
      modifies this`readIndex, this`count, destination
      ensures Valid()
      ensures channels <= 0 ==> result == ArgumentOutOfRange
      ensures channels > 0 &&
              !Validate(destination.Length, offset, frameCount * channels, offset + frameCount * channels).Done? ==>
                result == Validate(destination.Length, offset, frameCount * channels, offset + frameCount * channels)
      ensures !result.Done? ==> Contents() == old(Contents()) && destination[..] == old(destination[..])
      ensures result.Done? ==>
                && frameCount >= 0 && channels > 0 && offset >= 0
                && (var held := old(Contents());
                    var n := Min(frameCount, |held|);
                    && result == Done(n) && Contents() == held[n..]
                    && destination[..] ==
                        MixedOver(old(destination[..]), offset, Interleave(Scaled(held[..n], gain), channels)))
    {
      if channels <= 0 {
        return ArgumentOutOfRange;
      }
      result := Validate(destination.Length, offset, frameCount * channels, offset + frameCount * channels);
      if !result.Done? {
        return;
      }
      SignOfProduct(frameCount, channels);
      FrameStartIs(offset, frameCount, channels);
      var framesRead := Min(frameCount, count);
      ghost var values := Scaled(Contents()[..framesRead], gain);
      MixFrames(destination, offset, channels, frameCount, framesRead, gain, values);
      assert values[..framesRead] == values;
      return Done(framesRead);
    }

    method MixFrames(destination: array<real>, offset: nat, channels: nat, frameCount: nat, framesRead: nat, gain: real,
                     ghost values: seq<real>)
      requires Valid() && framesRead <= count && framesRead <= frameCount
      requires FrameStart(offset, frameCount, channels) <= destination.Length
      requires |values| == framesRead
      requires forall i | 0 <= i < framesRead :: values[i] == ScaledSample(Contents()[i], gain)
      modifies this`readIndex, this`count, destination
      ensures Valid() && Contents() == old(Contents())[framesRead..]
      ensures destination[..] == MixedOver(old(destination[..]), offset, Interleave(values[..framesRead], channels))
    {
      ghost var start, original := Contents(), destination[..];
      for frame := 0 to framesRead
        invariant Valid() && Contents() == start[frame..]
        invariant destination[..] == MixedOver(original, offset, Interleave(values[..frame], channels))
      {
        FrameFits(offset, frame, frameCount, channels);
        var base := BaseIndex(offset, frame, channels);
        MixOneFrame(destination, base, channels, gain);
        MixedFrame(original, offset, values, frame, channels);
      }
    }

    method MixOneFrame(destination: array<real>, base: nat, channels: nat, gain: real)
      requires Valid() && count > 0 && base + channels <= destination.Length
      modifies this`readIndex, this`count, destination
      ensures Valid() && Contents() == old(Contents())[1..]
      ensures destination[..] == MixedOver(old(destination[..]), base,
                                           Repeat(ScaledSample(old(Contents())[0], gain), channels))
    {
      var sample := TakeSample();
      MixFrame(destination, base, channels, ScaledSample(sample, gain));
    }

    static method MixFrame(destination: array<real>, base: nat, channels: nat, x: real)
      requires base + channels <= destination.Length
      modifies destination
      ensures destination[..] == MixedOver(old(destination[..]), base, Repeat(x, channels))
    {
      RepeatLength(x, channels);
      for channel := 0 to channels
        invariant forall k | 0 <= k < destination.Length ::
                    destination[k] ==
                    if base <= k < base + channel then ClampUnit(old(destination[k]) + x) else old(destination[k])
      {
        destination[base + channel] := ClampUnit(destination[base + channel] + x);
      }
    }
  }
}
