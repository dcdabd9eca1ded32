/** Microphone re-blocking: a looping recording is read through a moving cursor, in chunks,
    and cut into frames of a fixed size for submission. */
module MicReblocking {
  import opened Words
  import opened Sequences

  // ----- the sequence view

  /** A stream cut into full frames of `n` samples and an incomplete rest. */
  ghost predicate Blocked(frames: seq<seq<int16>>, pending: seq<int16>, n: nat, stream: seq<int16>) {
    && (forall f | f in frames :: |f| == n)
    && |pending| < n
    && Joined(frames) + pending == stream
  }

  /** The cut depends on the stream alone, not on the chunks it came in. */
  lemma {:induction false} BlockingIsUnique(frames: seq<seq<int16>>, pending: seq<int16>, frames': seq<seq<int16>>,
                                            pending': seq<int16>, n: nat, stream: seq<int16>)
    requires Blocked(frames, pending, n, stream) && Blocked(frames', pending', n, stream)
    ensures frames == frames' && pending == pending'
    decreases |stream|
  {
    if frames == [] && frames' == [] {
      assert [] + pending == pending && [] + pending' == pending';
    } else if frames == [] || frames' == [] {
      ShortHasNoFrame(frames, pending, n, stream);
      ShortHasNoFrame(frames', pending', n, stream);
    } else {
      FirstBlock(frames, pending, n, stream);
      FirstBlock(frames', pending', n, stream);
      BlockingIsUnique(frames[1..], pending, frames'[1..], pending', n, stream[n..]);
      assert frames == [frames[0]] + frames[1..] && frames' == [frames'[0]] + frames'[1..];
    }
  }

  lemma ShortHasNoFrame(frames: seq<seq<int16>>, pending: seq<int16>, n: nat, stream: seq<int16>)
    requires Blocked(frames, pending, n, stream)
    ensures frames == [] <==> |stream| < n
  {
    if frames != [] {
      assert frames[0] in frames;
      JoinedFront(frames);
    }
  }

  lemma FirstBlock(frames: seq<seq<int16>>, pending: seq<int16>, n: nat, stream: seq<int16>)
    requires Blocked(frames, pending, n, stream) && frames != []
    ensures n <= |stream| && frames[0] == stream[..n]
    ensures Blocked(frames[1..], pending, n, stream[n..])
  {
    assert frames[0] in frames;
    JoinedFront(frames);
    assert stream == frames[0] + (Joined(frames[1..]) + pending);
  }

  // ----- reading a looping recording

  /** The part of the clip between two cursor positions, in ring order. */
  function Between<T>(clip: seq<T>, last: nat, current: int): seq<T>
    requires last < |clip| && current < |clip|
  {
    if current < 0 || current == last then []
    else if current > last then clip[last..current]
    else clip[last..] + clip[..current]
  }

  lemma BetweenLength<T>(clip: seq<T>, last: nat, current: nat)
    requires last < |clip| && current < |clip|
    ensures |Between(clip, last, current)| == (current - last) % |clip|
  {
    if current >= last {
      SmallRemainder(current - last, |clip|, 0);
    } else {
      SmallRemainder(current - last + |clip|, |clip|, -1);
    }
  }

  lemma SmallRemainder(r: nat, m: nat, q: int)
    requires r < m
    ensures (m * q + r) % m == r
  {
    var x := m * q + r;
    var k := q - x / m;
    assert x == m * (x / m) + x % m;
    assert m * k == m * q - m * (x / m);
    assert -(m as int) < m * k < m;
    MultipleInRange(m, k);
  }

  lemma MultipleInRange(m: nat, k: int)
    requires -(m as int) < m * k < m
    ensures k == 0
  {
    MultipleGrows(m, k);
  }

  lemma MultipleGrows(m: nat, k: int)
    ensures k >= 1 ==> m * k >= m
    ensures k <= -1 ==> m * k <= -(m as int)
  {
    if k >= 1 {
      assert m * k == m * (k - 1) + m;
      NonNegativeProduct(m, k - 1);
    } else if k <= -1 {
      assert m * k == -(m * (-k - 1)) - m;
      NonNegativeProduct(m, -k - 1);
    }
  }

  lemma NonNegativeProduct(a: nat, b: nat)
    ensures a * b >= 0
  {
  }

  /** What a clip of `size` slots holds once the first `total` items of an endless recording
      have been written around it; `silence` where nothing was written yet. */
  ghost predicate Records<T>(clip: seq<T>, recording: nat -> T, total: nat) {
    && |clip| > 0
    && forall k: nat | k < total <= k + |clip| :: clip[k % |clip|] == recording(k)
  }

  ghost function Recorded<T>(recording: nat -> T, from: nat, to: nat): seq<T>
    requires from <= to
  {
    seq(to - from, i requires 0 <= i => recording(from + i))
  }

  lemma RemainderSteps(start: nat, i: nat, m: nat)
    requires m > 0 && i < m
    ensures (start + i) % m == if start % m + i < m then start % m + i else start % m + i - m
  {
    var q, r := start / m, start % m;
    assert start == m * q + r;
    if r + i < m {
      SmallRemainder(r + i, m, q);
    } else {
      assert m * q + r + i == m * (q + 1) + (r + i - m);
      SmallRemainder(r + i - m, m, q + 1);
    }
  }

  /** Between two pumps the cursor reads exactly what was recorded in between, nothing lost or
      repeated, if and only if less than one clip length was recorded. */
  lemma PumpReadsRecording<T>(clip: seq<T>, recording: nat -> T, before: nat, total: nat)
    requires Records(clip, recording, total) && before <= total
    ensures total - before < |clip| ==>
              Between(clip, before % |clip|, total % |clip|) == Recorded(recording, before, total)
    ensures |Between(clip, before % |clip|, total % |clip|)| == total - before <==> total - before < |clip|
  {
    var m := |clip|;
    BetweenLength(clip, before % m, total % m);
    if total - before < m {
      var d := total - before;
      RemainderSteps(before, d, m);
      var read := Between(clip, before % m, total % m);
      assert |read| == d;
      forall i | 0 <= i < d
        ensures read[i] == recording(before + i)
      {
        RemainderSteps(before, i, m);
        assert clip[(before + i) % m] == recording(before + i);
      }
    }
  }

  /** What a run of pumps reads: at each one, the recording has `totals[i]` items and the clip
      holds what it then holds. */
  ghost function ReadByPumps<T>(clips: seq<seq<T>>, totals: seq<nat>, start: nat): seq<T>
    requires |clips| == |totals| && forall i | 0 <= i < |clips| :: |clips[i]| > 0
    decreases |clips|
  {
    if clips == [] then []
    else
      Between(clips[0], start % |clips[0]|, totals[0] % |clips[0]|) + ReadByPumps(clips[1..], totals[1..], totals[0])
  }

  ghost predicate PumpedInTime<T>(clips: seq<seq<T>>, recording: nat -> T, totals: seq<nat>, start: nat, size: nat)
    decreases |clips|
  {
    && |clips| == |totals|
    && (clips != [] ==>
          && |clips[0]| == size && Records(clips[0], recording, totals[0])
          && start <= totals[0] < start + size
          && PumpedInTime(clips[1..], recording, totals[1..], totals[0], size))
  }

  lemma RecordedExtends<T>(recording: nat -> T, from: nat, middle: nat, to: nat)
    requires from <= middle <= to
    ensures Recorded(recording, from, middle) + Recorded(recording, middle, to) == Recorded(recording, from, to)
  {
  }

  lemma {:induction false} PumpedClipsHaveSize<T>(clips: seq<seq<T>>, recording: nat -> T, totals: seq<nat>,
                                                  start: nat, size: nat)
    requires PumpedInTime(clips, recording, totals, start, size)
    ensures |clips| == |totals| && forall i | 0 <= i < |clips| :: |clips[i]| == size > 0
    decreases |clips|
  {
    if clips != [] {
      PumpedClipsHaveSize(clips[1..], recording, totals[1..], totals[0], size);
      assert clips == [clips[0]] + clips[1..];
    }
  }

  /** Over any run of pumps, each within one clip length of the one before, the samples read
      are the whole recording from start to last pump, in order. */
  lemma {:induction false} PumpsReadWholeRecording<T>(clips: seq<seq<T>>, recording: nat -> T, totals: seq<nat>,
                                                      start: nat, size: nat)
    requires PumpedInTime(clips, recording, totals, start, size)
    ensures |clips| == |totals| && forall i | 0 <= i < |clips| :: |clips[i]| == size > 0
    ensures start <= LastOr(totals, start)
    ensures ReadByPumps(clips, totals, start) == Recorded(recording, start, LastOr(totals, start))
    decreases |clips|
  {
    PumpedClipsHaveSize(clips, recording, totals, start, size);
    if clips != [] {
      PumpsReadWholeRecording(clips[1..], recording, totals[1..], totals[0], size);
      assert LastOr(totals[1..], totals[0]) == LastOr(totals, start);
      PumpReadsRecording(clips[0], recording, start, totals[0]);
      RecordedExtends(recording, start, totals[0], LastOr(totals, start));
    }
  }

  lemma Associates(a: seq<int16>, b: seq<int16>, c: seq<int16>)
    ensures a + (b + c) == a + b + c
    ensures c == [] ==> a + (b + c) == a + b
  {
  }

  lemma TakeMore(before: seq<int16>, s: seq<int16>, i: nat, j: nat)
    requires i <= j <= |s|
    ensures before + s[..i] + s[i..j] == before + s[..j]
  {
    assert s[..j] == s[..i] + s[i..j];
  }

  /** More samples pend; when they fill a block it joins the frames. */
  lemma MorePending(frames: seq<seq<int16>>, pending: seq<int16>, chunk: seq<int16>, n: nat, stream: seq<int16>)
    requires Blocked(frames, pending, n, stream) && |pending| + |chunk| <= n
    ensures |pending| + |chunk| < n ==> Blocked(frames, pending + chunk, n, stream + chunk)
    ensures |pending| + |chunk| == n ==> Blocked(frames + [pending + chunk], [], n, stream + chunk)
  {
    assert Joined(frames) + (pending + chunk) == stream + chunk;
    assert (frames + [pending + chunk])[..|frames|] == frames;
    assert Joined(frames + [pending + chunk]) + [] == Joined(frames) + (pending + chunk);
  }

  /** How many of `count` samples from `start` on are read in chunks of at most `limit` before
      the clip fails to give its data. */
  function Readable(readable: nat -> bool, start: nat, count: nat, limit: nat): (n: nat)
    requires limit > 0
    ensures n <= count
    decreases count
  {
    if count == 0 || !readable(start) then 0
    else
      var chunk := Min(count, limit);
      chunk + Readable(readable, start + chunk, count - chunk, limit)
  }

  /** Reading stops short only where the clip gives no data. */
  lemma {:induction false} StopsWhereUnreadable(readable: nat -> bool, start: nat, count: nat, limit: nat)
    requires limit > 0
    ensures var n := Readable(readable, start, count, limit);
            && (n < count ==> !readable(start + n))
            && (n > 0 ==> readable(start))
    decreases count
  {
    if count > 0 && readable(start) {
      var chunk := Min(count, limit);
      StopsWhereUnreadable(readable, start + chunk, count - chunk, limit);
    }
  }

  lemma {:induction false} AllReadable(readable: nat -> bool, start: nat, count: nat, limit: nat)
    requires limit > 0 && forall p :: readable(p)
    ensures Readable(readable, start, count, limit) == count
    decreases count
  {
    if count > 0 {
      var chunk := Min(count, limit);
      AllReadable(readable, start + chunk, count - chunk, limit);
    }
  }

  // ----- the component

  class MicInput<T> {
    /** The average of a sample's channels, clamped and rounded to 16 bits: left opaque. */
    const toMono: T -> int16
    const frameSubmitBuffer: array<int16>
    const maxSamplesPerUpdate: nat
    var monoScratchBuffer: array<int16>
    var frameWriteCount: nat
    var lastReadPosition: nat

    /** The frames submitted so far, and everything consumed since the capture started. */
    ghost var submitted: seq<seq<int16>>
    ghost var stream: seq<int16>

    ghost predicate Valid()
      reads this, frameSubmitBuffer
    {
      && 0 < frameSubmitBuffer.Length && 0 < maxSamplesPerUpdate
      && monoScratchBuffer != frameSubmitBuffer
      && frameWriteCount < frameSubmitBuffer.Length
      && Blocked(submitted, frameSubmitBuffer[..frameWriteCount], frameSubmitBuffer.Length, stream)
    }

    constructor (toMono: T -> int16, requiredFrameSamples: nat, maxSamplesPerUpdate: nat)
      requires requiredFrameSamples > 0 && maxSamplesPerUpdate > 0
      ensures Valid() && fresh(frameSubmitBuffer) && fresh(monoScratchBuffer)
      ensures frameSubmitBuffer.Length == requiredFrameSamples && this.maxSamplesPerUpdate == maxSamplesPerUpdate
      ensures this.toMono == toMono && lastReadPosition == 0 && submitted == [] && stream == []
    {
      this.toMono := toMono;
      this.maxSamplesPerUpdate := maxSamplesPerUpdate;
      frameSubmitBuffer := new int16[requiredFrameSamples];
      monoScratchBuffer := new int16[0];
      frameWriteCount, lastReadPosition := 0, 0;
      submitted, stream := [], [];
    }

    method SubmitFrame()
      requires frameWriteCount == frameSubmitBuffer.Length
      modifies this`submitted
      ensures submitted == old(submitted) + [frameSubmitBuffer[..]]
    {
      submitted := submitted + [frameSubmitBuffer[..]];
    }

    /** Copies samples behind the pending ones. */
    method CopyChunk(samples: array<int16>, offset: nat, copyCount: nat)
      requires samples != frameSubmitBuffer && offset + copyCount <= samples.Length
      requires frameWriteCount + copyCount <= frameSubmitBuffer.Length
      modifies this`frameWriteCount, frameSubmitBuffer
      ensures frameWriteCount == old(frameWriteCount) + copyCount
      ensures frameSubmitBuffer[..frameWriteCount] ==
              old(frameSubmitBuffer[..frameWriteCount]) + samples[offset..offset + copyCount]
    {
      forall i | 0 <= i < copyCount {
        frameSubmitBuffer[frameWriteCount + i] := samples[offset + i];
      }
      frameWriteCount := frameWriteCount + copyCount;
    }

    /** One turn of the loop: copy what fits, submit when full. */
    method AccumulateOnce(samples: array<int16>, offset: nat, remaining: nat) returns (copyCount: nat)
      requires Valid() && samples != frameSubmitBuffer && 0 < remaining && offset + remaining <= samples.Length
      modifies this`frameWriteCount, this`submitted, this`stream, frameSubmitBuffer
      ensures Valid() && 0 < copyCount <= remaining
      ensures stream == old(stream) + samples[offset..offset + copyCount]
    {
      ghost var pending := frameSubmitBuffer[..frameWriteCount];
      var needed := frameSubmitBuffer.Length - frameWriteCount;
      copyCount := Min(needed, remaining);
      ghost var chunk := samples[offset..offset + copyCount];
      MorePending(submitted, pending, chunk, frameSubmitBuffer.Length, stream);
      CopyChunk(samples, offset, copyCount);
      stream := stream + chunk;
      if frameWriteCount == frameSubmitBuffer.Length {
        SubmitFrame();
        assert frameSubmitBuffer[..frameWriteCount] == frameSubmitBuffer[..];
        frameWriteCount := 0;
        assert frameSubmitBuffer[..0] == [];
      }
    }

    /** The same, `start` and a part of the chunk having been consumed before. */
    method AccumulateNext(samples: array<int16>, ghost start: seq<int16>, offset: nat, remaining: nat)
      returns (copyCount: nat)
      requires Valid() && samples != frameSubmitBuffer && 0 < remaining && offset + remaining <= samples.Length
      requires stream == start + samples[..offset]
      modifies this`frameWriteCount, this`submitted, this`stream, frameSubmitBuffer
      ensures Valid() && 0 < copyCount <= remaining
      ensures stream == start + samples[..offset + copyCount]
    {
      copyCount := AccumulateOnce(samples, offset, remaining);
      TakeMore(start, samples[..], offset, offset + copyCount);
      assert samples[..][offset..offset + copyCount] == samples[offset..offset + copyCount];
    }

    /** Fills the frame buffer from the chunk, submitting every time it is full. */
    method AccumulateAndSubmitFrames(samples: array<int16>, sampleCount: nat)
      requires Valid() && sampleCount <= samples.Length && samples != frameSubmitBuffer
      modifies this`frameWriteCount, this`submitted, this`stream, frameSubmitBuffer
      ensures Valid()
      ensures stream == old(stream) + samples[..sampleCount]
    {
      ghost var start := stream;
      var offset: nat, remaining: nat := 0, sampleCount;
      while remaining > 0
        invariant Valid() && offset + remaining == sampleCount
        invariant stream == start + samples[..offset]
      {
        var copyCount := AccumulateNext(samples, start, offset, remaining);
        offset := offset + copyCount;
        remaining := remaining - copyCount;
      }
    }

    /** The mono samples of a stretch of the clip. */
    ghost function Mono(items: seq<T>): (r: seq<int16>)
      ensures |r| == |items| && forall i | 0 <= i < |items| :: r[i] == toMono(items[i])
    {
      seq(|items|, i requires 0 <= i < |items| => toMono(items[i]))
    }

    ghost function MonoRange(clip: seq<T>, a: nat, b: nat): (r: seq<int16>)
      requires a <= b <= |clip|
      ensures |r| == b - a
    {
      seq(b - a, i requires 0 <= i < b - a && b <= |clip| => toMono(clip[a + i]))
    }

    /** Reads a chunk of the clip into the scratch buffer, which grows when too small. */
    method ReadChunk(clip: seq<T>, readStart: nat, chunkSamples: nat)
      requires Valid() && readStart + chunkSamples <= |clip|
      modifies this`monoScratchBuffer, monoScratchBuffer
      ensures Valid()
      ensures monoScratchBuffer == old(monoScratchBuffer) || fresh(monoScratchBuffer)
      ensures chunkSamples <= monoScratchBuffer.Length
      ensures monoScratchBuffer[..chunkSamples] == MonoRange(clip, readStart, readStart + chunkSamples)
    {
      if monoScratchBuffer.Length < chunkSamples {
        monoScratchBuffer := new int16[chunkSamples];
      }
      Downmix(clip, readStart, chunkSamples, monoScratchBuffer);
    }

    method Downmix(clip: seq<T>, readStart: nat, chunkSamples: nat, scratch: array<int16>)
      requires readStart + chunkSamples <= |clip| && chunkSamples <= scratch.Length
      modifies scratch
      ensures scratch[..chunkSamples] == MonoRange(clip, readStart, readStart + chunkSamples)
    {
      for frame := 0 to chunkSamples
        invariant forall i | 0 <= i < frame :: scratch[i] == toMono(clip[readStart + i])
      {
        scratch[frame] := toMono(clip[readStart + frame]);
      }
    }

    method ConsumeChunk(clip: seq<T>, readStart: nat, chunkSamples: nat)
      requires Valid() && readStart + chunkSamples <= |clip|
      modifies this`frameWriteCount, this`submitted, this`stream, this`monoScratchBuffer, frameSubmitBuffer,
               monoScratchBuffer
      ensures Valid() && (monoScratchBuffer == old(monoScratchBuffer) || fresh(monoScratchBuffer))
      ensures stream == old(stream) + MonoRange(clip, readStart, readStart + chunkSamples)
    {
      ReadChunk(clip, readStart, chunkSamples);
      AccumulateAndSubmitFrames(monoScratchBuffer, chunkSamples);
    }

    /** The samples that reading a stretch of the clip will consume. */
    ghost function StillToRead(clip: seq<T>, readable: nat -> bool, start: nat, count: nat): seq<int16>
      requires start + count <= |clip| && maxSamplesPerUpdate > 0
    {
      MonoRange(clip, start, start + Readable(readable, start, count, maxSamplesPerUpdate))
    }

    /** A chunk is the first of what is still to read. */
    lemma NextChunk(clip: seq<T>, readable: nat -> bool, start: nat, count: nat)
      requires start + count <= |clip| && maxSamplesPerUpdate > 0 && count > 0
      ensures var chunk := Min(count, maxSamplesPerUpdate);
              StillToRead(clip, readable, start, count) ==
              if !readable(start) then []
              else MonoRange(clip, start, start + chunk) + StillToRead(clip, readable, start + chunk, count - chunk)
    {
    }

    /** One turn of the loop, what is to be read when it ends being known. */
    method ReadNext(clip: seq<T>, readable: nat -> bool, readStart: nat, remaining: nat, ghost goal: seq<int16>)
      returns (chunkSamples: nat)
      requires Valid() && readStart + remaining <= |clip| && remaining > 0 && readable(readStart)
      requires stream + StillToRead(clip, readable, readStart, remaining) == goal
      modifies this`frameWriteCount, this`submitted, this`stream, this`monoScratchBuffer, frameSubmitBuffer,
               monoScratchBuffer
      ensures Valid() && (monoScratchBuffer == old(monoScratchBuffer) || fresh(monoScratchBuffer))
      ensures 0 < chunkSamples <= remaining
      ensures stream + StillToRead(clip, readable, readStart + chunkSamples, remaining - chunkSamples) == goal
    {
      ghost var before := stream;
      chunkSamples := Min(remaining, maxSamplesPerUpdate);
      NextChunk(clip, readable, readStart, remaining);
      ConsumeChunk(clip, readStart, chunkSamples);
      Associates(before, MonoRange(clip, readStart, readStart + chunkSamples),
                 StillToRead(clip, readable, readStart + chunkSamples, remaining - chunkSamples));
    }

    /** Chunk by chunk, until everything is consumed or the clip fails to give its data. */
    method ReadAndAccumulate(clip: seq<T>, readable: nat -> bool, startSample: nat, sampleCount: nat)
      requires Valid() && startSample + sampleCount <= |clip|
      modifies this`frameWriteCount, this`submitted, this`stream, this`monoScratchBuffer, frameSubmitBuffer,
               monoScratchBuffer
      ensures Valid() && (monoScratchBuffer == old(monoScratchBuffer) || fresh(monoScratchBuffer))
      ensures stream == old(stream) + StillToRead(clip, readable, startSample, sampleCount)
    {
      ghost var goal := stream + StillToRead(clip, readable, startSample, sampleCount);
      var remaining: nat, readStart: nat := sampleCount, startSample;
      while remaining > 0
        invariant Valid() && (monoScratchBuffer == old(monoScratchBuffer) || fresh(monoScratchBuffer))
        invariant readStart + remaining == startSample + sampleCount
        invariant stream + StillToRead(clip, readable, readStart, remaining) == goal
      {
        if !readable(readStart) {
          NextChunk(clip, readable, readStart, remaining);
          return;
        }
        var chunkSamples := ReadNext(clip, readable, readStart, remaining, goal);
        remaining := remaining - chunkSamples;
        readStart := readStart + chunkSamples;
      }
      assert StillToRead(clip, readable, readStart, remaining) == [];
    }

    /** The consumed stream after one update that reads from the last cursor position to the
        current one. */
    ghost function Pumped(before: seq<int16>, clip: seq<T>, readable: nat -> bool, last: nat, current: int): seq<int16>
      requires last < |clip| && current < |clip| && maxSamplesPerUpdate > 0
    {
      if current < 0 || current == last then before
      else if current > last then before + StillToRead(clip, readable, last, current - last)
      else before + StillToRead(clip, readable, last, |clip| - last) + StillToRead(clip, readable, 0, current)
    }

    /** One update; without a client, samples or channels it does nothing. `readable` tells
        from which positions the clip gives its data. */
    method PumpMicrophone(hasClient: bool, clip: seq<T>, channels: int, currentPosition: int, readable: nat -> bool)
      requires Valid() && (clip != [] ==> lastReadPosition < |clip| && currentPosition < |clip|)
      modifies this, frameSubmitBuffer, monoScratchBuffer
      ensures Valid() && (monoScratchBuffer == old(monoScratchBuffer) || fresh(monoScratchBuffer))
      ensures !hasClient || clip == [] || channels <= 0 ==>
              stream == old(stream) && lastReadPosition == old(lastReadPosition)
      ensures hasClient && clip != [] && channels > 0 ==>
                && stream == Pumped(old(stream), clip, readable, old(lastReadPosition), currentPosition)
                && lastReadPosition == (if currentPosition < 0 then old(lastReadPosition) else currentPosition)
                && ((forall p :: readable(p)) ==>
                    stream == old(stream) + Mono(Between(clip, old(lastReadPosition), currentPosition)))
    {
      if !hasClient {
        return;
      }
      if currentPosition < 0 || currentPosition == lastReadPosition {
        return;
      }
      if |clip| == 0 || channels <= 0 {
        return;
      }
      WhenReadable(stream, clip, readable, lastReadPosition, currentPosition);
      ReadUpTo(clip, readable, currentPosition);
      lastReadPosition := currentPosition;
    }

    /** Everything from the last cursor position to the current one. */
    method ReadUpTo(clip: seq<T>, readable: nat -> bool, currentPosition: nat)
      requires Valid() && lastReadPosition < |clip| && currentPosition < |clip| && currentPosition != lastReadPosition
      modifies this`frameWriteCount, this`submitted, this`stream, this`monoScratchBuffer, frameSubmitBuffer,
               monoScratchBuffer
      ensures Valid() && (monoScratchBuffer == old(monoScratchBuffer) || fresh(monoScratchBuffer))
      ensures stream == Pumped(old(stream), clip, readable, lastReadPosition, currentPosition)
    {
      if currentPosition > lastReadPosition {
        ReadAndAccumulate(clip, readable, lastReadPosition, currentPosition - lastReadPosition);
      } else {
        ReadAround(clip, readable, currentPosition);
      }
    }

    lemma WhenReadable(before: seq<int16>, clip: seq<T>, readable: nat -> bool, last: nat, current: int)
      requires last < |clip| && current < |clip| && maxSamplesPerUpdate > 0
      ensures (forall p :: readable(p)) ==>
                Pumped(before, clip, readable, last, current) == before + Mono(Between(clip, last, current))
    {
      if forall p :: readable(p) {
        PumpedIsBetween(before, clip, readable, last, current);
      }
    }

    /** The cursor has come round: to the end of the clip, then from its start. */
    method ReadAround(clip: seq<T>, readable: nat -> bool, currentPosition: nat)
      requires Valid() && currentPosition < lastReadPosition < |clip|
      modifies this`frameWriteCount, this`submitted, this`stream, this`monoScratchBuffer, frameSubmitBuffer,
               monoScratchBuffer
      ensures Valid() && (monoScratchBuffer == old(monoScratchBuffer) || fresh(monoScratchBuffer))
      ensures stream == old(stream) + StillToRead(clip, readable, lastReadPosition, |clip| - lastReadPosition)
                                    + StillToRead(clip, readable, 0, currentPosition)
    {
      ReadAndAccumulate(clip, readable, lastReadPosition, |clip| - lastReadPosition);
      ReadFromStart(clip, readable, currentPosition);
    }

    method ReadFromStart(clip: seq<T>, readable: nat -> bool, currentPosition: nat)
      requires Valid() && currentPosition < |clip|
      modifies this`frameWriteCount, this`submitted, this`stream, this`monoScratchBuffer, frameSubmitBuffer,
               monoScratchBuffer
      ensures Valid() && (monoScratchBuffer == old(monoScratchBuffer) || fresh(monoScratchBuffer))
      ensures stream == old(stream) + StillToRead(clip, readable, 0, currentPosition)
    {
      if currentPosition > 0 {
        ReadAndAccumulate(clip, readable, 0, currentPosition);
      }
    }

    lemma PumpedIsBetween(before: seq<int16>, clip: seq<T>, readable: nat -> bool, last: nat, current: int)
      requires last < |clip| && current < |clip| && maxSamplesPerUpdate > 0 && forall p :: readable(p)
      ensures Pumped(before, clip, readable, last, current) == before + Mono(Between(clip, last, current))
    {
      if current > last {
        AllReadable(readable, last, current - last, maxSamplesPerUpdate);
        assert Mono(Between(clip, last, current)) == MonoRange(clip, last, current);
      } else if 0 <= current < last {
        AllReadable(readable, last, |clip| - last, maxSamplesPerUpdate);
        AllReadable(readable, 0, current, maxSamplesPerUpdate);
        assert Mono(Between(clip, last, current)) == MonoRange(clip, last, |clip|) + MonoRange(clip, 0, current);
        Associates(before, MonoRange(clip, last, |clip|), MonoRange(clip, 0, current));
      }
    }
  }
}
