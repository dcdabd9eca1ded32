/** The saturating mix: a clamped addition per speaker and sample, its closed form as one
    clamp of the true sum, and what follows from it. */
module Mixer {
  import opened Words

  function Clamp(x: int, lo: int, hi: int): int {
    if x > hi then hi else if x < lo then lo else x
  }

  function Clamp16(x: int): int16 {
    Clamp(x, -0x8000, 0x7FFF)
  }

  /** One output sample: each speaker in turn is added and the result clamped. */
  function MixFrom(acc: int16, samples: seq<int16>): int16
    decreases |samples|
  {
    if samples == [] then acc else MixFrom(Clamp16(acc + samples[0]), samples[1..])
  }

  function Mix(samples: seq<int16>): int16 {
    MixFrom(0, samples)
  }

  function Sum(samples: seq<int16>): int {
    if samples == [] then 0 else samples[0] as int + Sum(samples[1..])
  }

  /** The interval the true sum is clamped into: where the two ends of the 16-bit range go. */
  function Lowest(samples: seq<int16>): int16 {
    MixFrom(-0x8000, samples)
  }

  function Highest(samples: seq<int16>): int16 {
    MixFrom(0x7FFF, samples)
  }

  /** Saturation in one step: mixing is a single clamp of the exact sum into
      [Lowest, Highest], from whatever value the accumulator starts. */
  lemma {:induction false} MixIsOneClamp(acc: int16, samples: seq<int16>)
    ensures Lowest(samples) <= Highest(samples)
    ensures MixFrom(acc, samples) == Clamp(acc + Sum(samples), Lowest(samples), Highest(samples))
    decreases |samples|
  {
    if samples != [] {
      var x, rest := samples[0], samples[1..];
      MixIsOneClamp(Clamp16(acc + x), rest);
      MixIsOneClamp(Clamp16(x as int - 0x8000), rest);
      MixIsOneClamp(Clamp16(x as int + 0x7FFF), rest);
    }
  }

  /** The mix is exact just when the sum lies in the interval. */
  lemma MixExactIff(samples: seq<int16>)
    ensures Mix(samples) as int == Sum(samples) <==> Lowest(samples) as int <= Sum(samples) <= Highest(samples) as int
  {
    MixIsOneClamp(0, samples);
  }

  ghost predicate PartialSumsFit(acc: int, samples: seq<int16>)
    decreases |samples|
  {
    && -0x8000 <= acc < 0x8000
    && (samples != [] ==> PartialSumsFit(acc + samples[0], samples[1..]))
  }

  lemma {:induction false} NoSaturationNoError(acc: int16, samples: seq<int16>)
    requires PartialSumsFit(acc, samples)
    ensures MixFrom(acc, samples) as int == acc + Sum(samples)
    decreases |samples|
  {
    if samples != [] {
      NoSaturationNoError(acc + samples[0], samples[1..]);
    }
  }

  ghost predicate SameSign(samples: seq<int16>) {
    (forall x | x in samples :: 0 <= x) || (forall x | x in samples :: x <= 0)
  }

  lemma {:induction false} SameSignSaturatesOnce(acc: int16, samples: seq<int16>)
    requires (0 <= acc && forall x | x in samples :: 0 <= x) || (acc <= 0 && forall x | x in samples :: x <= 0)
    ensures MixFrom(acc, samples) == Clamp16(acc + Sum(samples))
    decreases |samples|
  {
    if samples != [] {
      assert samples[0] in samples;
      assert forall x | x in samples[1..] :: x in samples;
      SameSignSaturatesOnce(Clamp16(acc + samples[0]), samples[1..]);
      SumSign(samples[1..]);
    }
  }

  lemma {:induction false} SumSign(samples: seq<int16>)
    ensures (forall x | x in samples :: 0 <= x) ==> 0 <= Sum(samples)
    ensures (forall x | x in samples :: x <= 0) ==> Sum(samples) <= 0
  {
    if samples != [] {
      assert samples[0] in samples;
      assert forall x | x in samples[1..] :: x in samples;
      SumSign(samples[1..]);
    }
  }

  /** Louder samples never make the mix quieter: it is monotone in every speaker's sample. */
  lemma {:induction false} MixIsMonotone(acc: int16, samples: seq<int16>, acc': int16, samples': seq<int16>)
    requires acc <= acc' && |samples| == |samples'|
    requires forall i | 0 <= i < |samples| :: samples[i] <= samples'[i]
    ensures MixFrom(acc, samples) <= MixFrom(acc', samples')
    decreases |samples|
  {
    if samples != [] {
      MixIsMonotone(Clamp16(acc + samples[0]), samples[1..], Clamp16(acc' + samples'[0]), samples'[1..]);
    }
  }

  /** The three corollaries for the mix itself. */
  lemma MixProperties(samples: seq<int16>)
    ensures PartialSumsFit(0, samples) ==> Mix(samples) as int == Sum(samples)
    ensures SameSign(samples) ==> Mix(samples) == Clamp16(Sum(samples))
    ensures forall louder: seq<int16>
              | |louder| == |samples| && (forall i | 0 <= i < |samples| :: samples[i] <= louder[i]) ::
              Mix(samples) <= Mix(louder)
  {
    if PartialSumsFit(0, samples) {
      NoSaturationNoError(0, samples);
    }
    if SameSign(samples) {
      SameSignSaturatesOnce(0, samples);
    }
    forall louder: seq<int16> | |louder| == |samples| && forall i | 0 <= i < |samples| :: samples[i] <= louder[i]
      ensures Mix(samples) <= Mix(louder)
    {
      MixIsMonotone(0, samples, 0, louder);
    }
  }

  lemma {:induction false} MixAppend(acc: int16, samples: seq<int16>, x: int16)
    ensures MixFrom(acc, samples + [x]) == Clamp16(MixFrom(acc, samples) + x)
    decreases |samples|
  {
    if samples == [] {
      assert [x][1..] == [];
    } else {
      assert (samples + [x])[1..] == samples[1..] + [x];
      MixAppend(Clamp16(acc + samples[0]), samples[1..], x);
    }
  }

  // ----- the loops

  /** The samples at position `s` of the first `upto` speakers that have one there. */
  ghost function Column(frames: seq<seq<int16>>, upto: nat, s: nat): seq<int16>
    requires upto <= |frames|
  {
    if upto == 0 then []
    else if s < |frames[upto - 1]| then Column(frames, upto - 1, s) + [frames[upto - 1][s]]
    else Column(frames, upto - 1, s)
  }

  /** Every speaker with a sample there is in the column, in order, */
  lemma {:induction false} ColumnHasAll(frames: seq<seq<int16>>, upto: nat, s: nat, i: nat)
    requires i < upto <= |frames| && s < |frames[i]|
    ensures |Column(frames, i, s)| < |Column(frames, upto, s)|
    ensures Column(frames, upto, s)[|Column(frames, i, s)|] == frames[i][s]
    decreases upto
  {
    if i < upto - 1 {
      ColumnHasAll(frames, upto - 1, s, i);
    }
  }

  /** and nothing else is. */
  lemma {:induction false} ColumnHasOnly(frames: seq<seq<int16>>, upto: nat, s: nat, r: nat) returns (i: nat)
    requires upto <= |frames| && r < |Column(frames, upto, s)|
    ensures i < upto && s < |frames[i]| && |Column(frames, i, s)| == r && Column(frames, upto, s)[r] == frames[i][s]
    decreases upto
  {
    if r < |Column(frames, upto - 1, s)| {
      i := ColumnHasOnly(frames, upto - 1, s, r);
    } else {
      i := upto - 1;
    }
  }

  lemma MixNext(frames: seq<seq<int16>>, i: nat, s: nat)
    requires i < |frames|
    ensures Mix(Column(frames, i + 1, s)) ==
            if s < |frames[i]| then Clamp16(Mix(Column(frames, i, s)) + frames[i][s]) else Mix(Column(frames, i, s))
  {
    if s < |frames[i]| {
      MixAppend(0, Column(frames, i, s), frames[i][s]);
    }
  }

  /** What each speaker decoded this tick. */
  ghost function Frames(pcmBuf: seq<array<int16>>, pcmCount: seq<nat>): (frames: seq<seq<int16>>)
    requires |pcmBuf| == |pcmCount|
    requires forall i | 0 <= i < |pcmBuf| :: pcmCount[i] <= pcmBuf[i].Length
    reads pcmBuf
  {
    seq(|pcmBuf|, i requires 0 <= i < |pcmBuf| == |pcmCount| && pcmCount[i] <= pcmBuf[i].Length reads pcmBuf
                  => pcmBuf[i][..pcmCount[i]])
  }

  /** Adds one speaker's frame into the output. */
  method MixSpeaker(frame: array<int16>, count: nat, out: array<int16>, outSamples: nat)
    requires count <= frame.Length && outSamples <= out.Length && frame != out
    modifies out
    ensures forall s | 0 <= s < out.Length :: out[s] ==
              if s < count && s < outSamples then Clamp16(old(out[s]) as int + frame[s] as int) else old(out[s])
  {
    var mixN := if count < outSamples then count else outSamples;
    for s := 0 to mixN
      invariant forall t | 0 <= t < out.Length :: out[t] ==
                  if t < s then Clamp16(old(out[t]) as int + frame[t] as int) else old(out[t])
    {
      var sum := out[s] as int + frame[s] as int;
      out[s] := Clamp16(sum);
    }
  }

  lemma Unmixed(frames: seq<seq<int16>>, i: nat, outSamples: nat)
    requires i < |frames| && frames[i] == []
    ensures forall s | 0 <= s < outSamples :: Mix(Column(frames, i + 1, s)) == Mix(Column(frames, i, s))
  {
  }

  /** One speaker joins the mix of those before it. */
  method MixTurn(ghost frames: seq<seq<int16>>, ghost i: nat, frame: array<int16>, count: nat, out: array<int16>,
                 outSamples: nat)
    requires count <= frame.Length && outSamples <= out.Length && frame != out
    requires i < |frames| && frames[i] == frame[..count]
    requires forall s | 0 <= s < outSamples :: out[s] == Mix(Column(frames, i, s))
    modifies out
    ensures forall s | 0 <= s < outSamples :: out[s] == Mix(Column(frames, i + 1, s))
    ensures out[outSamples..] == old(out[outSamples..])
  {
    forall s | 0 <= s < outSamples
      ensures Mix(Column(frames, i + 1, s)) ==
              if s < count then Clamp16(Mix(Column(frames, i, s)) + frames[i][s]) else Mix(Column(frames, i, s))
    {
      MixNext(frames, i, s);
    }
    MixSpeaker(frame, count, out, outSamples);
  }

  method MixOutput(pcmBuf: seq<array<int16>>, pcmCount: array<nat>, out: array<int16>, outSamples: uint32)
    returns (result: int32)
    requires |pcmBuf| == pcmCount.Length && outSamples <= out.Length
    requires forall i | 0 <= i < |pcmBuf| :: pcmBuf[i] != out && pcmCount[i] <= pcmBuf[i].Length
    modifies out
    ensures forall s | 0 <= s < outSamples ::
              out[s] == Mix(Column(Frames(pcmBuf, pcmCount[..]), |pcmBuf|, s))
    ensures out[outSamples..] == old(out[outSamples..])
    ensures result == if exists i :: 0 <= i < pcmCount.Length && pcmCount[i] != 0 then AsInt32(outSamples) else 0
  {
    forall s | 0 <= s < outSamples {
      out[s] := 0;
    }
    ghost var frames := Frames(pcmBuf, pcmCount[..]);
    var any := false;
    for i := 0 to pcmCount.Length
      invariant forall s | 0 <= s < outSamples :: out[s] == Mix(Column(frames, i, s))
      invariant out[outSamples..] == old(out[outSamples..])
      invariant any <==> exists j :: 0 <= j < i && pcmCount[j] != 0
      invariant frames == Frames(pcmBuf, pcmCount[..])
    {
      var cnt := pcmCount[i];
      if cnt != 0 {
        any := true;
        MixTurn(frames, i, pcmBuf[i], cnt, out, outSamples);
      } else {
        Unmixed(frames, i, outSamples);
      }
    }
    return if any then AsInt32(outSamples) else 0;
  }
}
