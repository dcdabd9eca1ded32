/** When the mix depends on the order of the speakers: exactly when there are samples of both
    signs and those of one sign alone leave the 16-bit range. */
module MixOrder {
  import opened Words
  import opened Mixer

  /** The sum of the positive samples, */
  function PositiveSum(samples: seq<int16>): (r: nat)
    decreases |samples|
  {
    if samples == [] then 0 else (if samples[0] > 0 then samples[0] else 0) + PositiveSum(samples[1..])
  }

  /** and of the negative ones. */
  function NegativeSum(samples: seq<int16>): (r: int)
    ensures r <= 0
    decreases |samples|
  {
    if samples == [] then 0 else (if samples[0] < 0 then samples[0] else 0) + NegativeSum(samples[1..])
  }

  /** The speakers' order makes no difference to the mix. */
  ghost predicate OrderIrrelevant(samples: seq<int16>) {
    forall a: seq<int16>, b: seq<int16> | multiset(a) == multiset(samples) && multiset(b) == multiset(samples) ::
      Mix(a) == Mix(b)
  }

  lemma {:induction false} SumsAdd(samples: seq<int16>)
    ensures Sum(samples) == PositiveSum(samples) + NegativeSum(samples)
    decreases |samples|
  {
    if samples != [] {
      SumsAdd(samples[1..]);
    }
  }

  lemma {:induction false} SumsConcat(a: seq<int16>, b: seq<int16>)
    ensures PositiveSum(a + b) == PositiveSum(a) + PositiveSum(b)
    ensures NegativeSum(a + b) == NegativeSum(a) + NegativeSum(b)
    decreases |a|
  {
    if a == [] {
      assert a + b == b;
    } else {
      assert (a + b)[0] == a[0] && (a + b)[1..] == a[1..] + b;
      SumsConcat(a[1..], b);
    }
  }

  lemma OneSample(x: int16)
    ensures PositiveSum([x]) == if x > 0 then x else 0
    ensures NegativeSum([x]) == if x < 0 then x else 0
  {
    assert [x][1..] == [];
  }

  /** The two sums do not depend on the order. */
  lemma {:induction false} SumsOfPermutation(a: seq<int16>, b: seq<int16>)
    requires multiset(a) == multiset(b)
    ensures PositiveSum(a) == PositiveSum(b) && NegativeSum(a) == NegativeSum(b)
    decreases |a|
  {
    if a == [] {
      assert |multiset(b)| == 0;
    } else {
      var x := a[0];
      assert x in multiset(b);
      var i :| 0 <= i < |b| && b[i] == x;
      WithoutOne(a, b, i);
      SumsOfPermutation(a[1..], b[..i] + b[i + 1..]);
      assert b == b[..i] + ([x] + b[i + 1..]);
      SumsConcat(b[..i], [x] + b[i + 1..]);
      SumsConcat([x], b[i + 1..]);
      SumsConcat(b[..i], b[i + 1..]);
      OneSample(x);
    }
  }

  lemma WithoutOne(a: seq<int16>, b: seq<int16>, i: nat)
    requires multiset(a) == multiset(b) && a != [] && i < |b| && b[i] == a[0]
    ensures multiset(a[1..]) == multiset(b[..i] + b[i + 1..])
  {
    assert a == [a[0]] + a[1..];
    assert b == (b[..i] + [b[i]]) + b[i + 1..];
    assert multiset(a) == multiset{a[0]} + multiset(a[1..]);
    assert multiset(b) == multiset(b[..i]) + multiset{b[i]} + multiset(b[i + 1..]);
    var rest := multiset(b[..i]) + multiset(b[i + 1..]);
    assert multiset(b) == multiset{b[i]} + rest;
    assert multiset(a[1..]) == multiset(a) - multiset{a[0]};
    assert rest == multiset(b) - multiset{b[i]};
  }

  // ----- one sign at a time

  lemma {:induction false} MixConcat(acc: int16, a: seq<int16>, b: seq<int16>)
    ensures MixFrom(acc, a + b) == MixFrom(MixFrom(acc, a), b)
    decreases |a|
  {
    if a == [] {
      assert a + b == b;
    } else {
      assert (a + b)[0] == a[0] && (a + b)[1..] == a[1..] + b;
      MixConcat(Clamp16(acc + a[0]), a[1..], b);
    }
  }

  /** From any accumulator, samples that are not negative saturate at the top only, */
  lemma {:induction false} RisingMix(acc: int16, samples: seq<int16>)
    requires NegativeSum(samples) == 0
    ensures MixFrom(acc, samples) as int == Min(acc + PositiveSum(samples), 0x7FFF)
    decreases |samples|
  {
    if samples != [] {
      RisingMix(Clamp16(acc + samples[0]), samples[1..]);
    }
  }

  /** and samples that are not positive at the bottom only. */
  lemma {:induction false} FallingMix(acc: int16, samples: seq<int16>)
    requires PositiveSum(samples) == 0
    ensures MixFrom(acc, samples) as int == -Min(-(acc + NegativeSum(samples)), 0x8000)
    decreases |samples|
  {
    if samples != [] {
      FallingMix(Clamp16(acc + samples[0]), samples[1..]);
    }
  }

  /** Neither sign leaves the range: no partial sum does, in any order. */
  lemma {:induction false} BothSidesFit(acc: int, samples: seq<int16>)
    requires -0x8000 <= acc + NegativeSum(samples) && acc + PositiveSum(samples) <= 0x7FFF
    ensures PartialSumsFit(acc, samples)
    decreases |samples|
  {
    if samples != [] {
      BothSidesFit(acc + samples[0], samples[1..]);
    }
  }

  // ----- the positive samples first, or last

  function Positives(samples: seq<int16>): seq<int16>
    decreases |samples|
  {
    if samples == [] then [] else (if samples[0] > 0 then [samples[0]] else []) + Positives(samples[1..])
  }

  function Others(samples: seq<int16>): seq<int16>
    decreases |samples|
  {
    if samples == [] then [] else (if samples[0] > 0 then [] else [samples[0]]) + Others(samples[1..])
  }

  lemma {:induction false} SumsBySign(samples: seq<int16>)
    ensures PositiveSum(Positives(samples)) == PositiveSum(samples) && NegativeSum(Positives(samples)) == 0
    ensures NegativeSum(Others(samples)) == NegativeSum(samples) && PositiveSum(Others(samples)) == 0
    decreases |samples|
  {
    if samples != [] {
      var x, rest := samples[0], samples[1..];
      SumsBySign(rest);
      SumsConcat([x], Positives(rest));
      SumsConcat([x], Others(rest));
      OneSample(x);
      assert [] + Positives(rest) == Positives(rest) && [] + Others(rest) == Others(rest);
    }
  }

  lemma {:induction false} SplitBySign(samples: seq<int16>)
    ensures multiset(Positives(samples)) + multiset(Others(samples)) == multiset(samples)
    decreases |samples|
  {
    if samples != [] {
      var x, rest := samples[0], samples[1..];
      SplitBySign(rest);
      assert samples == [x] + rest;
      assert multiset(samples) == multiset{x} + multiset(rest);
      if x > 0 {
        assert multiset(Positives(samples)) == multiset{x} + multiset(Positives(rest));
        assert Others(samples) == Others(rest);
      } else {
        assert multiset(Others(samples)) == multiset{x} + multiset(Others(rest));
        assert Positives(samples) == Positives(rest);
      }
    }
  }

  lemma PositivesFirst(samples: seq<int16>)
    ensures Mix(Positives(samples) + Others(samples)) as int ==
            -Min(-(Min(PositiveSum(samples), 0x7FFF) + NegativeSum(samples)), 0x8000)
  {
    SumsBySign(samples);
    MixConcat(0, Positives(samples), Others(samples));
    RisingMix(0, Positives(samples));
    FallingMix(MixFrom(0, Positives(samples)), Others(samples));
  }

  lemma PositivesLast(samples: seq<int16>)
    ensures Mix(Others(samples) + Positives(samples)) as int ==
            Min(-Min(-NegativeSum(samples), 0x8000) + PositiveSum(samples), 0x7FFF)
  {
    SumsBySign(samples);
    MixConcat(0, Others(samples), Positives(samples));
    FallingMix(0, Others(samples));
    RisingMix(MixFrom(0, Others(samples)), Positives(samples));
  }

  // ----- the exact condition

  /** No samples are positive, or none negative, or the samples of each sign alone stay in
      16 bits. */
  predicate OneSignOrFits(samples: seq<int16>) {
    || PositiveSum(samples) == 0
    || NegativeSum(samples) == 0
    || (PositiveSum(samples) <= 0x7FFF && NegativeSum(samples) >= -0x8000)
  }

  /** Where the order is irrelevant, this is what every order gives. */
  lemma MixOfPermutation(samples: seq<int16>, a: seq<int16>)
    requires multiset(a) == multiset(samples) && OneSignOrFits(samples)
    ensures Mix(a) == Clamp16(Sum(samples))
  {
    SumsOfPermutation(a, samples);
    SumsAdd(samples);
    SumsAdd(a);
    if PositiveSum(samples) == 0 {
      FallingMix(0, a);
    } else if NegativeSum(samples) == 0 {
      RisingMix(0, a);
    } else {
      BothSidesFit(0, a);
      NoSaturationNoError(0, a);
    }
  }

  lemma EndsDiffer(p: nat, n: int)
    requires p > 0 && n < 0 && (p > 0x7FFF || n < -0x8000)
    ensures -Min(-(Min(p, 0x7FFF) + n), 0x8000) < Min(-Min(-n, 0x8000) + p, 0x7FFF)
  {
  }

  /** Otherwise the positive samples first give less than the positive samples last. */
  lemma EndsMixDifferently(samples: seq<int16>)
    requires !OneSignOrFits(samples)
    ensures Mix(Positives(samples) + Others(samples)) < Mix(Others(samples) + Positives(samples))
  {
    PositivesFirst(samples);
    PositivesLast(samples);
    EndsDiffer(PositiveSum(samples), NegativeSum(samples));
  }

  lemma EndsArePermutations(samples: seq<int16>)
    ensures multiset(Positives(samples) + Others(samples)) == multiset(samples)
    ensures multiset(Others(samples) + Positives(samples)) == multiset(samples)
  {
    SplitBySign(samples);
  }

  /** The mix does not depend on the order of the speakers if and only if their samples have
      one sign or fit. */
  lemma OrderIrrelevantExact(samples: seq<int16>)
    ensures OrderIrrelevant(samples) <==> OneSignOrFits(samples)
  {
    if OneSignOrFits(samples) {
      forall a: seq<int16>, b: seq<int16> | multiset(a) == multiset(samples) && multiset(b) == multiset(samples)
        ensures Mix(a) == Mix(b)
      {
        MixOfPermutation(samples, a);
        MixOfPermutation(samples, b);
      }
    } else {
      EndsArePermutations(samples);
      EndsMixDifferently(samples);
    }
  }
}
