/**
 Properties of the ambient-light averaging: what the per-channel counts are,
 which samples can influence the result, and what the mean is for a scene
 whose ambient level is known.
 */
module ReflectanceFacts {
  import opened Reflectance

  /** The pixels among the first `n` whose channel `z` qualifies, as a set. */
  function QualifyingPixels(f: Frame, n: nat, z: nat): (s: set<nat>)
    requires f.Valid() && n <= f.Pixels() && z < f.channels
    ensures forall i :: i in s ==> i < n
  {
    set i: nat | i < n && f.Qualifies(i, z)
  }

  /** The loop's count is the number of pixels inside the region of interest
      whose reflectance in that channel exceeds the threshold. */
  lemma {:induction false} CountIsQualifyingPixels(f: Frame, n: nat, z: nat)
    requires f.Valid() && n <= f.Pixels() && z < f.channels
    ensures f.Count(n, z) == |QualifyingPixels(f, n, z)|
  {
    if n > 0 {
      CountIsQualifyingPixels(f, n - 1, z);
      var before := QualifyingPixels(f, n - 1, z);
      if f.Qualifies(n - 1, z) {
        assert QualifyingPixels(f, n, z) == before + {n - 1};
      } else {
        assert QualifyingPixels(f, n, z) == before;
      }
    }
  }

  /** `g` differs from `f` at most in black-exposure samples that do not
      qualify for channel `z`. */
  predicate AgreeOnQualifying(f: Frame, g: Frame, z: nat)
    requires f.Valid() && g.Valid() && z < f.channels
  {
    && g == f.(fb1 := g.fb1)
    && |g.fb1| == |f.fb1|
    && forall i :: 0 <= i < f.Pixels() && f.Qualifies(i, z) ==> g.Black(i, z) == f.Black(i, z)
  }

  /** Changing the ambient signal of samples that are masked out or below the
      reflectance threshold changes neither the count nor the total of a
      channel, hence not its mean. */
  lemma {:induction false} UnqualifiedSamplesIrrelevant(
    f: Frame, g: Frame, n: nat, z: nat, quot: (real, real) -> real)
    requires f.Valid() && g.Valid() && z < f.channels && n <= f.Pixels()
    requires AgreeOnQualifying(f, g, z)
    ensures g.Count(n, z) == f.Count(n, z)
    ensures g.Sum(n, z, quot) == f.Sum(n, z, quot)
  {
    if n > 0 {
      UnqualifiedSamplesIrrelevant(f, g, n - 1, z, quot);
      assert g.Qualifies(n - 1, z) == f.Qualifies(n - 1, z);
    }
  }

  /** With no pixel of the region of interest among the first `n`, nothing
      is counted and nothing is summed. */
  lemma {:induction false} EmptyRegionCountsNothing(f: Frame, n: nat, z: nat, quot: (real, real) -> real)
    requires f.Valid() && n <= f.Pixels() && z < f.channels
    requires forall i :: 0 <= i < n ==> f.mask[i] == 0
    ensures f.Count(n, z) == 0
    ensures f.Sum(n, z, quot) == 0.0
  {
    if n > 0 {
      EmptyRegionCountsNothing(f, n - 1, z, quot);
    }
  }

  /** An empty region of interest yields an ambient level of exactly 0 in
      every channel, discarding whatever the caller's vector held. */
  lemma EmptyRegionZeroAmbient(f: Frame, z: nat, start: real, quot: (real, real) -> real)
    requires f.Valid() && z < f.channels
    requires forall i :: 0 <= i < f.Pixels() ==> f.mask[i] == 0
    ensures ChannelMean(start + f.Sum(f.Pixels(), z, quot), f.Count(f.Pixels(), z)) == 0.0
  {
    EmptyRegionCountsNothing(f, f.Pixels(), z, quot);
  }

  /** Every qualifying quotient of channel `z` lies in `[lo, hi]`. */
  predicate QuotientsWithin(f: Frame, z: nat, quot: (real, real) -> real, lo: real, hi: real)
    requires f.Valid() && z < f.channels
  {
    forall i :: 0 <= i < f.Pixels() && f.Qualifies(i, z) ==>
      lo <= quot(f.Black(i, z), f.Reflect(i, z)) <= hi
  }

  /** `x` added to itself `k` times. */
  function Repeat(x: real, k: nat): real {
    if k == 0 then 0.0 else Repeat(x, k - 1) + x
  }

  /** Repeated addition is multiplication. */
  lemma {:induction false} RepeatIsProduct(x: real, k: nat)
    ensures Repeat(x, k) == k as real * x
  {
    if k > 0 {
      RepeatIsProduct(x, k - 1);
      assert k as real * x == (k - 1) as real * x + x;
    }
  }

  /** The total of `count` quotients each in `[lo, hi]` lies between
      `count` copies of `lo` and `count` copies of `hi`. */
  lemma {:induction false} SumWithin(f: Frame, n: nat, z: nat, quot: (real, real) -> real, lo: real, hi: real)
    requires f.Valid() && n <= f.Pixels() && z < f.channels
    requires QuotientsWithin(f, z, quot, lo, hi)
    ensures Repeat(lo, f.Count(n, z)) <= f.Sum(n, z, quot) <= Repeat(hi, f.Count(n, z))
  {
    if n > 0 {
      SumWithin(f, n - 1, z, quot, lo, hi);
    }
  }

  /** With a caller-zeroed ambient vector, a channel's mean lies within the
      range of the quotients it averages; in particular inputs normalised to
      `[0, 1]` give an ambient level in `[0, 1]`. */
  lemma MeanWithin(f: Frame, z: nat, quot: (real, real) -> real, lo: real, hi: real)
    requires f.Valid() && z < f.channels
    requires QuotientsWithin(f, z, quot, lo, hi)
    requires f.Count(f.Pixels(), z) > 0
    ensures lo <= ChannelMean(0.0 + f.Sum(f.Pixels(), z, quot), f.Count(f.Pixels(), z)) <= hi
  {
    var n := f.Pixels();
    SumWithin(f, n, z, quot, lo, hi);
    MeanOfBounded(f.Count(n, z), f.Sum(n, z, quot), lo, hi);
  }

  /** A total between `k` copies of `lo` and `k` copies of `hi` has its
      mean over `k` in `[lo, hi]`. */
  lemma MeanOfBounded(k: nat, s: real, lo: real, hi: real)
    requires k > 0
    requires Repeat(lo, k) <= s <= Repeat(hi, k)
    ensures lo <= s / k as real <= hi
  {
    var c := k as real;
    RepeatIsProduct(lo, k);
    RepeatIsProduct(hi, k);
    var a, b := c * lo, c * hi;
    assert a <= s <= b;
    DivMonotone(a, s, c);
    DivMonotone(s, b, c);
    MulDivCancel(c, lo);
    MulDivCancel(c, hi);
    assert a / c == lo && b / c == hi;
  }

  /** Scaling by a positive real and dividing by it again is the identity. */
  lemma MulDivCancel(c: real, x: real)
    requires c > 0.0
    ensures (c * x) / c == x
  {
  }

  /** Division by a positive real is monotone. */
  lemma DivMonotone(a: real, b: real, c: real)
    requires c > 0.0 && a <= b
    ensures a / c <= b / c
  {
  }

  /** A scene whose qualifying samples all give the same quotient `a` (an
      ambient level `a` everywhere) is recovered exactly, provided the
      caller zeroed the ambient vector and some pixel qualifies. */
  lemma UniformAmbientRecovered(f: Frame, z: nat, quot: (real, real) -> real, a: real)
    requires f.Valid() && z < f.channels
    requires forall i :: 0 <= i < f.Pixels() && f.Qualifies(i, z) ==>
      quot(f.Black(i, z), f.Reflect(i, z)) == a
    requires f.Count(f.Pixels(), z) > 0
    ensures ChannelMean(0.0 + f.Sum(f.Pixels(), z, quot), f.Count(f.Pixels(), z)) == a
  {
    MeanWithin(f, z, quot, a, a);
  }

  /** A non-zero starting value of the caller's vector is not discarded when
      some pixel qualifies: it shifts the mean by `start / count`. */
  lemma StartValueLeaks(f: Frame, z: nat, quot: (real, real) -> real, start: real)
    requires f.Valid() && z < f.channels
    requires f.Count(f.Pixels(), z) > 0
    ensures ChannelMean(start + f.Sum(f.Pixels(), z, quot), f.Count(f.Pixels(), z))
         == ChannelMean(0.0 + f.Sum(f.Pixels(), z, quot), f.Count(f.Pixels(), z))
            + start / f.Count(f.Pixels(), z) as real
  {
  }
}
