/**
 The ambient-light recovery step of the reflectance initializer.

 A camera frame is stored as a flat buffer of interleaved samples: pixel `i`
 owns the `channels` samples at positions `i * channels + z` for `z < channels`.
 Two such buffers take part: `fb1`, the smoothed black exposure (ambient light
 times reflectance), and `fb2`, the smoothed, white-balanced difference between
 the white and the black exposure (reflectance). A one-byte-per-pixel mask
 marks the region of interest.

 The loop divides every sample of `fb1` by the matching sample of `fb2` in
 place, and averages the quotients per channel over the pixels that are inside
 the region of interest and whose reflectance exceeds a threshold.
 */
module Reflectance {

  /** An unsigned byte, as stored in the single-channel region-of-interest mask. */
  newtype byte = x: int | 0 <= x < 256

  /** The inputs of the averaging loop. */
  datatype Frame = Frame(
    fb1: seq<real>,        // smoothed black exposure, overwritten by the quotients
    fb2: seq<real>,        // white-balanced reflectance estimate
    mask: seq<byte>,       // region of interest, one byte per pixel
    channels: nat,         // samples per pixel
    reflectanceMin: real   // a sample counts only when its reflectance exceeds this
  ) {

    /** The shape the loop's indexing needs: whole pixels in `fb1`, a
        reflectance sample for every sample of `fb1`, and a mask byte for
        every pixel of `fb1`. */
    predicate Valid() {
      && channels > 0
      && |fb1| % channels == 0
      && |fb2| >= |fb1|
      && |mask| >= |fb1| / channels
    }

    /** Number of pixels the loop walks. */
    function Pixels(): nat
      requires Valid()
    {
      |fb1| / channels
    }

    /** Sample `z` of pixel `i` of the black exposure. */
    function Black(i: nat, z: nat): real
      requires Valid() && i < Pixels() && z < channels
    {
      SampleIndex(i, z, channels, |fb1|);
      fb1[i * channels + z]
    }

    /** Sample `z` of pixel `i` of the reflectance estimate. */
    function Reflect(i: nat, z: nat): real
      requires Valid() && i < Pixels() && z < channels
    {
      SampleIndex(i, z, channels, |fb1|);
      fb2[i * channels + z]
    }

    /** Does channel `z` of pixel `i` take part in the ambient average? */
    predicate Qualifies(i: nat, z: nat)
      requires Valid() && i < Pixels() && z < channels
    {
      mask[i] != 0 && Reflect(i, z) > reflectanceMin
    }

    /** Number of pixels among the first `n` whose channel `z` qualifies. */
    function Count(n: nat, z: nat): (r: nat)
      requires Valid() && n <= Pixels() && z < channels
      ensures r <= n
      ensures r == 0 <== n == 0
    {
      if n == 0 then 0
      else Count(n - 1, z) + (if Qualifies(n - 1, z) then 1 else 0)
    }

    /** Sum of the quotients `quot(Black(i, z), Reflect(i, z))` of channel
        `z` over the qualifying pixels `i` among the first `n`. */
    function Sum(n: nat, z: nat, quot: (real, real) -> real): real
      requires Valid() && n <= Pixels() && z < channels
    {
      if n == 0 then 0.0
      else
        Sum(n - 1, z, quot)
        + (if Qualifies(n - 1, z) then quot(Black(n - 1, z), Reflect(n - 1, z)) else 0.0)
    }
  }

  /** The per-channel result of the final averaging loop: a channel no pixel
      qualified for reads 0, whatever it held before; otherwise the running
      total, which starts at the caller's value, is divided by the count. */
  function ChannelMean(total: real, count: nat): real {
    if count == 0 then 0.0 else total / count as real
  }

  /** Sample `z` of pixel `i` lies inside a buffer of `len` samples. */
  lemma SampleIndex(i: nat, z: nat, channels: nat, len: nat)
    requires channels > 0 && len % channels == 0
    requires i < len / channels && z < channels
    ensures i * channels + z < len
    ensures (i + 1) * channels <= len
  {
    var p := len / channels;
    assert p * channels == len;
    assert i + 1 <= p;
    MulMonotone(i + 1, p, channels);
  }

  /** Multiplication by a natural number is monotone. */
  lemma MulMonotone(a: nat, b: nat, c: nat)
    requires a <= b
    ensures a * c <= b * c
  {
  }

  /** Dividing a multiple of `c` by `c` gives the factor back. */
  lemma DivOfMultiple(i: nat, c: nat)
    requires c > 0
    ensures (i * c) / c == i
  {
    var d := (i * c) / c;
    var m := (i * c) % c;
    assert i * c == d * c + m && 0 <= m < c;
    if d < i {
      MulMonotone(d + 1, i, c);
      assert false;
    } else if d > i {
      MulMonotone(i + 1, d, c);
      assert false;
    }
  }

  /** A sample offset `i * channels` below the buffer length names a whole pixel. */
  lemma PixelOfOffset(i: nat, channels: nat, len: nat)
    requires channels > 0 && len % channels == 0
    requires i * channels < len
    ensures i < len / channels
    ensures (i * channels) / channels == i
  {
    var p := len / channels;
    assert p * channels == len;
    if i >= p {
      MulMonotone(p, i, channels);
      assert false;
    }
    DivOfMultiple(i, channels);
  }

  /**
   One pass of the inner loop: pixel `i`, whose samples start at offset
   `i * channels`. Each of its samples is replaced by its quotient, and each
   channel's count and running total advance from pixel `i` to pixel `i + 1`.
   Samples of other pixels and the slots of `ambientOut` past `channels` are
   left alone.
   */
  method VisitPixel(f: Frame, quot: (real, real) -> real, ambient: seq<real>, i: nat,
                    quotients0: seq<real>, ambient0: seq<real>, nPixels0: seq<nat>)
    returns (quotients: seq<real>, ambientOut: seq<real>, nPixels: seq<nat>)
    requires f.Valid() && i < f.Pixels()
    requires |ambient| >= f.channels
    requires |quotients0| == |f.fb1|
    requires forall k :: 0 <= k < |f.fb1| && k < i * f.channels ==> quotients0[k] == quot(f.fb1[k], f.fb2[k])
    requires forall k :: i * f.channels <= k < |f.fb1| ==> quotients0[k] == f.fb1[k]
    requires |nPixels0| == f.channels
    requires forall z :: 0 <= z < f.channels ==> nPixels0[z] == f.Count(i, z)
    requires |ambient0| == |ambient|
    requires forall z :: 0 <= z < f.channels ==> ambient0[z] == ambient[z] + f.Sum(i, z, quot)
    requires forall z :: f.channels <= z < |ambient| ==> ambient0[z] == ambient[z]
    ensures |quotients| == |f.fb1|
    ensures forall k :: 0 <= k < |f.fb1| && k < (i + 1) * f.channels ==> quotients[k] == quot(f.fb1[k], f.fb2[k])
    ensures forall k :: (i + 1) * f.channels <= k < |f.fb1| ==> quotients[k] == f.fb1[k]
    ensures |nPixels| == f.channels
    ensures forall z :: 0 <= z < f.channels ==> nPixels[z] == f.Count(i + 1, z)
    ensures |ambientOut| == |ambient|
    ensures forall z :: 0 <= z < f.channels ==> ambientOut[z] == ambient[z] + f.Sum(i + 1, z, quot)
    ensures forall z :: f.channels <= z < |ambient| ==> ambientOut[z] == ambient[z]
  {
    var c := f.channels;
    var j := i * c;
    SampleIndex(i, 0, c, |f.fb1|);
    assert (i + 1) * c == j + c;
    quotients, ambientOut, nPixels := quotients0, ambient0, nPixels0;
    var z: nat := 0;
    while z < c
      invariant z <= c
      invariant |quotients| == |f.fb1|
      invariant forall k :: 0 <= k < j + z ==> quotients[k] == quot(f.fb1[k], f.fb2[k])
      invariant forall k :: j + z <= k < |f.fb1| ==> quotients[k] == f.fb1[k]
      invariant |nPixels| == c
      invariant forall y :: 0 <= y < z ==> nPixels[y] == f.Count(i + 1, y)
      invariant forall y :: z <= y < c ==> nPixels[y] == f.Count(i, y)
      invariant |ambientOut| == |ambient|
      invariant forall y :: 0 <= y < z ==> ambientOut[y] == ambient[y] + f.Sum(i + 1, y, quot)
      invariant forall y :: z <= y < c ==> ambientOut[y] == ambient[y] + f.Sum(i, y, quot)
      invariant forall y :: c <= y < |ambient| ==> ambientOut[y] == ambient[y]
    {
      var ra := quotients[j + z];
      var r := f.fb2[j + z];
      var a := quot(ra, r);
      quotients := quotients[j + z := a];
      if f.mask[i] != 0 {
        if r > f.reflectanceMin {
          nPixels := nPixels[z := nPixels[z] + 1];
          ambientOut := ambientOut[z := ambientOut[z] + a];
        }
      }
      z := z + 1;
    }
  }

  /**
   The per-pixel loop and the averaging loop that follows it.

   Every sample position `k` of `fb1` is visited once and ends holding
   `quot(fb1[k], fb2[k])`, whether or not the pixel qualifies; a sample
   contributes to its channel's count and total only when its pixel is in the
   region of interest and its reflectance exceeds the threshold. The averaging
   loop then turns each channel's total into a mean, with the caller's initial
   value of `ambient[z]` included in the total.
   */
  method RecoverAmbient(f: Frame, ambient: seq<real>, quot: (real, real) -> real)
    returns (quotients: seq<real>, ambientOut: seq<real>, nPixels: seq<nat>)
    requires f.Valid()
    requires |ambient| >= f.channels
    ensures |quotients| == |f.fb1|
    ensures forall k :: 0 <= k < |f.fb1| ==> quotients[k] == quot(f.fb1[k], f.fb2[k])
    ensures |nPixels| == f.channels
    ensures forall z :: 0 <= z < f.channels ==> nPixels[z] == f.Count(f.Pixels(), z)
    ensures |ambientOut| == |ambient|
    ensures forall z :: 0 <= z < f.channels ==>
      ambientOut[z] == ChannelMean(ambient[z] + f.Sum(f.Pixels(), z, quot), nPixels[z])
    ensures forall z :: f.channels <= z < |ambient| ==> ambientOut[z] == ambient[z]
  {
    var c := f.channels;
    quotients := f.fb1;
    ambientOut := ambient;
    nPixels := seq(c, _ => 0);
    var i: nat := 0;
    var j: nat := 0;
    while j < |f.fb1|
      invariant j == i * c
      invariant j <= |f.fb1| && i <= f.Pixels()
      invariant i == j / c
      invariant |quotients| == |f.fb1|
      invariant forall k :: 0 <= k < j ==> quotients[k] == quot(f.fb1[k], f.fb2[k])
      invariant forall k :: j <= k < |f.fb1| ==> quotients[k] == f.fb1[k]
      invariant |nPixels| == c
      invariant forall z :: 0 <= z < c ==> nPixels[z] == f.Count(i, z)
      invariant |ambientOut| == |ambient|
      invariant forall z :: 0 <= z < c ==> ambientOut[z] == ambient[z] + f.Sum(i, z, quot)
      invariant forall z :: c <= z < |ambient| ==> ambientOut[z] == ambient[z]
      decreases |f.fb1| - j
    {
      PixelOfOffset(i, c, |f.fb1|);
      SampleIndex(i, 0, c, |f.fb1|);
      DivOfMultiple(i + 1, c);
      quotients, ambientOut, nPixels := VisitPixel(f, quot, ambient, i, quotients, ambientOut, nPixels);
      i := i + 1;
      j := j + c;
    }
    assert i == f.Pixels();
    var z: nat := 0;
    while z < c
      invariant z <= c
      invariant |ambientOut| == |ambient|
      invariant forall y :: 0 <= y < z ==>
        ambientOut[y] == ChannelMean(ambient[y] + f.Sum(i, y, quot), nPixels[y])
      invariant forall y :: z <= y < c ==> ambientOut[y] == ambient[y] + f.Sum(i, y, quot)
      invariant forall y :: c <= y < |ambient| ==> ambientOut[y] == ambient[y]
    {
      ambientOut := ambientOut[z := if nPixels[z] == 0 then 0.0 else ambientOut[z] / nPixels[z] as real];
      z := z + 1;
    }
  }
}
